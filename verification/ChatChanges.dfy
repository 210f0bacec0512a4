/** Exactly what each action of the message store shows, and what many merges come to. */
module ChatChanges {
  import opened Common
  import opened Paging
  import opened ArchiveRows
  import opened ChatState
  import opened ChatMerge
  import ChatLists
  import Reactions

  // ---- merging, as the store does it ----------------------------------------------------------

  /** A merge shows a list sorted by seq, with the union of the ids, each once; copies listed before
      stay, the others come from the batch; the cache is the list's last 50 and other conversations
      are left alone. */
  lemma MergeShows(dates: Dates, s: State, c: ConvId, list: seq<ChatMessage>)
    requires DistinctIds(ListOf(s, c))
    ensures var t := Apply(dates, s, Merges(c, list)); var shown := ListOf(t, c);
      && Sorted(shown) && DistinctIds(shown)
      && (forall id :: HasId(shown, id) <==> HasId(ListOf(s, c), id) || HasId(list, id))
      && (forall m :: m in ListOf(s, c) ==> m in shown)
      && (forall m :: m in shown ==> m in ListOf(s, c) || (m in list && !HasId(ListOf(s, c), m.core.id)))
      && c in t.cache && t.cache[c] == (if |shown| <= 50 then shown else shown[|shown| - 50..])
      && t.last == s.last && forall d :: d != c ==> ListOf(t, d) == ListOf(s, d)
  {
    MergeIsUnion(ListOf(s, c), list);
  }

  /** The batches merged one after the other. */
  function Merging(c: ConvId, batches: seq<seq<ChatMessage>>): seq<Event> {
    if batches == [] then [] else [Merges(c, batches[0])] + Merging(c, batches[1..])
  }

  lemma {:induction false} MergingShows(dates: Dates, s: State, c: ConvId, batches: seq<seq<ChatMessage>>)
    ensures ListOf(After(dates, s, Merging(c, batches)), c) == MergeAll(ListOf(s, c), batches)
    decreases |batches|
  {
    if batches != [] {
      var e, rest := Merges(c, batches[0]), Merging(c, batches[1..]);
      assert ([e] + rest)[1..] == rest;
      MergingShows(dates, Apply(dates, s, e), c, batches[1..]);
    }
  }

  /** The store shows one and the same list however agreeing batches are ordered and repeated: all
      their messages and the old ones, strictly by seq. */
  lemma MergingIsOrderFree(dates: Dates, s: State, c: ConvId, bs: seq<seq<ChatMessage>>, cs: seq<seq<ChatMessage>>)
    requires DistinctIds(ListOf(s, c)) && Agree(ListOf(s, c) + Flat(bs))
    requires bs != [] && cs != [] && forall m :: m in Flat(bs) <==> m in Flat(cs)
    ensures var shown := ListOf(After(dates, s, Merging(c, bs)), c);
      && shown == ListOf(After(dates, s, Merging(c, cs)), c)
      && Ascending(shown, SeqOf)
      && forall m :: m in shown <==> m in ListOf(s, c) || m in Flat(bs)
  {
    MergingShows(dates, s, c, bs);
    MergingShows(dates, s, c, cs);
    MergeOrderFree(ListOf(s, c), bs, cs);
    MergeAllElements(ListOf(s, c), bs);
  }

  // ---- what every other action shows ------------------------------------------------------------

  /** Position i holds the first message with the id. */
  predicate FirstAt(list: seq<ChatMessage>, id: RowId, i: nat) {
    i < |list| && list[i].core.id == id && forall j :: 0 <= j < i ==> list[j].core.id != id
  }

  lemma {:induction false} IndexIsFirst(list: seq<ChatMessage>, id: RowId, i: nat)
    requires i < |list|
    ensures FirstAt(list, id, i) <==> IndexOf(list, id) == i
  {
    if list[0].core.id != id {
      if i > 0 {
        IndexIsFirst(list[1..], id, i - 1);
        assert FirstAt(list, id, i) <==> FirstAt(list[1..], id, i - 1) by {
          assert forall j :: 0 < j < |list| ==> list[j] == list[1..][j - 1];
        }
      }
    } else if i > 0 {
      assert !FirstAt(list, id, i);
    }
  }

  /** A fetched window is shown turned round: what came last is first. */
  lemma SetShows(dates: Dates, s: State, c: ConvId, list: seq<ChatMessage>, i: nat)
    requires i < |list|
    ensures var shown := ListOf(Apply(dates, s, Sets(c, list)), c);
      |shown| == |list| && shown[i] == list[|list| - 1 - i]
  {
    ReverseAt(list, i);
  }

  /** A new message goes to the end of its conversation's list; a known one changes no list. */
  lemma AppendShows(dates: Dates, s: State, m: ChatMessage)
    ensures ListOf(Apply(dates, s, Appends(m)), m.core.conv) ==
      if exists k :: k in ListOf(s, m.core.conv) && k.core.id == m.core.id then ListOf(s, m.core.conv)
      else ListOf(s, m.core.conv) + [m]
  {
    assert HasId(ListOf(s, m.core.conv), m.core.id) <==>
      exists k :: k in ListOf(s, m.core.conv) && k.core.id == m.core.id;
  }

  /** An edit or recall takes the place of the first listed copy, if its date is not past the window;
      nothing else in the list moves or changes. */
  lemma ReplaceShows(dates: Dates, s: State, m: ChatMessage, now: Time, i: nat)
    requires i < |ListOf(s, m.core.conv)|
    ensures var old_list, shown := ListOf(s, m.core.conv), ListOf(Apply(dates, s, Replaces(m, now)), m.core.conv);
      |shown| == |old_list| &&
      shown[i] == if FirstAt(old_list, m.core.id, i) && !PastWindow(dates, m.core.createdAt, now) then m else old_list[i]
  {
    IndexIsFirst(ListOf(s, m.core.conv), m.core.id, i);
  }

  /** A reaction update changes the reactions of the first listed copy and nothing else. */
  lemma ReactShows(dates: Dates, s: State, c: ConvId, id: RowId, reactions: seq<Reactions.ReactionCount>, i: nat)
    requires i < |ListOf(s, c)|
    ensures var old_list, shown := ListOf(s, c), ListOf(Apply(dates, s, Reacts(c, id, reactions)), c);
      |shown| == |old_list| &&
      shown[i] == if FirstAt(old_list, id, i) then ChatMessage(old_list[i].core, reactions) else old_list[i]
  {
    IndexIsFirst(ListOf(s, c), id, i);
  }

  lemma {:induction false} WithoutFirst(list: seq<ChatMessage>, id: RowId, i: nat)
    requires DistinctIds(list) && FirstAt(list, id, i)
    ensures Without(list, id) == list[..i] + list[i + 1..]
  {
    if i == 0 {
      WithoutNone(list[1..], id);
    } else {
      assert FirstAt(list[1..], id, i - 1);
      WithoutFirst(list[1..], id, i - 1);
      assert list[1..][..i - 1] == list[1..i] && list[1..][i..] == list[i + 1..];
      assert [list[0]] + list[1..i] == list[..i];
    }
  }

  lemma {:induction false} WithoutNone(list: seq<ChatMessage>, id: RowId)
    requires forall i :: 0 <= i < |list| ==> list[i].core.id != id
    ensures Without(list, id) == list
  {
    if list != [] {
      WithoutNone(list[1..], id);
    }
  }

  /** A deletion takes out the listed copy and leaves the others in order; of an unlisted id, nothing. */
  lemma RemoveShows(dates: Dates, s: State, c: ConvId, id: RowId, now: Time)
    requires DistinctIds(ListOf(s, c))
    ensures var old_list, shown := ListOf(s, c), ListOf(Apply(dates, s, Removes(c, id, now)), c);
      && (forall i: nat :: FirstAt(old_list, id, i) ==> shown == old_list[..i] + old_list[i + 1..])
      && (!HasId(old_list, id) ==> shown == old_list)
  {
    var list := ListOf(s, c);
    forall i: nat | FirstAt(list, id, i)
      ensures ListOf(Apply(dates, s, Removes(c, id, now)), c) == list[..i] + list[i + 1..]
    {
      WithoutFirst(list, id, i);
    }
    if !HasId(list, id) {
      assert forall i :: 0 <= i < |list| ==> list[i] in list;
      WithoutNone(list, id);
    }
  }

  /** The conversation an action is about. */
  predicate About(e: Event, c: ConvId) {
    match e
    case Sets(d, _) => d == c
    case Merges(d, _) => d == c
    case Appends(m) => m.core.conv == c
    case Replaces(m, _) => m.core.conv == c
    case Removes(d, _, _) => d == c
    case Reacts(d, _, _) => d == c
    case _ => true
  }

  /** Other conversations keep list and cache. */
  lemma OthersShow(dates: Dates, s: State, e: Event, c: ConvId)
    requires !About(e, c)
    ensures var t := Apply(dates, s, e);
      && ListOf(t, c) == ListOf(s, c) && (c in t.cache <==> c in s.cache) && (c in s.cache ==> t.cache[c] == s.cache[c])
  {
    assert !e.Hydrates? && !e.Restarts?;
  }

  /** Hydrating brings back only what memory lacks; a restart loses memory alone. */
  lemma HydrateShows(dates: Dates, s: State, c: ConvId)
    ensures ListOf(Apply(dates, s, Hydrates), c) == if c in s.mem then s.mem[c] else if c in s.cache then s.cache[c] else []
    ensures Apply(dates, s, Hydrates).cache == s.cache && Apply(dates, s, Hydrates).archive == s.archive
    ensures Apply(dates, s, Restarts) == State(map[], s.cache, s.archive, s.last)
  {
  }

  /** The cursor is the highest seq appended so far; no other action moves it. */
  lemma CursorsChangeExactly(dates: Dates, s: State, e: Event, c: ConvId)
    ensures LastSeq(Apply(dates, s, e), c) ==
      if e.Appends? && e.message.core.conv == c && e.message.core.seqNo > LastSeq(s, c) then e.message.core.seqNo
      else LastSeq(s, c)
  {
  }

  // ---- what every action archives -------------------------------------------------------------------

  /** The action writes m to the archive. */
  ghost predicate Writes(dates: Dates, s: State, e: Event, m: ChatMessage) {
    match e
    case Sets(_, list) => m in list
    case Merges(c, list) => m in list && !HasId(ListOf(s, c), m.core.id)
    case Appends(k) => m == k
    case Replaces(k, now) => m == k && !PastWindow(dates, k.core.createdAt, now)
    case _ => false
  }

  /** A deletion of a listed message whose listed date is not past the window. */
  ghost predicate Erases(dates: Dates, s: State, e: Event, id: RowId) {
    e.Removes? && e.id == id &&
    exists i: nat :: FirstAt(ListOf(s, e.conv), id, i) && !PastWindow(dates, ListOf(s, e.conv)[i].core.createdAt, e.now)
  }

  predicate NoRepeatsIn(e: Event) {
    (e.Sets? || e.Merges?) ==>
      forall i, j :: 0 <= i < j < |e.list| ==> e.list[i].core.id != e.list[j].core.id
  }

  /** A written message's own body replaces the entry's, whose fixed part is what it first was. */
  function Rewritten(archive: map<RowId, Entry>, m: ChatMessage): Entry {
    Entry(if m.core.id in archive then archive[m.core.id].fixed else FixedOf(m.core), BodyOf(m.core))
  }

  lemma {:induction false} PutAllAt(archive: map<RowId, Entry>, list: seq<ChatMessage>, id: RowId)
    ensures !HasId(list, id) ==> (id in PutAll(archive, list) <==> id in archive)
    ensures !HasId(list, id) && id in archive ==> PutAll(archive, list)[id] == archive[id]
    decreases |list|
  {
    if list != [] {
      assert list[0] in list && forall m :: m in list[1..] ==> m in list;
      PutAllAt(Put(archive, list[0].core), list[1..], id);
    }
  }

  lemma {:induction false} PutAllOne(archive: map<RowId, Entry>, list: seq<ChatMessage>, m: ChatMessage)
    requires DistinctIds(list) && m in list
    ensures m.core.id in PutAll(archive, list) && PutAll(archive, list)[m.core.id] == Rewritten(archive, m)
    decreases |list|
  {
    var x, rest := list[0], list[1..];
    var next := Put(archive, x.core);
    if m == x {
      assert forall k :: k in rest ==> k.core.id != x.core.id;
      PutAllAt(next, rest, m.core.id);
    } else {
      assert m in rest;
      assert m.core.id != x.core.id by {
        var i :| 0 <= i < |rest| && rest[i] == m;
        assert list[i + 1] == m;
      }
      PutAllOne(next, rest, m);
    }
  }

  lemma UnseenExactly(old_list: seq<ChatMessage>, list: seq<ChatMessage>)
    requires DistinctIds(list)
    ensures var added := Unseen(IdSet(old_list), list);
      DistinctIds(added) && forall m :: m in added <==> m in list && !HasId(old_list, m.core.id)
  {
    var added := Unseen(IdSet(old_list), list);
    UnseenElements(IdSet(old_list), list);
    forall m | m in list && !HasId(old_list, m.core.id) ensures m in added {
      assert m.core.id !in IdSet(old_list);
      var k :| k in added && k.core.id == m.core.id;
      var i :| 0 <= i < |list| && list[i] == k;
      var j :| 0 <= j < |list| && list[j] == m;
      assert i == j;
    }
  }

  /** The messages an action writes, in order. */
  ghost function Written(dates: Dates, s: State, e: Event): (list: seq<ChatMessage>)
    requires NoRepeatsIn(e)
    ensures DistinctIds(list) && forall m :: m in list <==> Writes(dates, s, e, m)
  {
    match e
    case Sets(_, list) =>
      ChatLists.ReverseDistinct(list);
      ReverseElements(list);
      Reverse(list)
    case Merges(c, list) =>
      UnseenExactly(ListOf(s, c), list);
      Unseen(IdSet(ListOf(s, c)), list)
    case Appends(m) => [m]
    case Replaces(m, now) => if PastWindow(dates, m.core.createdAt, now) then [] else [m]
    case _ => []
  }

  lemma ArchivedIs(dates: Dates, s: State, e: Event)
    requires NoRepeatsIn(e) && !e.Removes?
    ensures Apply(dates, s, e).archive == PutAll(s.archive, Written(dates, s, e))
  {
    match e
    case Appends(m) => assert [m][1..] == [];
    case Replaces(m, now) => assert [m][1..] == [];
    case _ =>
  }

  /** The archive after any action whose batch repeats no id: what it writes is rewritten, what a
      deletion erases is gone, every other entry is as it was. */
  lemma ArchiveChangesExactly(dates: Dates, s: State, e: Event, id: RowId)
    requires NoRepeatsIn(e)
    ensures var t := Apply(dates, s, e);
      && (forall m :: Writes(dates, s, e, m) ==> m.core.id in t.archive && t.archive[m.core.id] == Rewritten(s.archive, m))
      && ((forall m :: Writes(dates, s, e, m) ==> m.core.id != id) ==>
           (id in t.archive <==> id in s.archive && !Erases(dates, s, e, id)) &&
           (id in t.archive ==> t.archive[id] == s.archive[id]))
  {
    if e.Removes? {
      ErasesExactly(dates, s, e, id);
    } else {
      ArchivedIs(dates, s, e);
      var list := Written(dates, s, e);
      forall m | m in list ensures m.core.id in Apply(dates, s, e).archive
        ensures Apply(dates, s, e).archive[m.core.id] == Rewritten(s.archive, m)
      {
        PutAllOne(s.archive, list, m);
      }
      PutAllAt(s.archive, list, id);
    }
  }

  lemma ErasesExactly(dates: Dates, s: State, e: Event, id: RowId)
    requires e.Removes?
    ensures var t := Apply(dates, s, e);
      && (id in t.archive <==> id in s.archive && !Erases(dates, s, e, id))
      && (id in t.archive ==> t.archive[id] == s.archive[id])
  {
    var list := ListOf(s, e.conv);
    var k := IndexOf(list, e.id);
    forall i: nat | i < |list| ensures FirstAt(list, e.id, i) <==> k == i {
      IndexIsFirst(list, e.id, i);
    }
    if RemovalReachesArchive(dates, s, e.conv, e.id, e.now) {
      assert FirstAt(list, e.id, k);
    }
  }
}
