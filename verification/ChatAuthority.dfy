/** The authority window: what the server may still do to an archived message older than 30 days. */
module ChatAuthority {
  import opened Common
  import opened Paging
  import opened ArchiveRows
  import opened ChatState
  import opened ChatArchive
  import ChatMerge

  ghost predicate Expired(dates: Dates, s: State, id: RowId, now: Time) {
    id in s.archive && PastWindow(dates, s.archive[id].fixed.createdAt, now)
  }

  // ---- copies of one message ------------------------------------------------------------------

  ghost predicate CopiesDated(list: seq<ChatMessage>, id: RowId, date: string) {
    forall m :: m in list && m.core.id == id ==> m.core.createdAt == date
  }

  /** Every copy of the message, listed, cached or archived, carries the same date. */
  ghost predicate Dated(s: State, id: RowId, date: string) {
    (forall c :: c in s.mem ==> CopiesDated(s.mem[c], id, date)) &&
    (forall c :: c in s.cache ==> CopiesDated(s.cache[c], id, date)) &&
    (id in s.archive ==> s.archive[id].fixed.createdAt == date)
  }

  ghost predicate BringsDated(e: Event, id: RowId, date: string) {
    match e
    case Sets(c, list) => CopiesDated(list, id, date)
    case Merges(c, list) => CopiesDated(list, id, date)
    case Appends(m) => CopiesDated([m], id, date)
    case Replaces(m, now) => CopiesDated([m], id, date)
    case _ => true
  }

  // ---- one event ------------------------------------------------------------------------------

  /** Edits, recalls and deletions leave the row of an expired message as it is. */
  lemma HorizonHolds(dates: Dates, s: State, e: Event, id: RowId)
    requires (e.Replaces? || e.Removes?) && Expired(dates, s, id, e.now)
    requires Dated(s, id, s.archive[id].fixed.createdAt) && BringsDated(e, id, s.archive[id].fixed.createdAt)
    ensures id in Apply(dates, s, e).archive && Apply(dates, s, e).archive[id] == s.archive[id]
  {
    if e.Removes? && RemovalReachesArchive(dates, s, e.conv, e.id, e.now) {
      var list := ListOf(s, e.conv);
      assert list[IndexOf(list, e.id)] in list;
    } else if e.Replaces? {
      assert e.message in [e.message];
    }
  }

  /** In any store, a deletion leaves an archived row exactly when the message is not listed there or
      its listed copy's date is past the window; other rows it always leaves. */
  lemma RemovalKeepsRowIff(dates: Dates, s: State, c: ConvId, id: RowId, row: RowId, now: Time)
    requires row in s.archive
    ensures var t := RemoveMessage(dates, s, c, id, now);
      && (row in t.archive ==> t.archive[row] == s.archive[row])
      && (row in t.archive <==>
           row != id || !HasId(ListOf(s, c), id) ||
           PastWindow(dates, ListOf(s, c)[IndexOf(ListOf(s, c), id)].core.createdAt, now))
  {
    var reached := RemovalReachesArchive(dates, s, c, id, now);
    assert RemoveMessage(dates, s, c, id, now).archive == if reached then s.archive - {id} else s.archive;
  }

  /** A replacement that would change an archived body is refused exactly when the date it carries
      is itself past the window; the row's own date is never looked at. */
  lemma ReplacementRefusedIff(dates: Dates, s: State, m: ChatMessage, now: Time)
    requires m.core.id in s.archive && s.archive[m.core.id].body != BodyOf(m.core)
    ensures ReplaceMessage(dates, s, m, now).archive[m.core.id] == s.archive[m.core.id]
      <==> PastWindow(dates, m.core.createdAt, now)
  {
    var t := ReplaceMessage(dates, s, m, now);
    if !PastWindow(dates, m.core.createdAt, now) {
      assert t.archive == Put(s.archive, m.core);
    }
  }

  /** A deletion inside the window is thorough: the message is neither archived nor listed, and a
      restart does not bring it back. */
  lemma DeletionSticks(dates: Dates, s: State, c: ConvId, id: RowId, now: Time)
    requires CacheAgrees(s) && RemovalReachesArchive(dates, s, c, id, now)
    ensures var t := RemoveMessage(dates, s, c, id, now);
      && id !in t.archive
      && !HasId(ListOf(t, c), id)
      && !HasId(ListOf(HydrateFromCache(Restart(t)), c), id)
  {
    var list := ListOf(s, c);
    WithoutElements(list, id);
    WithoutLength(list, id);
    assert HasId(list, id);
  }

  // ---- over runs ----------------------------------------------------------------------------------

  /** The event brings a copy of the message from the server as part of its history. */
  ghost predicate Fetches(e: Event, id: RowId) {
    match e
    case Sets(c, list) => HasId(list, id)
    case Merges(c, list) => HasId(list, id)
    case Appends(m) => m.core.id == id
    case _ => false
  }

  ghost predicate NotBefore(e: Event, now: Time) {
    (e.Replaces? || e.Removes?) ==> e.now >= now
  }

  lemma {:induction false} PutAllOther(archive: map<RowId, Entry>, list: seq<ChatMessage>, id: RowId)
    requires id in archive
    ensures id in PutAll(archive, list) && PutAll(archive, list)[id].fixed == archive[id].fixed
    ensures !HasId(list, id) ==> PutAll(archive, list)[id] == archive[id]
    decreases |list|
  {
    if list != [] {
      assert forall m :: m in list <==> m == list[0] || m in list[1..];
      PutAllOther(Put(archive, list[0].core), list[1..], id);
    }
  }

  lemma ShowDated(s: State, c: ConvId, list: seq<ChatMessage>, id: RowId, date: string)
    requires Dated(s, id, date) && CopiesDated(list, id, date)
    ensures Dated(Show(s, c, list), id, date)
  {
  }

  lemma {:induction false} PutAllDated(archive: map<RowId, Entry>, list: seq<ChatMessage>, id: RowId, date: string)
    requires CopiesDated(list, id, date) && (id in archive ==> archive[id].fixed.createdAt == date)
    ensures id in PutAll(archive, list) ==> PutAll(archive, list)[id].fixed.createdAt == date
    decreases |list|
  {
    if list != [] {
      assert list[0] in list && forall m :: m in list[1..] ==> m in list;
      PutAllDated(Put(archive, list[0].core), list[1..], id, date);
    }
  }

  lemma SetDated(s: State, c: ConvId, list: seq<ChatMessage>, id: RowId, date: string)
    requires Dated(s, id, date) && CopiesDated(list, id, date)
    ensures Dated(SetMessages(s, c, list), id, date)
  {
    ReverseElements(list);
    PutAllDated(s.archive, Reverse(list), id, date);
    ShowDated(s, c, Reverse(list), id, date);
  }

  lemma MergeDated(s: State, c: ConvId, list: seq<ChatMessage>, id: RowId, date: string)
    requires Dated(s, id, date) && CopiesDated(list, id, date)
    ensures Dated(MergeMessages(s, c, list), id, date)
  {
    var existing := ListOf(s, c);
    var added := Unseen(IdSet(existing), list);
    ChatMerge.UnseenElements(IdSet(existing), list);
    ChatMerge.MergedElements(existing, list);
    PutAllDated(s.archive, added, id, date);
    ShowDated(s, c, Merged(existing, list), id, date);
  }

  lemma AppendDated(s: State, m: ChatMessage, id: RowId, date: string)
    requires Dated(s, id, date) && CopiesDated([m], id, date)
    ensures Dated(AppendMessage(s, m), id, date)
  {
    assert m in [m];
    ShowDated(s, m.core.conv, ListOf(s, m.core.conv) + [m], id, date);
  }

  lemma ReplaceDated(dates: Dates, s: State, m: ChatMessage, now: Time, id: RowId, date: string)
    requires Dated(s, id, date) && CopiesDated([m], id, date)
    ensures Dated(ReplaceMessage(dates, s, m, now), id, date)
  {
    var list := ListOf(s, m.core.conv);
    var i := IndexOf(list, m.core.id);
    assert m in [m];
    if i >= 0 {
      ShowDated(s, m.core.conv, list[i := m], id, date);
    }
  }

  lemma ChangeDated(dates: Dates, s: State, e: Event, id: RowId, date: string)
    requires Dated(s, id, date) && (e.Removes? || e.Reacts?)
    ensures Dated(Apply(dates, s, e), id, date)
  {
    var list := ListOf(s, e.conv);
    if e.Removes? {
      WithoutElements(list, e.id);
      ShowDated(s, e.conv, Without(list, e.id), id, date);
    } else {
      var i := IndexOf(list, e.id);
      if i >= 0 {
        assert list[i] in list;
        ShowDated(s, e.conv, list[i := list[i].(reactions := e.reactions)], id, date);
      }
    }
  }

  lemma DatedStep(dates: Dates, s: State, e: Event, id: RowId, date: string)
    requires Dated(s, id, date) && BringsDated(e, id, date)
    ensures Dated(Apply(dates, s, e), id, date)
  {
    match e
    case Sets(c, list) => SetDated(s, c, list, id, date);
    case Merges(c, list) => MergeDated(s, c, list, id, date);
    case Appends(m) => AppendDated(s, m, id, date);
    case Replaces(m, now) => ReplaceDated(dates, s, m, now, id, date);
    case Removes(c, gone, now) => ChangeDated(dates, s, e, id, date);
    case Reacts(c, gone, reactions) => ChangeDated(dates, s, e, id, date);
    case Hydrates =>
    case Restarts =>
  }

  lemma ExpiredStep(dates: Dates, s: State, e: Event, id: RowId, now: Time)
    requires Expired(dates, s, id, now) && NotBefore(e, now)
    requires Dated(s, id, s.archive[id].fixed.createdAt) && BringsDated(e, id, s.archive[id].fixed.createdAt)
    ensures Expired(dates, Apply(dates, s, e), id, now)
    ensures Apply(dates, s, e).archive[id].fixed == s.archive[id].fixed
    ensures !Fetches(e, id) ==> Apply(dates, s, e).archive[id] == s.archive[id]
  {
    match e
    case Sets(c, list) =>
      ReverseElements(list);
      PutAllOther(s.archive, Reverse(list), id);
    case Merges(c, list) =>
      var added := Unseen(IdSet(ListOf(s, c)), list);
      ChatMerge.UnseenElements(IdSet(ListOf(s, c)), list);
      PutAllOther(s.archive, added, id);
    case Appends(m) =>
    case Replaces(m, later) => HorizonHolds(dates, s, e, id);
    case Removes(c, gone, later) => HorizonHolds(dates, s, e, id);
    case Reacts(c, gone, reactions) =>
    case Hydrates =>
    case Restarts =>
  }

  /** Once expired, a row is never deleted and its fixed part never changes, in any later run whose
      copies of that message carry its date; its body changes only if the run fetches the message
      again from the server's history. */
  lemma {:induction false} HorizonForever(dates: Dates, s: State, run: seq<Event>, id: RowId, now: Time)
    requires Expired(dates, s, id, now) && Dated(s, id, s.archive[id].fixed.createdAt)
    requires forall e :: e in run ==> BringsDated(e, id, s.archive[id].fixed.createdAt) && NotBefore(e, now)
    ensures var t := After(dates, s, run);
      && id in t.archive && t.archive[id].fixed == s.archive[id].fixed
      && ((forall e :: e in run ==> !Fetches(e, id)) ==> t.archive[id] == s.archive[id])
    decreases |run|
  {
    if run != [] {
      assert run[0] in run && forall e :: e in run[1..] ==> e in run;
      ExpiredStep(dates, s, run[0], id, now);
      DatedStep(dates, s, run[0], id, s.archive[id].fixed.createdAt);
      HorizonForever(dates, Apply(dates, s, run[0]), run[1..], id, now);
    }
  }

  /** Every store reached with one date for the message has that date in all its copies. */
  lemma {:induction false} AlwaysDated(dates: Dates, s: State, run: seq<Event>, id: RowId, date: string)
    requires Dated(s, id, date) && forall e :: e in run ==> BringsDated(e, id, date)
    ensures Dated(After(dates, s, run), id, date)
    decreases |run|
  {
    if run != [] {
      assert run[0] in run && forall e :: e in run[1..] ==> e in run;
      DatedStep(dates, s, run[0], id, date);
      AlwaysDated(dates, Apply(dates, s, run[0]), run[1..], id, date);
    }
  }
}
