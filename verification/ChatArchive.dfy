/** What the store keeps over every run: cache and memory agree, every listed message is archived,
    and edits and deletions stop at the authority window. */
module ChatArchive {
  import opened Common
  import opened Paging
  import opened ArchiveRows
  import opened ChatState
  import ChatMerge
  import Reactions

  // ---- cache and memory -------------------------------------------------------------------------

  /** A loaded conversation's cache is the tail of its list, and no cache is longer than the limit. */
  ghost predicate CacheAgrees(s: State) {
    (forall c :: c in s.mem ==> c in s.cache && s.cache[c] == Last(s.mem[c], CACHE_LIMIT)) &&
    (forall c :: c in s.cache ==> |s.cache[c]| <= CACHE_LIMIT)
  }

  /** Whatever list an action shows, and whatever it does to the archive and the cursor. */
  lemma ShowCache(s: State, t: State, c: ConvId, list: seq<ChatMessage>)
    requires CacheAgrees(s) && t.mem == Show(s, c, list).mem && t.cache == Show(s, c, list).cache
    ensures CacheAgrees(t)
  {
  }

  lemma CacheWindows(s: State, c: ConvId, list: seq<ChatMessage>)
    requires CacheAgrees(s)
    ensures CacheAgrees(SetMessages(s, c, list)) && CacheAgrees(MergeMessages(s, c, list))
  {
    ShowCache(s, SetMessages(s, c, list), c, Reverse(list));
    ShowCache(s, MergeMessages(s, c, list), c, Merged(ListOf(s, c), list));
  }

  lemma CacheMessage(dates: Dates, s: State, m: ChatMessage, now: Time)
    requires CacheAgrees(s)
    ensures CacheAgrees(AppendMessage(s, m)) && CacheAgrees(ReplaceMessage(dates, s, m, now))
  {
    var list := ListOf(s, m.core.conv);
    if !HasId(list, m.core.id) {
      ShowCache(s, AppendMessage(s, m), m.core.conv, list + [m]);
    }
    var i := IndexOf(list, m.core.id);
    if i >= 0 && !PastWindow(dates, m.core.createdAt, now) {
      ShowCache(s, ReplaceMessage(dates, s, m, now), m.core.conv, list[i := m]);
    }
  }

  lemma CacheStep(dates: Dates, s: State, e: Event)
    requires CacheAgrees(s)
    ensures CacheAgrees(Apply(dates, s, e))
  {
    match e
    case Sets(c, list) => CacheWindows(s, c, list);
    case Merges(c, list) => CacheWindows(s, c, list);
    case Appends(m) => CacheMessage(dates, s, m, 0);
    case Replaces(m, now) => CacheMessage(dates, s, m, now);
    case Removes(c, id, now) =>
    case Reacts(c, id, reactions) =>
    case Hydrates =>
    case Restarts =>
  }

  lemma {:induction false} CacheAlwaysAgrees(dates: Dates, s: State, run: seq<Event>)
    requires CacheAgrees(s)
    ensures CacheAgrees(After(dates, s, run))
    decreases |run|
  {
    if run != [] {
      CacheStep(dates, s, run[0]);
      CacheAlwaysAgrees(dates, Apply(dates, s, run[0]), run[1..]);
    }
  }

  // ---- every listed message is archived -----------------------------------------------------------

  predicate ArchivedList(archive: map<RowId, Entry>, list: seq<ChatMessage>) {
    forall m :: m in list ==> m.core.id in archive
  }

  ghost predicate Archived(s: State) {
    (forall c :: c in s.mem ==> ArchivedList(s.archive, s.mem[c])) &&
    (forall c :: c in s.cache ==> ArchivedList(s.archive, s.cache[c]))
  }

  /** A message listed under one conversation and also, by its id, under another. */
  ghost predicate Elsewhere(s: State, c: ConvId, id: RowId) {
    (exists d :: d in s.mem && d != c && HasId(s.mem[d], id)) ||
    (exists d :: d in s.cache && d != c && HasId(s.cache[d], id))
  }

  /** A deletion that takes the archive row of a message another conversation still lists. */
  ghost predicate Orphans(dates: Dates, s: State, e: Event) {
    e.Removes? && RemovalReachesArchive(dates, s, e.conv, e.id, e.now) && Elsewhere(s, e.conv, e.id)
  }

  lemma {:induction false} PutAllKeys(archive: map<RowId, Entry>, list: seq<ChatMessage>)
    ensures PutAll(archive, list).Keys == archive.Keys + IdSet(list)
    decreases |list|
  {
    if list != [] {
      PutAllKeys(Put(archive, list[0].core), list[1..]);
      assert IdSet(list) == {list[0].core.id} + IdSet(list[1..]) by {
        assert forall m :: m in list <==> m == list[0] || m in list[1..];
      }
    }
  }

  lemma LastElements(list: seq<ChatMessage>)
    ensures forall m :: m in Last(list, CACHE_LIMIT) ==> m in list
  {
  }

  /** Showing an archived list over a grown archive. */
  lemma ShowArchived(s: State, c: ConvId, list: seq<ChatMessage>, archive: map<RowId, Entry>)
    requires Archived(s) && s.archive.Keys <= archive.Keys && ArchivedList(archive, list)
    ensures Archived(Show(s, c, list).(archive := archive))
  {
    LastElements(list);
  }

  lemma MergeArchived(s: State, c: ConvId, list: seq<ChatMessage>)
    requires Archived(s)
    ensures Archived(MergeMessages(s, c, list))
  {
    var existing := ListOf(s, c);
    var added := Unseen(IdSet(existing), list);
    PutAllKeys(s.archive, added);
    ChatMerge.MergedElements(existing, list);
    ShowArchived(s, c, Merged(existing, list), PutAll(s.archive, added));
  }

  lemma SetArchived(s: State, c: ConvId, list: seq<ChatMessage>)
    requires Archived(s)
    ensures Archived(SetMessages(s, c, list))
  {
    PutAllKeys(s.archive, Reverse(list));
    ShowArchived(s, c, Reverse(list), PutAll(s.archive, Reverse(list)));
  }

  lemma {:induction false} WithoutElements(list: seq<ChatMessage>, id: RowId)
    ensures forall m :: m in Without(list, id) <==> m in list && m.core.id != id
  {
    if list != [] {
      WithoutElements(list[1..], id);
      assert forall m :: m in list <==> m == list[0] || m in list[1..];
    }
  }

  lemma {:induction false} WithoutLength(list: seq<ChatMessage>, id: RowId)
    ensures |Without(list, id)| <= |list|
    ensures HasId(list, id) ==> |Without(list, id)| < |list|
  {
    if list != [] {
      WithoutLength(list[1..], id);
      assert HasId(list, id) ==> list[0].core.id == id || HasId(list[1..], id);
    }
  }

  lemma RemoveLeavesOthers(dates: Dates, s: State, c: ConvId, id: RowId, now: Time, d: ConvId)
    requires d != c
    ensures var t := RemoveMessage(dates, s, c, id, now);
      && (d in t.mem <==> d in s.mem) && (d in s.mem ==> t.mem[d] == s.mem[d])
      && (d in t.cache <==> d in s.cache) && (d in s.cache ==> t.cache[d] == s.cache[d])
  {
  }

  /** The conversation's own list and cache no longer hold what the deletion took. */
  lemma RemoveArchivedHere(dates: Dates, s: State, c: ConvId, id: RowId, now: Time)
    requires Archived(s) && CacheAgrees(s)
    ensures var t := RemoveMessage(dates, s, c, id, now);
      && (c in t.mem ==> ArchivedList(t.archive, t.mem[c]))
      && (c in t.cache ==> ArchivedList(t.archive, t.cache[c]))
  {
    var t := RemoveMessage(dates, s, c, id, now);
    var list := ListOf(s, c);
    WithoutElements(list, id);
    WithoutLength(list, id);
    LastElements(Without(list, id));
    if RemovalReachesArchive(dates, s, c, id, now) {
      assert c in s.mem && HasId(list, id);
      assert t.mem[c] == Without(list, id) && t.cache[c] == Last(Without(list, id), CACHE_LIMIT);
    }
  }

  /** A deletion keeps every listed message archived exactly when it orphans none. */
  lemma RemoveArchivedIff(dates: Dates, s: State, c: ConvId, id: RowId, now: Time)
    requires Archived(s) && CacheAgrees(s)
    ensures Archived(RemoveMessage(dates, s, c, id, now)) <==> !Orphans(dates, s, Removes(c, id, now))
  {
    var t := RemoveMessage(dates, s, c, id, now);
    RemoveArchivedHere(dates, s, c, id, now);
    forall d | d != c
      ensures (d in t.mem <==> d in s.mem) && (d in s.mem ==> t.mem[d] == s.mem[d])
      ensures (d in t.cache <==> d in s.cache) && (d in s.cache ==> t.cache[d] == s.cache[d])
    {
      RemoveLeavesOthers(dates, s, c, id, now, d);
    }
    if Orphans(dates, s, Removes(c, id, now)) {
      OrphanStays(s, t, c, id);
    }
  }

  lemma OrphanStays(s: State, t: State, c: ConvId, id: RowId)
    requires Elsewhere(s, c, id) && id !in t.archive
    requires forall d :: d in s.mem && d != c ==> d in t.mem && t.mem[d] == s.mem[d]
    requires forall d :: d in s.cache && d != c ==> d in t.cache && t.cache[d] == s.cache[d]
    ensures !Archived(t)
  {
    if d :| d in s.mem && d != c && HasId(s.mem[d], id) {
      assert !ArchivedList(t.archive, t.mem[d]);
    } else {
      var d :| d in s.cache && d != c && HasId(s.cache[d], id);
      assert !ArchivedList(t.archive, t.cache[d]);
    }
  }

  lemma ReplaceArchived(dates: Dates, s: State, m: ChatMessage, now: Time)
    requires Archived(s)
    ensures Archived(ReplaceMessage(dates, s, m, now))
  {
    if !PastWindow(dates, m.core.createdAt, now) {
      var i := IndexOf(ListOf(s, m.core.conv), m.core.id);
      if i >= 0 {
        ShowArchived(s, m.core.conv, ListOf(s, m.core.conv)[i := m], Put(s.archive, m.core));
      }
    }
  }

  lemma AppendArchived(s: State, m: ChatMessage)
    requires Archived(s)
    ensures Archived(AppendMessage(s, m))
  {
    ShowArchived(s, m.core.conv, ListOf(s, m.core.conv) + [m], Put(s.archive, m.core));
  }

  lemma ReactArchived(s: State, c: ConvId, id: RowId, reactions: seq<Reactions.ReactionCount>)
    requires Archived(s)
    ensures Archived(ApplyReactionUpdate(s, c, id, reactions))
  {
    var i := IndexOf(ListOf(s, c), id);
    if i >= 0 {
      var list := ListOf(s, c)[i := ListOf(s, c)[i].(reactions := reactions)];
      forall m | m in list ensures m.core.id in s.archive {
        assert ListOf(s, c)[i] in ListOf(s, c);
      }
      ShowArchived(s, c, list, s.archive);
    }
  }

  /** One step keeps every listed message archived exactly when it is not an orphaning deletion. */
  lemma ArchivedStepIff(dates: Dates, s: State, e: Event)
    requires Archived(s) && CacheAgrees(s)
    ensures Archived(Apply(dates, s, e)) <==> !Orphans(dates, s, e)
  {
    match e
    case Sets(c, list) => SetArchived(s, c, list);
    case Merges(c, list) => MergeArchived(s, c, list);
    case Appends(m) => AppendArchived(s, m);
    case Replaces(m, now) => ReplaceArchived(dates, s, m, now);
    case Removes(c, id, now) => RemoveArchivedIff(dates, s, c, id, now);
    case Reacts(c, id, reactions) => ReactArchived(s, c, id, reactions);
    case Hydrates =>
    case Restarts =>
  }

  // ---- runs in which a message's fixed part never changes ---------------------------------------

  type Origin = RowId -> Fixed

  ghost predicate FromOrigin(origin: Origin, list: seq<ChatMessage>) {
    forall m :: m in list ==> FixedOf(m.core) == origin(m.core.id)
  }

  ghost predicate Homed(list: seq<ChatMessage>, c: ConvId) {
    forall m :: m in list ==> m.core.conv == c
  }

  /** What the server promises: an id's conversation, sender, type, seq and date never change, and a
      conversation's window holds that conversation's messages. */
  ghost predicate Agrees(origin: Origin, e: Event) {
    match e
    case Sets(c, list) => FromOrigin(origin, list) && Homed(list, c)
    case Merges(c, list) => FromOrigin(origin, list) && Homed(list, c)
    case Appends(m) => FixedOf(m.core) == origin(m.core.id)
    case Replaces(m, now) => FixedOf(m.core) == origin(m.core.id)
    case Removes(c, id, now) => true
    case Reacts(c, id, reactions) => true
    case Hydrates => true
    case Restarts => true
  }

  ghost predicate Listed(origin: Origin, lists: map<ConvId, seq<ChatMessage>>) {
    forall c :: c in lists ==> FromOrigin(origin, lists[c]) && Homed(lists[c], c)
  }

  ghost predicate Rooted(origin: Origin, archive: map<RowId, Entry>) {
    forall id :: id in archive ==> archive[id].fixed == origin(id)
  }

  ghost predicate Consistent(origin: Origin, s: State) {
    Listed(origin, s.mem) && Listed(origin, s.cache) && Rooted(origin, s.archive)
  }

  lemma {:induction false} PutAllRooted(origin: Origin, archive: map<RowId, Entry>, list: seq<ChatMessage>)
    requires Rooted(origin, archive) && FromOrigin(origin, list)
    ensures Rooted(origin, PutAll(archive, list))
    decreases |list|
  {
    if list != [] {
      assert list[0] in list && forall m :: m in list[1..] ==> m in list;
      PutAllRooted(origin, Put(archive, list[0].core), list[1..]);
    }
  }

  lemma ShowConsistent(origin: Origin, s: State, c: ConvId, list: seq<ChatMessage>)
    requires Listed(origin, s.mem) && Listed(origin, s.cache) && FromOrigin(origin, list) && Homed(list, c)
    ensures Listed(origin, Show(s, c, list).mem) && Listed(origin, Show(s, c, list).cache)
  {
    LastElements(list);
  }

  lemma ListOfHomed(origin: Origin, s: State, c: ConvId)
    requires Listed(origin, s.mem)
    ensures FromOrigin(origin, ListOf(s, c)) && Homed(ListOf(s, c), c)
  {
  }

  lemma WindowConsistent(origin: Origin, s: State, e: Event)
    requires Consistent(origin, s) && Agrees(origin, e) && (e.Sets? || e.Merges?)
    ensures e.Sets? ==> Consistent(origin, SetMessages(s, e.conv, e.list))
    ensures e.Merges? ==> Consistent(origin, MergeMessages(s, e.conv, e.list))
  {
    ListOfHomed(origin, s, e.conv);
    if e.Sets? {
      ReverseElements(e.list);
      PutAllRooted(origin, s.archive, Reverse(e.list));
      ShowConsistent(origin, s, e.conv, Reverse(e.list));
    } else {
      var existing := ListOf(s, e.conv);
      ChatMerge.UnseenElements(IdSet(existing), e.list);
      ChatMerge.MergedElements(existing, e.list);
      PutAllRooted(origin, s.archive, Unseen(IdSet(existing), e.list));
      ShowConsistent(origin, s, e.conv, Merged(existing, e.list));
    }
  }

  lemma AppendConsistent(origin: Origin, s: State, m: ChatMessage)
    requires Consistent(origin, s) && FixedOf(m.core) == origin(m.core.id)
    ensures Consistent(origin, AppendMessage(s, m))
  {
    ListOfHomed(origin, s, m.core.conv);
    ShowConsistent(origin, s, m.core.conv, ListOf(s, m.core.conv) + [m]);
  }

  lemma ReplaceConsistent(origin: Origin, dates: Dates, s: State, m: ChatMessage, now: Time)
    requires Consistent(origin, s) && FixedOf(m.core) == origin(m.core.id)
    ensures Consistent(origin, ReplaceMessage(dates, s, m, now))
  {
    var list := ListOf(s, m.core.conv);
    var i := IndexOf(list, m.core.id);
    ListOfHomed(origin, s, m.core.conv);
    if i >= 0 {
      ShowConsistent(origin, s, m.core.conv, list[i := m]);
    }
  }

  lemma ChangeConsistent(origin: Origin, dates: Dates, s: State, e: Event)
    requires Consistent(origin, s) && (e.Removes? || e.Reacts?)
    ensures Consistent(origin, Apply(dates, s, e))
  {
    var list := ListOf(s, e.conv);
    ListOfHomed(origin, s, e.conv);
    if e.Removes? {
      WithoutElements(list, e.id);
      ShowConsistent(origin, s, e.conv, Without(list, e.id));
    } else {
      var i := IndexOf(list, e.id);
      if i >= 0 {
        assert list[i] in list;
        ShowConsistent(origin, s, e.conv, list[i := list[i].(reactions := e.reactions)]);
      }
    }
  }

  lemma ConsistentStep(origin: Origin, dates: Dates, s: State, e: Event)
    requires Consistent(origin, s) && Agrees(origin, e)
    ensures Consistent(origin, Apply(dates, s, e))
  {
    match e
    case Sets(c, list) => WindowConsistent(origin, s, e);
    case Merges(c, list) => WindowConsistent(origin, s, e);
    case Appends(m) => AppendConsistent(origin, s, m);
    case Replaces(m, now) => ReplaceConsistent(origin, dates, s, m, now);
    case Removes(c, id, now) => ChangeConsistent(origin, dates, s, e);
    case Reacts(c, id, reactions) => ChangeConsistent(origin, dates, s, e);
    case Hydrates =>
    case Restarts =>
  }

  /** With fixed homes a message is listed in one place only. */
  lemma NoOrphans(origin: Origin, dates: Dates, s: State, e: Event)
    requires Consistent(origin, s)
    ensures !Orphans(dates, s, e)
  {
    if e.Removes? && RemovalReachesArchive(dates, s, e.conv, e.id, e.now) {
      var list := ListOf(s, e.conv);
      var i := IndexOf(list, e.id);
      assert list[i] in list && FixedOf(list[i].core) == origin(e.id);
      assert origin(e.id).conv == e.conv;
    }
  }

  ghost predicate Sound(origin: Origin, s: State) {
    CacheAgrees(s) && Archived(s) && Consistent(origin, s)
  }

  /** After any agreeing run from the empty store: caches agree with lists, and every message in
      memory or cache has its archive row. */
  lemma {:induction false} AlwaysSound(origin: Origin, dates: Dates, s: State, run: seq<Event>)
    requires Sound(origin, s) && forall e :: e in run ==> Agrees(origin, e)
    ensures Sound(origin, After(dates, s, run))
    decreases |run|
  {
    if run != [] {
      assert run[0] in run && forall e :: e in run[1..] ==> e in run;
      CacheStep(dates, s, run[0]);
      NoOrphans(origin, dates, s, run[0]);
      ArchivedStepIff(dates, s, run[0]);
      ConsistentStep(origin, dates, s, run[0]);
      AlwaysSound(origin, dates, Apply(dates, s, run[0]), run[1..]);
    }
  }

  lemma ReachableStores(origin: Origin, dates: Dates, run: seq<Event>)
    requires forall e :: e in run ==> Agrees(origin, e)
    ensures Sound(origin, After(dates, Empty, run))
  {
    AlwaysSound(origin, dates, Empty, run);
  }
}
