/** The client's message store (store/chatStore.ts): the lists in memory, the 50-message cache in
    local storage, the archive's entries, and the highest seq received. */
module ChatState {
  import opened Common
  import opened Paging
  import opened ArchiveRows
  import Reactions

  type ConvId = string

  const CACHE_LIMIT := 50

  /** Thirty days in milliseconds, the server's retention window. */
  const AUTHORITY_WINDOW := 30 * 24 * 60 * 60 * 1000

  /** A message with its reactions; only the message is archived. */
  datatype ChatMessage = ChatMessage(core: Message, reactions: seq<Reactions.ReactionCount>)

  datatype State = State(
    mem: map<ConvId, seq<ChatMessage>>,
    cache: map<ConvId, seq<ChatMessage>>,
    archive: map<RowId, Entry>,
    last: map<ConvId, int>)

  const Empty := State(map[], map[], map[], map[])

  /** How a creation date reads as a time; None is a date that does not parse. */
  type Dates = string -> Option<Time>

  predicate PastWindow(dates: Dates, createdAt: string, now: Time) {
    dates(createdAt).Some? && now - dates(createdAt).value > AUTHORITY_WINDOW
  }

  function SeqOf(m: ChatMessage): int {
    m.core.seqNo
  }

  function ListOf(s: State, c: ConvId): seq<ChatMessage> {
    if c in s.mem then s.mem[c] else []
  }

  function LastSeq(s: State, c: ConvId): int {
    if c in s.last then s.last[c] else 0
  }

  predicate HasId(list: seq<ChatMessage>, id: RowId) {
    exists m :: m in list && m.core.id == id
  }

  /** The position of the first message with an id, or -1. */
  function IndexOf(list: seq<ChatMessage>, id: RowId): (i: int)
    ensures -1 <= i < |list|
    ensures i >= 0 ==> list[i].core.id == id
    ensures i < 0 <==> !HasId(list, id)
  {
    if list == [] then -1
    else if list[0].core.id == id then
      assert list[0] in list;
      0
    else
      var i := IndexOf(list[1..], id);
      assert forall m :: m in list <==> m == list[0] || m in list[1..];
      if i < 0 then -1 else i + 1
  }

  function Without(list: seq<ChatMessage>, id: RowId): seq<ChatMessage> {
    if list == [] then [] else (if list[0].core.id == id then [] else [list[0]]) + Without(list[1..], id)
  }

  function PutAll(archive: map<RowId, Entry>, list: seq<ChatMessage>): map<RowId, Entry>
    decreases |list|
  {
    if list == [] then archive else PutAll(Put(archive, list[0].core), list[1..])
  }

  /** A conversation's list in memory and its tail in the cache. */
  function Show(s: State, c: ConvId, list: seq<ChatMessage>): State {
    s.(mem := s.mem[c := list], cache := s.cache[c := Last(list, CACHE_LIMIT)])
  }

  // ---- merging --------------------------------------------------------------------------------

  /** The messages not seen yet, each id once, in order. */
  function Unseen(seen: set<RowId>, list: seq<ChatMessage>): seq<ChatMessage>
    decreases |list|
  {
    if list == [] then []
    else if list[0].core.id in seen then Unseen(seen, list[1..])
    else [list[0]] + Unseen(seen + {list[0].core.id}, list[1..])
  }

  function IdSet(list: seq<ChatMessage>): set<RowId> {
    set m | m in list :: m.core.id
  }

  /** Behind every message with the same or a smaller seq. */
  function Insert(list: seq<ChatMessage>, m: ChatMessage): seq<ChatMessage> {
    if list == [] || SeqOf(list[|list| - 1]) <= SeqOf(m) then list + [m]
    else Insert(list[..|list| - 1], m) + [list[|list| - 1]]
  }

  /** The stable sort by seq. */
  function Sort(list: seq<ChatMessage>): seq<ChatMessage> {
    if list == [] then [] else Insert(Sort(list[..|list| - 1]), list[|list| - 1])
  }

  function Merged(existing: seq<ChatMessage>, list: seq<ChatMessage>): seq<ChatMessage> {
    Sort(existing + Unseen(IdSet(existing), list))
  }

  // ---- the store's actions ----------------------------------------------------------------------

  /** A fetched window, newest first, replaces the list. */
  function SetMessages(s: State, c: ConvId, list: seq<ChatMessage>): State {
    Show(s, c, Reverse(list)).(archive := PutAll(s.archive, Reverse(list)))
  }

  function MergeMessages(s: State, c: ConvId, list: seq<ChatMessage>): State {
    Show(s, c, Merged(ListOf(s, c), list)).(archive := PutAll(s.archive, Unseen(IdSet(ListOf(s, c)), list)))
  }

  function BumpLast(last: map<ConvId, int>, c: ConvId, seqNo: int): map<ConvId, int> {
    if seqNo > (if c in last then last[c] else 0) then last[c := seqNo] else last
  }

  function AppendMessage(s: State, m: ChatMessage): State {
    var c := m.core.conv;
    var t := s.(last := BumpLast(s.last, c, m.core.seqNo), archive := Put(s.archive, m.core));
    if HasId(ListOf(s, c), m.core.id) then t else Show(t, c, ListOf(s, c) + [m])
  }

  /** An edit or recall; refused when its date is past the window. */
  function ReplaceMessage(dates: Dates, s: State, m: ChatMessage, now: Time): State {
    if PastWindow(dates, m.core.createdAt, now) then s
    else
      var c, i := m.core.conv, IndexOf(ListOf(s, m.core.conv), m.core.id);
      var t := s.(archive := Put(s.archive, m.core));
      if i < 0 then t else Show(t, c, ListOf(s, c)[i := m])
  }

  /** A deletion; the archive follows only if the message is listed and not past the window. */
  predicate RemovalReachesArchive(dates: Dates, s: State, c: ConvId, id: RowId, now: Time) {
    var i := IndexOf(ListOf(s, c), id);
    i >= 0 && !PastWindow(dates, ListOf(s, c)[i].core.createdAt, now)
  }

  function RemoveMessage(dates: Dates, s: State, c: ConvId, id: RowId, now: Time): State {
    var t := if RemovalReachesArchive(dates, s, c, id, now) then s.(archive := s.archive - {id}) else s;
    if c in s.mem && |Without(s.mem[c], id)| != |s.mem[c]| then Show(t, c, Without(s.mem[c], id)) else t
  }

  function ApplyReactionUpdate(s: State, c: ConvId, id: RowId, reactions: seq<Reactions.ReactionCount>): State {
    var i := IndexOf(ListOf(s, c), id);
    if i < 0 then s else Show(s, c, ListOf(s, c)[i := ListOf(s, c)[i].(reactions := reactions)])
  }

  /** Cached lists come back for the conversations not in memory. */
  function HydrateFromCache(s: State): State {
    s.(mem := s.cache + s.mem)
  }

  /** Closing the program loses memory only. */
  function Restart(s: State): State {
    s.(mem := map[])
  }

  datatype Event =
    | Sets(conv: ConvId, list: seq<ChatMessage>)
    | Merges(conv: ConvId, list: seq<ChatMessage>)
    | Appends(message: ChatMessage)
    | Replaces(message: ChatMessage, now: Time)
    | Removes(conv: ConvId, id: RowId, now: Time)
    | Reacts(conv: ConvId, id: RowId, reactions: seq<Reactions.ReactionCount>)
    | Hydrates
    | Restarts

  function Apply(dates: Dates, s: State, e: Event): State {
    match e
    case Sets(c, list) => SetMessages(s, c, list)
    case Merges(c, list) => MergeMessages(s, c, list)
    case Appends(m) => AppendMessage(s, m)
    case Replaces(m, now) => ReplaceMessage(dates, s, m, now)
    case Removes(c, id, now) => RemoveMessage(dates, s, c, id, now)
    case Reacts(c, id, reactions) => ApplyReactionUpdate(s, c, id, reactions)
    case Hydrates => HydrateFromCache(s)
    case Restarts => Restart(s)
  }

  function After(dates: Dates, s: State, run: seq<Event>): State
    decreases |run|
  {
    if run == [] then s else After(dates, Apply(dates, s, run[0]), run[1..])
  }
}
