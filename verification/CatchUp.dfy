/** Catching up after a reconnect (sync/engine.ts): pages of the server's log after the client's
    highest seq, appended to the store one by one. */
module CatchUp {
  import opened Paging
  import opened MessageLog
  import opened MessageQueries
  import Chat = ChatState
  import ChatMerge

  /** A row as the client receives it. */
  type Wire = Message -> Chat.ChatMessage

  ghost predicate Faithful(wire: Wire) {
    (forall m :: wire(m).core.conv == m.conv && wire(m).core.seqNo == m.seqNo) &&
    forall m, n :: wire(m).core.id == wire(n).core.id ==> m.id == n.id
  }

  const BATCH := 200

  function Head(t: Tables, c: ConvId): int {
    if c in t.lastSeq then t.lastSeq[c] else 0
  }

  /** The cursor of a pull: a new conversation starts 200 seqs below the head. */
  function Since(last: int, head: int): int {
    if last > 0 then last else if head > BATCH then head - BATCH else 0
  }

  function Pulled(t: Tables, s: Chat.State, c: ConvId): seq<Message> {
    if Head(t, c) <= Chat.LastSeq(s, c) then []
    else Listing(t, c, BATCH, 0, Since(Chat.LastSeq(s, c), Head(t, c)), 0)
  }

  function AppendAll(wire: Wire, s: Chat.State, rows: seq<Message>): Chat.State
    decreases |rows|
  {
    if rows == [] then s else AppendAll(wire, Chat.AppendMessage(s, wire(rows[0])), rows[1..])
  }

  function Round(wire: Wire, t: Tables, s: Chat.State, c: ConvId): Chat.State {
    AppendAll(wire, s, Pulled(t, s, c))
  }

  function Rounds(wire: Wire, t: Tables, s: Chat.State, c: ConvId, n: nat): Chat.State {
    if n == 0 then s else Round(wire, t, Rounds(wire, t, s, c, n - 1), c)
  }

  predicate Holds(wire: Wire, s: Chat.State, m: Message) {
    Chat.HasId(Chat.ListOf(s, m.conv), wire(m).core.id)
  }

  // ---- appending a page -----------------------------------------------------------------------

  /** The highest of a cursor and a page's seqs. */
  function Top(rows: seq<Message>, last: int): int
    decreases |rows|
  {
    if rows == [] then last else Top(rows[1..], if rows[0].seqNo > last then rows[0].seqNo else last)
  }

  lemma {:induction false} TopIsHighest(rows: seq<Message>, last: int)
    ensures Top(rows, last) >= last && forall m :: m in rows ==> m.seqNo <= Top(rows, last)
    ensures Top(rows, last) == last || exists m :: m in rows && m.seqNo == Top(rows, last)
    decreases |rows|
  {
    if rows != [] {
      TopIsHighest(rows[1..], if rows[0].seqNo > last then rows[0].seqNo else last);
      assert forall m :: m in rows <==> m == rows[0] || m in rows[1..];
    }
  }

  lemma Appended(list: seq<Chat.ChatMessage>, m: Chat.ChatMessage)
    ensures forall id :: Chat.HasId(list + [m], id) <==> Chat.HasId(list, id) || id == m.core.id
    ensures ChatMerge.DistinctIds(list) && !Chat.HasId(list, m.core.id) ==> ChatMerge.DistinctIds(list + [m])
  {
    var next := list + [m];
    assert forall k :: k in next <==> k in list || k == m;
    assert forall i :: 0 <= i < |list| ==> list[i] in list;
  }

  /** What an append does to its own conversation's list and cursor. */
  lemma AppendedHere(s: Chat.State, m: Chat.ChatMessage)
    ensures var list := Chat.ListOf(s, m.core.conv);
      Chat.ListOf(Chat.AppendMessage(s, m), m.core.conv) == if Chat.HasId(list, m.core.id) then list else list + [m]
    ensures var last := Chat.LastSeq(s, m.core.conv);
      Chat.LastSeq(Chat.AppendMessage(s, m), m.core.conv) == if m.core.seqNo > last then m.core.seqNo else last
  {
  }

  lemma AppendOne(wire: Wire, s: Chat.State, m: Message)
    requires Faithful(wire)
    ensures var t := Chat.AppendMessage(s, wire(m));
      && (ChatMerge.DistinctIds(Chat.ListOf(s, m.conv)) ==> ChatMerge.DistinctIds(Chat.ListOf(t, m.conv)))
      && (forall id :: Chat.HasId(Chat.ListOf(t, m.conv), id) <==>
           Chat.HasId(Chat.ListOf(s, m.conv), id) || id == wire(m).core.id)
      && Chat.LastSeq(t, m.conv) == Top([m], Chat.LastSeq(s, m.conv))
      && forall d :: d != m.conv ==> Chat.ListOf(t, d) == Chat.ListOf(s, d) && Chat.LastSeq(t, d) == Chat.LastSeq(s, d)
  {
    var list := Chat.ListOf(s, m.conv);
    var t := Chat.AppendMessage(s, wire(m));
    Appended(list, wire(m));
    AppendedHere(s, wire(m));
  }

  predicate AnyId(wire: Wire, rows: seq<Message>, id: string) {
    exists m :: m in rows && wire(m).core.id == id
  }

  lemma AnyIdHead(wire: Wire, rows: seq<Message>)
    requires rows != []
    ensures forall id :: AnyId(wire, rows, id) <==> wire(rows[0]).core.id == id || AnyId(wire, rows[1..], id)
  {
    assert forall m :: m in rows <==> m == rows[0] || m in rows[1..];
  }

  /** Appending rows of one conversation adds just their ids, each once, and raises the cursor to
      the highest seq. */
  lemma {:induction false} AppendAllEffect(wire: Wire, s: Chat.State, rows: seq<Message>, c: ConvId)
    requires Faithful(wire)
    requires forall m :: m in rows ==> m.conv == c
    ensures var t := AppendAll(wire, s, rows);
      && (ChatMerge.DistinctIds(Chat.ListOf(s, c)) ==> ChatMerge.DistinctIds(Chat.ListOf(t, c)))
      && (forall id :: Chat.HasId(Chat.ListOf(t, c), id) <==>
           Chat.HasId(Chat.ListOf(s, c), id) || AnyId(wire, rows, id))
      && Chat.LastSeq(t, c) == Top(rows, Chat.LastSeq(s, c))
      && forall d :: d != c ==> Chat.ListOf(t, d) == Chat.ListOf(s, d) && Chat.LastSeq(t, d) == Chat.LastSeq(s, d)
    decreases |rows|
  {
    if rows != [] {
      var s1 := Chat.AppendMessage(s, wire(rows[0]));
      assert forall m :: m in rows <==> m == rows[0] || m in rows[1..];
      AppendOne(wire, s, rows[0]);
      AppendAllEffect(wire, s1, rows[1..], c);
      AnyIdHead(wire, rows);
    }
  }

  // ---- one page -------------------------------------------------------------------------------

  lemma PulledRows(t: Tables, s: Chat.State, c: ConvId)
    requires LogOk(t)
    ensures forall m :: m in Pulled(t, s, c) ==> m in t.messages && m.conv == c && m.seqNo > Chat.LastSeq(s, c)
  {
    var conv := InConv(t.messages, c);
    var rows := Pulled(t, s, c);
    var last := Chat.LastSeq(s, c);
    InConvElements(t.messages, c);
    if Head(t, c) > last {
      var since := Since(last, Head(t, c));
      if since > 0 {
        AboveElements(conv, SeqOf, since);
        assert forall m :: m in rows ==> m in Above(conv, SeqOf, since);
      } else {
        ReverseElements(Last(conv, BATCH));
        assert forall m :: m in rows ==> m in conv;
      }
    }
  }

  /** A pull only ever adds messages above the cursor, and the cursor never falls. */
  lemma RoundEffect(wire: Wire, t: Tables, s: Chat.State, c: ConvId)
    requires LogOk(t) && Faithful(wire)
    ensures var r := Round(wire, t, s, c);
      && (ChatMerge.DistinctIds(Chat.ListOf(s, c)) ==> ChatMerge.DistinctIds(Chat.ListOf(r, c)))
      && (forall id :: Chat.HasId(Chat.ListOf(r, c), id) <==>
           Chat.HasId(Chat.ListOf(s, c), id) || AnyId(wire, Pulled(t, s, c), id))
      && Chat.LastSeq(r, c) == Top(Pulled(t, s, c), Chat.LastSeq(s, c)) >= Chat.LastSeq(s, c)
      && forall d :: d != c ==> Chat.ListOf(r, d) == Chat.ListOf(s, d) && Chat.LastSeq(r, d) == Chat.LastSeq(s, d)
  {
    PulledRows(t, s, c);
    AppendAllEffect(wire, s, Pulled(t, s, c), c);
    TopIsHighest(Pulled(t, s, c), Chat.LastSeq(s, c));
  }

  // ---- catching up from a known cursor ----------------------------------------------------------

  /** What the client is missing: the surviving messages above its cursor, oldest first. */
  function Missing(t: Tables, s: Chat.State, c: ConvId): seq<Message> {
    Above(InConv(t.messages, c), SeqOf, Chat.LastSeq(s, c))
  }

  /** How many of k missing messages n rounds fetch. */
  function Fetched(n: nat, k: nat): nat {
    if BATCH * n < k then BATCH * n else k
  }

  function Mark(last: int, missing: seq<Message>, j: nat): int
    requires j <= |missing|
  {
    if j == 0 then last else missing[j - 1].seqNo
  }

  /** Above the mark lies the rest. */
  lemma AboveMark(t: Tables, s: Chat.State, c: ConvId, j: nat)
    requires LogOk(t) && j <= |Missing(t, s, c)|
    ensures var missing := Missing(t, s, c);
      Above(InConv(t.messages, c), SeqOf, Mark(Chat.LastSeq(s, c), missing, j)) == missing[j..]
  {
    InConvAscending(t.messages, c);
    if j > 0 {
      AbovePast(InConv(t.messages, c), SeqOf, Chat.LastSeq(s, c), j);
    }
  }

  lemma MissingRows(t: Tables, s: Chat.State, c: ConvId)
    requires LogOk(t)
    ensures var missing := Missing(t, s, c);
      && Ascending(missing, SeqOf)
      && forall m :: m in missing <==> m in t.messages && m.conv == c && m.seqNo > Chat.LastSeq(s, c)
  {
    var conv := InConv(t.messages, c);
    InConvElements(t.messages, c);
    InConvAscending(t.messages, c);
    AboveAscends(conv, SeqOf, Chat.LastSeq(s, c));
  }

  lemma NextIsAboveMark(t: Tables, s: Chat.State, c: ConvId, j: nat)
    requires LogOk(t) && j < |Missing(t, s, c)|
    ensures Mark(Chat.LastSeq(s, c), Missing(t, s, c), j) < Missing(t, s, c)[j].seqNo <= Head(t, c)
  {
    var missing := Missing(t, s, c);
    MissingRows(t, s, c);
    assert missing[j] in missing;
    assert j > 0 ==> SeqOf(missing[j - 1]) < SeqOf(missing[j]);
  }

  lemma HeadReached(t: Tables, s: Chat.State, c: ConvId, j: nat)
    requires LogOk(t) && j <= |Missing(t, s, c)|
    requires Head(t, c) <= Mark(Chat.LastSeq(s, c), Missing(t, s, c), j)
    ensures j == |Missing(t, s, c)|
  {
    if j < |Missing(t, s, c)| {
      NextIsAboveMark(t, s, c, j);
    }
  }

  lemma TakeBatch(rows: seq<Message>, n: nat)
    ensures Take(rows[Fetched(n, |rows|)..], BATCH) == rows[Fetched(n, |rows|)..Fetched(n + 1, |rows|)]
  {
  }

  /** From a non-zero cursor a pull fetches the next 200 missing messages. */
  lemma PullIsNextBatch(t: Tables, s: Chat.State, now: Chat.State, c: ConvId, n: nat)
    requires LogOk(t) && Chat.LastSeq(s, c) > 0
    requires Chat.LastSeq(now, c) ==
      Mark(Chat.LastSeq(s, c), Missing(t, s, c), Fetched(n, |Missing(t, s, c)|))
    ensures var missing := Missing(t, s, c);
      Pulled(t, now, c) == missing[Fetched(n, |missing|)..Fetched(n + 1, |missing|)]
  {
    var missing := Missing(t, s, c);
    var j := Fetched(n, |missing|);
    MarkIsPositive(t, s, c, j);
    if Head(t, c) <= Chat.LastSeq(now, c) {
      HeadReached(t, s, c, j);
    } else {
      AboveMark(t, s, c, j);
      assert Pulled(t, now, c) == Take(missing[j..], BATCH);
      TakeBatch(missing, n);
    }
  }

  lemma MarkIsPositive(t: Tables, s: Chat.State, c: ConvId, j: nat)
    requires LogOk(t) && Chat.LastSeq(s, c) > 0 && j <= |Missing(t, s, c)|
    ensures Mark(Chat.LastSeq(s, c), Missing(t, s, c), j) > 0
  {
    MissingRows(t, s, c);
    assert j > 0 ==> Missing(t, s, c)[j - 1] in Missing(t, s, c);
  }

  /** The client holds what it held and the first j missing messages, and its cursor is the last of them. */
  ghost predicate HasFirst(wire: Wire, t: Tables, s: Chat.State, now: Chat.State, c: ConvId, j: nat) {
    var missing := Missing(t, s, c);
    && j <= |missing|
    && ChatMerge.DistinctIds(Chat.ListOf(now, c))
    && Chat.LastSeq(now, c) == Mark(Chat.LastSeq(s, c), missing, j)
    && forall id :: Chat.HasId(Chat.ListOf(now, c), id) <==>
         Chat.HasId(Chat.ListOf(s, c), id) || AnyId(wire, missing[..j], id)
  }

  lemma NextMark(wire: Wire, t: Tables, s: Chat.State, now: Chat.State, c: ConvId, n: nat)
    requires LogOk(t) && Faithful(wire) && Chat.LastSeq(s, c) > 0
    requires Chat.LastSeq(now, c) ==
      Mark(Chat.LastSeq(s, c), Missing(t, s, c), Fetched(n, |Missing(t, s, c)|))
    ensures Chat.LastSeq(Round(wire, t, now, c), c) ==
      Mark(Chat.LastSeq(s, c), Missing(t, s, c), Fetched(n + 1, |Missing(t, s, c)|))
  {
    var missing := Missing(t, s, c);
    PullIsNextBatch(t, s, now, c, n);
    RoundEffect(wire, t, now, c);
    TopOfBatch(t, s, c, Fetched(n, |missing|), Fetched(n + 1, |missing|));
  }

  lemma NextHeld(wire: Wire, t: Tables, s: Chat.State, now: Chat.State, c: ConvId, i: nat, j: nat)
    requires LogOk(t) && Faithful(wire) && HasFirst(wire, t, s, now, c, i) && i <= j <= |Missing(t, s, c)|
    requires Pulled(t, now, c) == Missing(t, s, c)[i..j]
    ensures ChatMerge.DistinctIds(Chat.ListOf(Round(wire, t, now, c), c))
    ensures forall id :: Chat.HasId(Chat.ListOf(Round(wire, t, now, c), c), id) <==>
      Chat.HasId(Chat.ListOf(s, c), id) || AnyId(wire, Missing(t, s, c)[..j], id)
  {
    var missing := Missing(t, s, c);
    RoundEffect(wire, t, now, c);
    assert missing[..j] == missing[..i] + missing[i..j];
    AnyIdConcat(wire, missing[..i], missing[i..j]);
  }

  lemma ProgressStep(wire: Wire, t: Tables, s: Chat.State, now: Chat.State, next: Chat.State, c: ConvId, n: nat)
    requires LogOk(t) && Faithful(wire) && Chat.LastSeq(s, c) > 0 && n > 0 && next == Round(wire, t, now, c)
    requires HasFirst(wire, t, s, now, c, Fetched(n - 1, |Missing(t, s, c)|))
    ensures HasFirst(wire, t, s, next, c, Fetched(n, |Missing(t, s, c)|))
  {
    PullIsNextBatch(t, s, now, c, n - 1);
    NextHeld(wire, t, s, now, c, Fetched(n - 1, |Missing(t, s, c)|), Fetched(n, |Missing(t, s, c)|));
    NextMark(wire, t, s, now, c, n - 1);
  }

  /** After n rounds the client holds the first 200n missing messages and its cursor is the last of them. */
  lemma {:induction false} CatchUpProgress(wire: Wire, t: Tables, s: Chat.State, c: ConvId, n: nat)
    requires LogOk(t) && Faithful(wire) && Chat.LastSeq(s, c) > 0
    requires ChatMerge.DistinctIds(Chat.ListOf(s, c))
    ensures HasFirst(wire, t, s, Rounds(wire, t, s, c, n), c, Fetched(n, |Missing(t, s, c)|))
  {
    if n == 0 {
      HasNone(wire, t, s, c);
    } else {
      CatchUpProgress(wire, t, s, c, n - 1);
      ProgressStep(wire, t, s, Rounds(wire, t, s, c, n - 1), Rounds(wire, t, s, c, n), c, n);
    }
  }

  lemma HasNone(wire: Wire, t: Tables, s: Chat.State, c: ConvId)
    requires LogOk(t) && ChatMerge.DistinctIds(Chat.ListOf(s, c))
    ensures HasFirst(wire, t, s, s, c, 0)
  {
    assert Missing(t, s, c)[..0] == [];
  }

  lemma AnyIdConcat(wire: Wire, a: seq<Message>, b: seq<Message>)
    ensures forall id :: AnyId(wire, a + b, id) <==> AnyId(wire, a, id) || AnyId(wire, b, id)
  {
    assert forall m :: m in a + b <==> m in a || m in b;
  }

  lemma BatchTop(t: Tables, s: Chat.State, c: ConvId, i: nat, j: nat)
    requires LogOk(t) && i < j <= |Missing(t, s, c)|
    ensures var missing := Missing(t, s, c);
      && missing[j - 1] in missing[i..j] && missing[j - 1].seqNo > Mark(Chat.LastSeq(s, c), missing, i)
      && forall m :: m in missing[i..j] ==> m.seqNo <= missing[j - 1].seqNo
  {
    var missing := Missing(t, s, c);
    MissingRows(t, s, c);
    NextIsAboveMark(t, s, c, i);
    SliceTop(missing, SeqOf, i, j);
  }

  lemma TopOfBatch(t: Tables, s: Chat.State, c: ConvId, i: nat, j: nat)
    requires LogOk(t) && i <= j <= |Missing(t, s, c)|
    ensures var missing := Missing(t, s, c);
      Top(missing[i..j], Mark(Chat.LastSeq(s, c), missing, i)) == Mark(Chat.LastSeq(s, c), missing, j)
  {
    var missing := Missing(t, s, c);
    TopIsHighest(missing[i..j], Mark(Chat.LastSeq(s, c), missing, i));
    if i < j {
      BatchTop(t, s, c, i, j);
    }
  }

  /** With k messages missing, exactly the first ceil(k / 200) rounds are productive; after them the
      client holds every one, each id once, and further rounds change nothing. */
  lemma CatchUpTerminates(wire: Wire, t: Tables, s: Chat.State, c: ConvId, n: nat)
    requires LogOk(t) && Faithful(wire) && Chat.LastSeq(s, c) > 0
    requires ChatMerge.DistinctIds(Chat.ListOf(s, c))
    ensures var k := |Missing(t, s, c)|;
      var now := Rounds(wire, t, s, c, n);
      && (Pulled(t, now, c) != [] <==> BATCH * n < k)
      && (BATCH * n >= k ==>
           && Rounds(wire, t, s, c, n + 1) == now
           && ChatMerge.DistinctIds(Chat.ListOf(now, c))
           && forall m :: m in t.messages && m.conv == c && m.seqNo > Chat.LastSeq(s, c) ==> Holds(wire, now, m))
  {
    var missing := Missing(t, s, c);
    var now := Rounds(wire, t, s, c, n);
    MissingRows(t, s, c);
    CatchUpProgress(wire, t, s, c, n);
    PullIsNextBatch(t, s, now, c, n);
    if BATCH * n >= |missing| {
      assert missing[..|missing|] == missing;
      forall m | m in t.messages && m.conv == c && m.seqNo > Chat.LastSeq(s, c) ensures Holds(wire, now, m) {
        assert AnyId(wire, missing, wire(m).core.id);
      }
    }
  }

  /** The cursor never falls. */
  lemma {:induction false} LastNeverFalls(wire: Wire, t: Tables, s: Chat.State, c: ConvId, n: nat)
    requires LogOk(t) && Faithful(wire)
    ensures Chat.LastSeq(Rounds(wire, t, s, c, n), c) >= Chat.LastSeq(s, c)
  {
    if n > 0 {
      LastNeverFalls(wire, t, s, c, n - 1);
      RoundEffect(wire, t, Rounds(wire, t, s, c, n - 1), c);
    }
  }

  // ---- the first pull ---------------------------------------------------------------------------

  lemma {:induction false} AscendingFits(s: seq<Message>, low: int, high: int)
    requires Ascending(s, SeqOf) && forall m :: m in s ==> low < m.seqNo <= high
    ensures low <= high ==> |s| <= high - low
    ensures s != [] ==> low < high
    decreases |s|
  {
    if s != [] {
      var front, x := s[..|s| - 1], s[|s| - 1];
      assert x in s;
      forall m | m in front ensures low < m.seqNo <= x.seqNo - 1 {
        var i :| 0 <= i < |front| && front[i] == m;
        assert SeqOf(s[i]) < SeqOf(x) && s[i] in s;
      }
      AscendingFits(front, low, x.seqNo - 1);
    }
  }

  /** With no cursor one round fetches every surviving message among the newest 200 seqs. */
  lemma FirstRound(wire: Wire, t: Tables, s: Chat.State, c: ConvId)
    requires LogOk(t) && Faithful(wire) && Chat.LastSeq(s, c) == 0
    requires ChatMerge.DistinctIds(Chat.ListOf(s, c))
    ensures var now := Round(wire, t, s, c);
      && ChatMerge.DistinctIds(Chat.ListOf(now, c))
      && forall m :: m in t.messages && m.conv == c && m.seqNo > Head(t, c) - BATCH ==> Holds(wire, now, m)
  {
    RoundEffect(wire, t, s, c);
    InConvElements(t.messages, c);
    forall m | m in t.messages && m.conv == c && m.seqNo > Head(t, c) - BATCH
      ensures Holds(wire, Round(wire, t, s, c), m)
    {
      FirstPull(t, s, c, m);
      assert AnyId(wire, Pulled(t, s, c), wire(m).core.id);
    }
  }

  lemma FirstPull(t: Tables, s: Chat.State, c: ConvId, m: Message)
    requires LogOk(t) && Chat.LastSeq(s, c) == 0
    requires m in t.messages && m.conv == c && m.seqNo > Head(t, c) - BATCH
    ensures m in Pulled(t, s, c)
  {
    var conv := InConv(t.messages, c);
    InConvElements(t.messages, c);
    InConvAscending(t.messages, c);
    if Head(t, c) > BATCH {
      FirstPullAfter(t, c, m);
    } else {
      AscendingFits(conv, 0, Head(t, c));
      ReverseElements(conv);
      assert Last(conv, BATCH) == conv && m in conv;
    }
  }

  lemma NewestFit(t: Tables, c: ConvId)
    requires LogOk(t) && Head(t, c) > BATCH
    ensures |Above(InConv(t.messages, c), SeqOf, Head(t, c) - BATCH)| <= BATCH
  {
    var conv := InConv(t.messages, c);
    var since := Head(t, c) - BATCH;
    InConvElements(t.messages, c);
    InConvAscending(t.messages, c);
    AboveAscends(conv, SeqOf, since);
    AscendingFits(Above(conv, SeqOf, since), since, Head(t, c));
  }

  lemma FirstPullAfter(t: Tables, c: ConvId, m: Message)
    requires LogOk(t) && Head(t, c) > BATCH
    requires m in t.messages && m.conv == c && m.seqNo > Head(t, c) - BATCH
    ensures m in ListAfter(t, c, Head(t, c) - BATCH, BATCH)
  {
    NewestFit(t, c);
    InConvElements(t.messages, c);
    AboveElements(InConv(t.messages, c), SeqOf, Head(t, c) - BATCH);
  }

  // ---- live pushes --------------------------------------------------------------------------------

  /** The message is at or below the cursor, and not held. */
  ghost predicate SkippedOver(wire: Wire, s: Chat.State, c: ConvId, m: Message) {
    m.seqNo <= Chat.LastSeq(s, c) && !Chat.HasId(Chat.ListOf(s, c), wire(m).core.id)
  }

  lemma NotPulled(wire: Wire, t: Tables, s: Chat.State, c: ConvId, m: Message)
    requires LogOk(t) && Faithful(wire) && m in t.messages && m.seqNo <= Chat.LastSeq(s, c)
    ensures !AnyId(wire, Pulled(t, s, c), wire(m).core.id)
  {
    PulledRows(t, s, c);
    forall k | k in Pulled(t, s, c) ensures wire(k).core.id != wire(m).core.id {
      if k.id == m.id {
        IdsAreUnique(t.messages, k, m);
      }
    }
  }

  lemma RoundSkips(wire: Wire, t: Tables, s: Chat.State, c: ConvId, m: Message)
    requires LogOk(t) && Faithful(wire) && m in t.messages && SkippedOver(wire, s, c, m)
    ensures SkippedOver(wire, Round(wire, t, s, c), c, m)
  {
    RoundEffect(wire, t, s, c);
    NotPulled(wire, t, s, c, m);
  }

  /** Rounds never bring a message at or below the cursor they start from. */
  lemma {:induction false} SkippedStaysOut(wire: Wire, t: Tables, s: Chat.State, c: ConvId, m: Message, n: nat)
    requires LogOk(t) && Faithful(wire) && m in t.messages && SkippedOver(wire, s, c, m)
    ensures SkippedOver(wire, Rounds(wire, t, s, c, n), c, m)
  {
    if n > 0 {
      SkippedStaysOut(wire, t, s, c, m, n - 1);
      RoundSkips(wire, t, Rounds(wire, t, s, c, n - 1), c, m);
    }
  }

  /** A live push leaves a gap: what lies between the old cursor and the pushed seq is never pulled. */
  lemma LivePushGap(wire: Wire, t: Tables, s: Chat.State, c: ConvId, pushed: Message, m: Message, n: nat)
    requires LogOk(t) && Faithful(wire)
    requires pushed in t.messages && m in t.messages && pushed.conv == m.conv == c
    requires Chat.LastSeq(s, c) < m.seqNo < pushed.seqNo && !Holds(wire, s, m)
    ensures !Holds(wire, Rounds(wire, t, Chat.AppendMessage(s, wire(pushed)), c, n), m)
  {
    AppendOne(wire, s, pushed);
    if wire(pushed).core.id == wire(m).core.id {
      IdsAreUnique(t.messages, pushed, m);
    }
    SkippedStaysOut(wire, t, Chat.AppendMessage(s, wire(pushed)), c, m, n);
  }

  /** From a non-zero cursor a surviving message is held after enough rounds exactly when it was held
      before or lies above the cursor. */
  lemma HeldInTheEndIff(wire: Wire, t: Tables, s: Chat.State, c: ConvId, m: Message, n: nat)
    requires LogOk(t) && Faithful(wire) && Chat.LastSeq(s, c) > 0
    requires ChatMerge.DistinctIds(Chat.ListOf(s, c))
    requires m in t.messages && m.conv == c && BATCH * n >= |Missing(t, s, c)|
    ensures Holds(wire, Rounds(wire, t, s, c, n), m) <==> Holds(wire, s, m) || m.seqNo > Chat.LastSeq(s, c)
  {
    CatchUpTerminates(wire, t, s, c, n);
    CatchUpProgress(wire, t, s, c, n);
    if m.seqNo <= Chat.LastSeq(s, c) && !Holds(wire, s, m) {
      SkippedStaysOut(wire, t, s, c, m, n);
    }
  }

  /** No action of the store lowers a cursor. */
  lemma {:induction false} CursorNeverFalls(dates: Chat.Dates, s: Chat.State, run: seq<Chat.Event>, c: ConvId)
    ensures Chat.LastSeq(Chat.After(dates, s, run), c) >= Chat.LastSeq(s, c)
    decreases |run|
  {
    if run != [] {
      CursorStep(dates, s, run[0], c);
      CursorNeverFalls(dates, Chat.Apply(dates, s, run[0]), run[1..], c);
    }
  }

  lemma CursorStep(dates: Chat.Dates, s: Chat.State, e: Chat.Event, c: ConvId)
    ensures Chat.LastSeq(Chat.Apply(dates, s, e), c) >= Chat.LastSeq(s, c)
  {
  }
}
