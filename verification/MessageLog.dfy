/** The server's message tables (message/repo.go, message/cleanup.go): sequence numbers, deletion,
    pins, the retention sweep, and the cursor queries. */
module MessageLog {
  import opened Common
  import opened Paging

  type ConvId = string
  type MsgId = nat

  const RETENTION := 30 * 24 * 60 * 60

  datatype Message = Message(id: MsgId, conv: ConvId, seqNo: nat, body: string, sentAt: Time)

  /** `messages` holds the rows in insertion order; `lastSeq` is conversation_seq and `head` is
      conversations.last_message_id. */
  datatype Tables = Tables(
    messages: seq<Message>,
    lastSeq: map<ConvId, nat>,
    head: map<ConvId, Option<MsgId>>,
    pins: set<(ConvId, MsgId)>,
    nextId: MsgId)

  const Empty := Tables([], map[], map[], {}, 1)

  function SeqOf(m: Message): int {
    m.seqNo
  }

  /** The rows of one conversation. */
  function InConv(messages: seq<Message>, c: ConvId): seq<Message> {
    if messages == [] then [] else (if messages[0].conv == c then [messages[0]] else []) + InConv(messages[1..], c)
  }

  function Keep(messages: seq<Message>, gone: set<MsgId>): seq<Message> {
    if messages == [] then [] else (if messages[0].id in gone then [] else [messages[0]]) + Keep(messages[1..], gone)
  }

  predicate Live(t: Tables, id: MsgId) {
    exists m :: m in t.messages && m.id == id
  }

  predicate Pinned(t: Tables, id: MsgId) {
    exists p :: p in t.pins && p.1 == id
  }

  // ---- the operations ---------------------------------------------------------------------

  /** Creating a conversation gives it a counter and no last message; it never resets either. */
  function EnsureConversation(t: Tables, c: ConvId): Tables {
    t.(lastSeq := if c in t.lastSeq then t.lastSeq else t.lastSeq[c := 0],
       head := if c in t.head then t.head else t.head[c := None])
  }

  function NewMessage(t: Tables, c: ConvId, body: string, now: Time): Message
    requires c in t.lastSeq
  {
    Message(t.nextId, c, t.lastSeq[c] + 1, body, now)
  }

  function Insert(t: Tables, c: ConvId, body: string, now: Time): Tables {
    if c !in t.lastSeq then t else
      t.(messages := t.messages + [NewMessage(t, c, body, now)],
         lastSeq := t.lastSeq[c := t.lastSeq[c] + 1],
         head := if c in t.head then t.head[c := Some(t.nextId)] else t.head,
         nextId := t.nextId + 1)
  }

  /** Deleting rows cascades to their pins. */
  function RemoveRows(t: Tables, gone: set<MsgId>): Tables {
    t.(messages := Keep(t.messages, gone), pins := set p | p in t.pins && p.1 !in gone)
  }

  function Pin(t: Tables, c: ConvId, id: MsgId): Tables {
    if Live(t, id) then t.(pins := t.pins + {(c, id)}) else t
  }

  function Unpin(t: Tables, c: ConvId, id: MsgId): Tables {
    t.(pins := t.pins - {(c, id)})
  }

  /** What the sweep deletes: old messages nobody pinned. */
  function Swept(t: Tables, now: Time): set<MsgId> {
    set m | m in t.messages && m.sentAt < now - RETENTION && !Pinned(t, m.id) :: m.id
  }

  function Newest(messages: seq<Message>, c: ConvId): Option<MsgId> {
    var s := InConv(messages, c);
    if s == [] then None else Some(s[|s| - 1].id)
  }

  predicate Dangling(t: Tables, c: ConvId) {
    c in t.head && t.head[c].Some? && !Live(t, t.head[c].value)
  }

  function Repaired(t: Tables, c: ConvId): Option<MsgId>
    requires c in t.head
  {
    if Dangling(t, c) then Newest(t.messages, c) else t.head[c]
  }

  function RepairHeads(t: Tables): Tables {
    t.(head := map c | c in t.head :: Repaired(t, c))
  }

  function SweepRetention(t: Tables, now: Time): Tables {
    if Swept(t, now) == {} then t else RepairHeads(RemoveRows(t, Swept(t, now)))
  }

  // ---- runs -------------------------------------------------------------------------------

  datatype Event =
    | Opens(conv: ConvId)
    | Inserts(conv: ConvId, body: string, now: Time)
    | Deletes(id: MsgId)
    | Pins(conv: ConvId, id: MsgId)
    | Unpins(conv: ConvId, id: MsgId)
    | Sweeps(now: Time)

  function Apply(t: Tables, e: Event): Tables {
    match e
    case Opens(c) => EnsureConversation(t, c)
    case Inserts(c, body, now) => Insert(t, c, body, now)
    case Deletes(id) => RemoveRows(t, {id})
    case Pins(c, id) => Pin(t, c, id)
    case Unpins(c, id) => Unpin(t, c, id)
    case Sweeps(now) => SweepRetention(t, now)
  }

  function After(t: Tables, run: seq<Event>): Tables
    decreases |run|
  {
    if run == [] then t else After(Apply(t, run[0]), run[1..])
  }

  // ---- sequence numbers are never reused --------------------------------------------------

  /** The (conversation, seq) pairs a run hands out, in order. */
  function Issued(t: Tables, run: seq<Event>): seq<(ConvId, nat)>
    decreases |run|
  {
    if run == [] then [] else
      (if run[0].Inserts? && run[0].conv in t.lastSeq
       then [(run[0].conv, t.lastSeq[run[0].conv] + 1)] else [])
      + Issued(Apply(t, run[0]), run[1..])
  }

  lemma CounterNeverFalls(t: Tables, e: Event, c: ConvId)
    requires c in t.lastSeq
    ensures c in Apply(t, e).lastSeq && Apply(t, e).lastSeq[c] >= t.lastSeq[c]
  {
  }

  lemma {:induction false} IssuedAboveCounter(t: Tables, run: seq<Event>, c: ConvId, n: nat)
    requires (c, n) in Issued(t, run)
    ensures c in t.lastSeq ==> n > t.lastSeq[c]
    decreases |run|
  {
    var rest := Issued(Apply(t, run[0]), run[1..]);
    if (c, n) in rest {
      IssuedAboveCounter(Apply(t, run[0]), run[1..], c, n);
      if c in t.lastSeq {
        CounterNeverFalls(t, run[0], c);
      }
    }
  }

  /** No (conversation, seq) is issued twice in any run, deletions and sweeps included. */
  lemma {:induction false} NeverIssuedTwice(t: Tables, run: seq<Event>)
    ensures Distinct(Issued(t, run))
    decreases |run|
  {
    if run != [] {
      var rest := Issued(Apply(t, run[0]), run[1..]);
      NeverIssuedTwice(Apply(t, run[0]), run[1..]);
      if run[0].Inserts? && run[0].conv in t.lastSeq {
        var first := (run[0].conv, t.lastSeq[run[0].conv] + 1);
        forall n | (run[0].conv, n) in rest ensures n > first.1 {
          IssuedAboveCounter(Apply(t, run[0]), run[1..], run[0].conv, n);
        }
        assert forall j :: 0 <= j < |rest| ==> rest[j] in rest;
      }
    }
  }

  // ---- the log stays ordered ----------------------------------------------------------------

  /** Row i is older than row j: smaller id, and smaller seq in the same conversation. */
  predicate Older(a: Message, b: Message) {
    a.id < b.id && (a.conv == b.conv ==> a.seqNo < b.seqNo)
  }

  predicate Ordered(s: seq<Message>) {
    forall i, j :: 0 <= i < j < |s| ==> Older(s[i], s[j])
  }

  ghost predicate LogOk(t: Tables) {
    t.head.Keys == t.lastSeq.Keys &&
    (forall m :: m in t.messages ==> m.id < t.nextId && m.conv in t.lastSeq && 1 <= m.seqNo <= t.lastSeq[m.conv]) &&
    Ordered(t.messages) &&
    (forall p :: p in t.pins ==> Live(t, p.1)) &&
    (forall c :: c in t.head && t.head[c].Some? ==> t.head[c].value < t.nextId)
  }

  lemma {:induction false} InConvElements(messages: seq<Message>, c: ConvId)
    ensures forall m :: m in InConv(messages, c) <==> m in messages && m.conv == c
  {
    if messages != [] {
      InConvElements(messages[1..], c);
    }
  }

  lemma {:induction false} InConvAscending(messages: seq<Message>, c: ConvId)
    requires Ordered(messages)
    ensures Ascending(InConv(messages, c), SeqOf)
  {
    if messages != [] {
      InConvAscending(messages[1..], c);
      var rest := InConv(messages[1..], c);
      InConvElements(messages[1..], c);
      if messages[0].conv == c {
        forall j | 0 <= j < |rest| ensures SeqOf(messages[0]) < SeqOf(rest[j]) {
          assert rest[j] in messages[1..];
          var k :| 0 <= k < |messages[1..]| && messages[1..][k] == rest[j];
          assert Older(messages[0], messages[k + 1]);
        }
      }
    }
  }

  lemma {:induction false} KeepElements(messages: seq<Message>, gone: set<MsgId>)
    ensures forall m :: m in Keep(messages, gone) <==> m in messages && m.id !in gone
  {
    if messages != [] {
      KeepElements(messages[1..], gone);
    }
  }

  lemma {:induction false} KeepOrdered(messages: seq<Message>, gone: set<MsgId>)
    requires Ordered(messages)
    ensures Ordered(Keep(messages, gone))
  {
    if messages != [] {
      KeepOrdered(messages[1..], gone);
      KeepElements(messages[1..], gone);
      var rest := Keep(messages[1..], gone);
      forall j | 0 <= j < |rest| ensures Older(messages[0], rest[j]) {
        assert rest[j] in messages[1..];
        var k :| 0 <= k < |messages[1..]| && messages[1..][k] == rest[j];
        assert Older(messages[0], messages[k + 1]);
      }
      if messages[0].id in gone {
        assert Keep(messages, gone) == [] + rest == rest;
      } else {
        assert Keep(messages, gone) == [messages[0]] + rest;
      }
    }
  }

  lemma RemoveRowsLogOk(t: Tables, gone: set<MsgId>)
    requires LogOk(t)
    ensures LogOk(RemoveRows(t, gone))
    ensures forall id :: Live(RemoveRows(t, gone), id) <==> Live(t, id) && id !in gone
  {
    KeepElements(t.messages, gone);
    KeepOrdered(t.messages, gone);
    assert forall m :: m in t.messages && m.id !in gone ==> m in RemoveRows(t, gone).messages;
  }

  lemma NewestIsIssued(t: Tables, c: ConvId)
    requires LogOk(t) && Newest(t.messages, c).Some?
    ensures Newest(t.messages, c).value < t.nextId && Live(t, Newest(t.messages, c).value)
  {
    InConvElements(t.messages, c);
    var s := InConv(t.messages, c);
    assert s[|s| - 1] in s;
  }

  lemma InsertLogOk(t: Tables, c: ConvId, body: string, now: Time)
    requires LogOk(t)
    ensures LogOk(Insert(t, c, body, now))
  {
    assert forall id :: Live(t, id) ==> Live(Insert(t, c, body, now), id);
  }

  lemma RepairLogOk(t: Tables)
    requires LogOk(t)
    ensures LogOk(RepairHeads(t))
  {
    forall c | Newest(t.messages, c).Some? ensures Newest(t.messages, c).value < t.nextId {
      NewestIsIssued(t, c);
    }
    assert forall id :: Live(RepairHeads(t), id) <==> Live(t, id);
  }

  lemma LogOkStep(t: Tables, e: Event)
    requires LogOk(t)
    ensures LogOk(Apply(t, e))
  {
    match e
    case Opens(c) =>
    case Inserts(c, body, now) => InsertLogOk(t, c, body, now);
    case Deletes(id) => RemoveRowsLogOk(t, {id});
    case Pins(c, id) =>
    case Unpins(c, id) =>
    case Sweeps(now) =>
      RemoveRowsLogOk(t, Swept(t, now));
      RepairLogOk(RemoveRows(t, Swept(t, now)));
  }

  // ---- the last-message pointer -------------------------------------------------------------

  /** A conversation's pointer is the newest surviving message, unless it dangles. */
  ghost predicate HeadsOk(t: Tables) {
    forall c :: c in t.head && !Dangling(t, c) ==> t.head[c] == Newest(t.messages, c)
  }

  lemma {:induction false} InConvAppend(messages: seq<Message>, m: Message, c: ConvId)
    ensures InConv(messages + [m], c) == InConv(messages, c) + if m.conv == c then [m] else []
  {
    if messages == [] {
      assert messages + [m] == [m];
      assert [m][1..] == [];
    } else {
      InConvAppend(messages[1..], m, c);
      assert (messages + [m])[1..] == messages[1..] + [m];
    }
  }

  lemma {:induction false} InConvKeep(messages: seq<Message>, gone: set<MsgId>, c: ConvId)
    ensures InConv(Keep(messages, gone), c) == Keep(InConv(messages, c), gone)
  {
    if messages != [] {
      InConvKeep(messages[1..], gone, c);
      var rest := InConv(messages[1..], c);
      if messages[0].conv == c {
        assert InConv(messages, c) == [messages[0]] + rest;
      } else {
        assert InConv(messages, c) == [] + rest == rest;
      }
      if messages[0].id in gone {
        assert Keep(messages, gone) == [] + Keep(messages[1..], gone) == Keep(messages[1..], gone);
      } else {
        assert Keep(messages, gone) == [messages[0]] + Keep(messages[1..], gone);
        assert Keep(messages, gone)[1..] == Keep(messages[1..], gone);
      }
    }
  }

  lemma {:induction false} KeepLast(s: seq<Message>, gone: set<MsgId>)
    requires s != [] && s[|s| - 1].id !in gone
    ensures Keep(s, gone) != [] && Keep(s, gone)[|Keep(s, gone)| - 1] == s[|s| - 1]
  {
    if |s| > 1 {
      KeepLast(s[1..], gone);
    }
  }

  /** A pointer that survives a deletion still points to the newest survivor. */
  lemma NewestSurvives(t: Tables, gone: set<MsgId>, c: ConvId)
    requires LogOk(t) && HeadsOk(t) && c in t.head && !Dangling(RemoveRows(t, gone), c)
    ensures t.head[c] == Newest(RemoveRows(t, gone).messages, c)
  {
    RemoveRowsLogOk(t, gone);
    InConvKeep(t.messages, gone, c);
    var s := InConv(t.messages, c);
    if t.head[c].Some? {
      assert Live(t, t.head[c].value);
      KeepLast(s, gone);
    } else {
      assert s == [];
    }
  }

  lemma {:induction false} InConvNone(messages: seq<Message>, c: ConvId)
    requires forall m :: m in messages ==> m.conv != c
    ensures InConv(messages, c) == []
  {
    if messages != [] {
      InConvNone(messages[1..], c);
    }
  }

  lemma OpenHeadsOk(t: Tables, c: ConvId)
    requires LogOk(t) && HeadsOk(t)
    ensures HeadsOk(EnsureConversation(t, c))
  {
    var s := EnsureConversation(t, c);
    if c !in t.lastSeq {
      InConvNone(t.messages, c);
    }
    assert forall id :: Live(s, id) <==> Live(t, id);
  }

  lemma InsertedHead(t: Tables, c: ConvId, body: string, now: Time)
    requires LogOk(t) && c in t.lastSeq
    ensures var s := Insert(t, c, body, now);
      c in s.head && s.head[c] == Newest(s.messages, c)
  {
    var m := NewMessage(t, c, body, now);
    InConvAppend(t.messages, m, c);
    assert InConv(t.messages + [m], c) == InConv(t.messages, c) + [m];
  }

  lemma OtherHead(t: Tables, c: ConvId, body: string, now: Time, d: ConvId)
    requires LogOk(t) && HeadsOk(t) && c in t.lastSeq && d != c && d in t.head
    ensures var s := Insert(t, c, body, now);
      Dangling(s, d) || s.head[d] == Newest(s.messages, d)
  {
    var m := NewMessage(t, c, body, now);
    InConvAppend(t.messages, m, d);
    assert InConv(t.messages + [m], d) == InConv(t.messages, d);
    InsertKeepsDangling(t, c, body, now, d);
  }

  lemma InsertHeadsOk(t: Tables, c: ConvId, body: string, now: Time)
    requires LogOk(t) && HeadsOk(t)
    ensures HeadsOk(Insert(t, c, body, now))
  {
    var s := Insert(t, c, body, now);
    if c in t.lastSeq {
      InsertedHead(t, c, body, now);
      forall d | d in s.head && !Dangling(s, d) ensures s.head[d] == Newest(s.messages, d) {
        if d != c {
          OtherHead(t, c, body, now, d);
        }
      }
    }
  }

  lemma InsertKeepsDangling(t: Tables, c: ConvId, body: string, now: Time, d: ConvId)
    requires LogOk(t) && d != c && d in t.head
    ensures Dangling(t, d) ==> Dangling(Insert(t, c, body, now), d)
  {
  }

  lemma HeadsOkStep(t: Tables, e: Event)
    requires LogOk(t) && HeadsOk(t)
    ensures HeadsOk(Apply(t, e))
  {
    match e
    case Opens(c) => OpenHeadsOk(t, c);
    case Inserts(c, body, now) => InsertHeadsOk(t, c, body, now);
    case Deletes(id) =>
      forall c | c in t.head && !Dangling(Apply(t, e), c)
        ensures t.head[c] == Newest(Apply(t, e).messages, c)
      {
        NewestSurvives(t, {id}, c);
      }
    case Pins(c, id) =>
      assert forall d :: Dangling(Apply(t, e), d) <==> Dangling(t, d);
    case Unpins(c, id) =>
      assert forall d :: Dangling(Apply(t, e), d) <==> Dangling(t, d);
    case Sweeps(now) => SweepRepairs(t, now);
  }

  /** A sweep removes exactly the unpinned messages past the cutoff; if it removed any, every
      conversation's pointer then is its newest survivor, or nothing if none survives. */
  lemma SweepRepairs(t: Tables, now: Time)
    requires LogOk(t) && HeadsOk(t)
    ensures var s := SweepRetention(t, now);
      && (forall m :: m in s.messages <==> m in t.messages && (m.sentAt >= now - RETENTION || Pinned(t, m.id)))
      && (Swept(t, now) != {} ==> forall c :: c in s.head ==> !Dangling(s, c) && s.head[c] == Newest(s.messages, c))
      && s.lastSeq == t.lastSeq && s.pins == t.pins
  {
    var gone := Swept(t, now);
    var r := RemoveRows(t, gone);
    var s := SweepRetention(t, now);
    RemoveRowsLogOk(t, gone);
    KeepElements(t.messages, gone);
    SweptExactly(t, now);
    assert r.pins == t.pins;
    if gone != {} {
      assert forall id :: Live(s, id) <==> Live(r, id);
      forall c | c in s.head ensures !Dangling(s, c) && s.head[c] == Newest(s.messages, c) {
        if !Dangling(r, c) {
          NewestSurvives(t, gone, c);
        } else if Newest(r.messages, c).Some? {
          NewestIsIssued(r, c);
        }
      }
    }
  }

  lemma IdsAreUnique(messages: seq<Message>, m: Message, n: Message)
    requires Ordered(messages) && m in messages && n in messages && m.id == n.id
    ensures m == n
  {
    var i :| 0 <= i < |messages| && messages[i] == m;
    var j :| 0 <= j < |messages| && messages[j] == n;
    assert !(i < j) && !(j < i);
  }

  lemma SweptExactly(t: Tables, now: Time)
    requires LogOk(t)
    ensures forall m :: m in t.messages ==> (m.id in Swept(t, now) <==> m.sentAt < now - RETENTION && !Pinned(t, m.id))
    ensures forall p :: p in t.pins ==> p.1 !in Swept(t, now)
  {
    forall m, n | m in t.messages && n in t.messages && m.id == n.id ensures m == n {
      IdsAreUnique(t.messages, m, n);
    }
  }

  /** A dangling pointer is left dangling exactly by a sweep that finds nothing to delete. */
  lemma SweepLeavesDangling(t: Tables, now: Time)
    requires LogOk(t) && HeadsOk(t)
    ensures (exists c :: Dangling(SweepRetention(t, now), c)) <==> Swept(t, now) == {} && exists c :: Dangling(t, c)
  {
    SweepRepairs(t, now);
  }

  lemma {:induction false} AlwaysOk(t: Tables, run: seq<Event>)
    requires LogOk(t) && HeadsOk(t)
    ensures LogOk(After(t, run)) && HeadsOk(After(t, run))
    decreases |run|
  {
    if run != [] {
      LogOkStep(t, run[0]);
      HeadsOkStep(t, run[0]);
      AlwaysOk(Apply(t, run[0]), run[1..]);
    }
  }

  /** Every table reachable from the empty one is ordered and points at its newest messages. */
  lemma ReachableLogs(run: seq<Event>)
    ensures LogOk(After(Empty, run)) && HeadsOk(After(Empty, run))
  {
    AlwaysOk(Empty, run);
  }
}
