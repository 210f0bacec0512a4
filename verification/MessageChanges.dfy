/** Exactly what each event does to the message tables, and what each page of the log holds. */
module MessageChanges {
  import opened Common
  import opened Paging
  import opened MessageLog
  import opened MessageQueries

  // ---- rows, counters, pins -----------------------------------------------------------------

  ghost predicate Expires(t: Tables, m: Message, now: Time) {
    m.sentAt < now - 30 * 24 * 60 * 60 && forall p :: p in t.pins ==> p.1 != m.id
  }

  /** A row is there after an event exactly if the event inserted it, with the next id and seq and the
      given text and time, or it was there and was neither deleted nor swept as old and unpinned. Rows
      stay in the order of their ids, so this says what the whole log is. */
  lemma RowsChangeExactly(t: Tables, e: Event, m: Message)
    requires LogOk(t)
    ensures m in Apply(t, e).messages <==>
      (e.Inserts? && e.conv in t.lastSeq && m == Message(t.nextId, e.conv, t.lastSeq[e.conv] + 1, e.body, e.now)) ||
      (m in t.messages && !(e.Deletes? && e.id == m.id) && !(e.Sweeps? && Expires(t, m, e.now)))
    ensures LogOk(Apply(t, e))
  {
    LogOkStep(t, e);
    match e
    case Deletes(id) => KeepElements(t.messages, {id});
    case Sweeps(now) =>
      KeepElements(t.messages, Swept(t, now));
      SweptExactly(t, now);
      assert Pinned(t, m.id) <==> exists p :: p in t.pins && p.1 == m.id;
    case _ =>
  }

  /** Counters start at 0, grow by one an insert, and nothing else moves them. */
  lemma CountersChangeExactly(t: Tables, e: Event, c: ConvId)
    ensures c in Apply(t, e).lastSeq <==> c in t.lastSeq || (e.Opens? && e.conv == c)
    ensures c in Apply(t, e).lastSeq ==>
      Apply(t, e).lastSeq[c] == if c !in t.lastSeq then 0 else if e.Inserts? && e.conv == c then t.lastSeq[c] + 1 else t.lastSeq[c]
    ensures Apply(t, e).nextId == if e.Inserts? && e.conv in t.lastSeq then t.nextId + 1 else t.nextId
  {
  }

  /** A pin is there after an event exactly if the event set it on a live message, or it was there and
      was neither lifted nor deleted with its message. */
  lemma PinsChangeExactly(t: Tables, e: Event, c: ConvId, id: MsgId)
    requires LogOk(t)
    ensures (c, id) in Apply(t, e).pins <==>
      (e.Pins? && e.conv == c && e.id == id && exists m :: m in t.messages && m.id == id) ||
      ((c, id) in t.pins && !(e.Unpins? && e.conv == c && e.id == id) && !(e.Deletes? && e.id == id))
  {
    match e
    case Pins(d, i) => assert Live(t, i) <==> exists m :: m in t.messages && m.id == i;
    case Sweeps(now) =>
      SweptExactly(t, now);
      assert (c, id) in t.pins ==> id !in Swept(t, now);
    case _ =>
  }

  /** A pointer goes to the row an insert puts into its conversation; outside sweeps nothing else moves it. */
  lemma PointersChangeExactly(t: Tables, e: Event, c: ConvId)
    requires LogOk(t) && !e.Sweeps? && c in Apply(t, e).head
    ensures Apply(t, e).head[c] ==
      if c !in t.head then None else if e.Inserts? && e.conv == c then Some(t.nextId) else t.head[c]
  {
  }

  // ---- pages ----------------------------------------------------------------------------------

  /** A survivor of the conversation above the cursor. */
  predicate IsAbove(t: Tables, c: ConvId, after: int, m: Message) {
    m in t.messages && m.conv == c && m.seqNo > after
  }

  lemma AcrossSplit(all: seq<Message>, d: nat, m: Message, k: Message)
    requires Ascending(all, SeqOf) && d <= |all| && m in all[..d] && k in all[d..]
    ensures m.seqNo < k.seqNo
  {
    var i :| 0 <= i < d && all[i] == m;
    var j :| 0 <= j < |all| - d && all[d..][j] == k;
    assert SeqOf(all[i]) < SeqOf(all[d + j]);
  }

  /** The first n of an ascending list: the others all come later. */
  lemma TakeIsFirst(all: seq<Message>, n: nat)
    requires Ascending(all, SeqOf)
    ensures var page := Take(all, n);
      && Ascending(page, SeqOf) && |page| <= n && (forall m :: m in page ==> m in all)
      && forall m :: m in all && m !in page ==> |page| == n && forall k :: k in page ==> k.seqNo < m.seqNo
  {
    var page := Take(all, n);
    var d := |page|;
    assert page == all[0..d] == all[..d];
    SliceAscends(all, SeqOf, 0, d);
    forall m | m in all && m !in page ensures |page| == n && forall k :: k in page ==> k.seqNo < m.seqNo {
      assert all == page + all[d..];
      assert m in all[d..];
      forall k | k in page ensures k.seqNo < m.seqNo {
        AcrossSplit(all, d, k, m);
      }
    }
  }

  /** The last n of an ascending list: the others all come earlier. */
  lemma LastIsLast(all: seq<Message>, n: nat)
    requires Ascending(all, SeqOf)
    ensures var last := Last(all, n);
      && Ascending(last, SeqOf) && |last| <= n && (forall m :: m in last ==> m in all)
      && forall m :: m in all && m !in last ==> |last| == n && forall k :: k in last ==> k.seqNo > m.seqNo
  {
    var last := Last(all, n);
    var d := |all| - |last|;
    assert last == all[d..|all|];
    SliceAscends(all, SeqOf, d, |all|);
    forall m | m in all && m !in last ensures |last| == n && forall k :: k in last ==> k.seqNo > m.seqNo {
      assert all == all[..d] + last;
      assert m in all[..d];
      forall k | k in last ensures k.seqNo > m.seqNo {
        AcrossSplit(all, d, m, k);
      }
    }
  }

  /** A page upwards is the first survivors above the cursor in ascending order: as many as asked for,
      200 if that is not from 1 to 500, unless there are fewer. */
  lemma PageUp(t: Tables, c: ConvId, after: int, limit: int)
    requires LogOk(t)
    ensures var page, n := ListAfter(t, c, after, limit), if 1 <= limit <= 500 then limit else 200;
      && Ascending(page, SeqOf) && |page| <= n
      && (forall m :: m in page ==> IsAbove(t, c, after, m))
      && forall m :: IsAbove(t, c, after, m) && m !in page ==> |page| == n && forall k :: k in page ==> k.seqNo < m.seqNo
  {
    InConvAscending(t.messages, c);
    InConvElements(t.messages, c);
    AboveAscends(InConv(t.messages, c), SeqOf, after);
    TakeIsFirst(Above(InConv(t.messages, c), SeqOf, after), Clamp(limit, 500, 200));
  }

  /** A survivor of the conversation below the cursor, or any if it is 0. */
  predicate IsUpto(t: Tables, c: ConvId, before: int, m: Message) {
    m in t.messages && m.conv == c && (before > 0 ==> m.seqNo < before)
  }

  lemma UptoAscends(t: Tables, c: ConvId, before: int)
    requires LogOk(t)
    ensures Ascending(Upto(t, c, before), SeqOf)
    ensures forall m :: m in Upto(t, c, before) <==> IsUpto(t, c, before, m)
  {
    InConvAscending(t.messages, c);
    InConvElements(t.messages, c);
    BelowAscends(InConv(t.messages, c), SeqOf, before);
  }

  /** A page downwards is the last survivors below the cursor, of all if it is 0, newest first: as many
      as asked for, 50 if that is not from 1 to 200, unless there are fewer. */
  lemma PageDown(t: Tables, c: ConvId, limit: int, before: int)
    requires LogOk(t)
    ensures var page, n := ListRecent(t, c, limit, before), if 1 <= limit <= 200 then limit else 50;
      && Descending(page, SeqOf) && |page| <= n
      && (forall m :: m in page ==> IsUpto(t, c, before, m))
      && forall m :: IsUpto(t, c, before, m) && m !in page ==> |page| == n && forall k :: k in page ==> k.seqNo > m.seqNo
  {
    var all := Upto(t, c, before);
    var last := Last(all, Clamp(limit, 200, 50));
    UptoAscends(t, c, before);
    LastIsLast(all, Clamp(limit, 200, 50));
    ReverseDescends(last, SeqOf);
    if last != [] {
      ReverseAt(last, 0);
    }
    assert ListRecent(t, c, limit, before) == Reverse(last);
  }

  /** The window around a seq is the page before it, turned round, and then the page from it on. */
  lemma AroundIsTwoPages(t: Tables, c: ConvId, around: int, window: int)
    requires LogOk(t) && around > 0
    ensures var n := if 1 <= window <= 200 then window else 25;
      ListAround(t, c, around, window) == Reverse(ListRecent(t, c, n, around)) + ListAfter(t, c, around - 1, n)
  {
    ReverseTwice(Last(Below(InConv(t.messages, c), SeqOf, around), Clamp(window, 200, 25)));
  }
}
