/** In what order the client shows what it pulled. */
module CatchUpOrder {
  import opened Paging
  import opened MessageLog
  import opened MessageQueries
  import Chat = ChatState
  import opened CatchUp

  function Wired(wire: Wire, rows: seq<Message>): seq<Chat.ChatMessage> {
    seq(|rows|, i requires 0 <= i < |rows| => wire(rows[i]))
  }

  /** No two rows have one id. */
  ghost predicate IdsDiffer(rows: seq<Message>) {
    forall i, j :: 0 <= i < j < |rows| ==> rows[i].id != rows[j].id
  }

  /** None of the rows is held yet, and no two have one id. */
  ghost predicate AllNew(wire: Wire, s: Chat.State, c: ConvId, rows: seq<Message>) {
    (forall m :: m in rows ==> m.conv == c && !Chat.HasId(Chat.ListOf(s, c), wire(m).core.id)) &&
    IdsDiffer(rows)
  }

  lemma AllNewTail(wire: Wire, s: Chat.State, c: ConvId, rows: seq<Message>)
    requires Faithful(wire) && AllNew(wire, s, c, rows) && rows != []
    ensures AllNew(wire, Chat.AppendMessage(s, wire(rows[0])), c, rows[1..])
  {
    var m, rest := rows[0], rows[1..];
    assert m in rows;
    AppendedHere(s, wire(m));
    Appended(Chat.ListOf(s, c), wire(m));
    forall k | k in rest ensures k in rows && k.id != m.id {
      var i :| 0 <= i < |rest| && rest[i] == k;
      assert rows[i + 1] == k;
    }
  }

  lemma Regroup<T>(list: seq<T>, x: seq<T>, y: seq<T>, z: seq<T>)
    requires x + y == z
    ensures (list + x) + y == list + z
  {
  }

  /** New rows are appended in the order in which they come. */
  lemma {:induction false} AppendAllNew(wire: Wire, s: Chat.State, rows: seq<Message>, c: ConvId)
    requires Faithful(wire) && AllNew(wire, s, c, rows)
    ensures Chat.ListOf(AppendAll(wire, s, rows), c) == Chat.ListOf(s, c) + Wired(wire, rows)
    decreases |rows|
  {
    if rows != [] {
      var m, rest := rows[0], rows[1..];
      var next := Chat.AppendMessage(s, wire(m));
      calc {
        Chat.ListOf(AppendAll(wire, s, rows), c);
        Chat.ListOf(AppendAll(wire, next, rest), c);
      == { AllNewTail(wire, s, c, rows); AppendAllNew(wire, next, rest, c); }
        Chat.ListOf(next, c) + Wired(wire, rest);
      == { assert m in rows; AppendedHere(s, wire(m)); }
        (Chat.ListOf(s, c) + [wire(m)]) + Wired(wire, rest);
      == { Regroup(Chat.ListOf(s, c), [wire(m)], Wired(wire, rest), Wired(wire, rows)); }
        Chat.ListOf(s, c) + Wired(wire, rows);
      }
    }
  }

  lemma SliceIds(t: Tables, s: Chat.State, c: ConvId, i: nat, j: nat)
    requires LogOk(t) && i <= j <= |Missing(t, s, c)|
    ensures IdsDiffer(Missing(t, s, c)[i..j])
  {
    var missing := Missing(t, s, c);
    MissingRows(t, s, c);
    forall k, l | i <= k < l < j ensures missing[k].id != missing[l].id {
      assert missing[k] in missing && missing[l] in missing;
      assert SeqOf(missing[k]) < SeqOf(missing[l]);
      if missing[k].id == missing[l].id {
        IdsAreUnique(t.messages, missing[k], missing[l]);
      }
    }
  }

  /** The old list and then the first j missing messages, oldest first. */
  ghost predicate ShowsFirst(wire: Wire, t: Tables, s: Chat.State, now: Chat.State, c: ConvId, j: nat) {
    j <= |Missing(t, s, c)| &&
    Chat.ListOf(now, c) == Chat.ListOf(s, c) + Wired(wire, Missing(t, s, c)[..j]) &&
    Chat.LastSeq(now, c) == Mark(Chat.LastSeq(s, c), Missing(t, s, c), j)
  }

  /** A missing message from the i-th on is none of those shown. */
  lemma NotYetShown(wire: Wire, t: Tables, s: Chat.State, now: Chat.State, c: ConvId, i: nat, k: nat)
    requires LogOk(t) && Faithful(wire) && AllNew(wire, s, c, Missing(t, s, c))
    requires ShowsFirst(wire, t, s, now, c, i) && i <= k < |Missing(t, s, c)|
    ensures !Chat.HasId(Chat.ListOf(now, c), wire(Missing(t, s, c)[k]).core.id)
  {
    var missing := Missing(t, s, c);
    var m := missing[k];
    assert m in missing;
    var shown := Wired(wire, missing[..i]);
    forall x | x in shown ensures x.core.id != wire(m).core.id {
      var l :| 0 <= l < |shown| && shown[l] == x;
      assert x == wire(missing[l]) && missing[l].id != missing[k].id;
    }
  }

  lemma LaterNotShown(wire: Wire, t: Tables, s: Chat.State, now: Chat.State, c: ConvId, i: nat, m: Message)
    requires LogOk(t) && Faithful(wire) && AllNew(wire, s, c, Missing(t, s, c))
    requires ShowsFirst(wire, t, s, now, c, i) && i <= |Missing(t, s, c)| && m in Missing(t, s, c)[i..]
    ensures m.conv == c && !Chat.HasId(Chat.ListOf(now, c), wire(m).core.id)
  {
    var missing := Missing(t, s, c);
    var k :| 0 <= k < |missing| - i && missing[i..][k] == m;
    assert missing[i + k] == m && m in missing;
    NotYetShown(wire, t, s, now, c, i, i + k);
  }

  lemma NextAreNew(wire: Wire, t: Tables, s: Chat.State, now: Chat.State, c: ConvId, i: nat, j: nat)
    requires LogOk(t) && Faithful(wire) && AllNew(wire, s, c, Missing(t, s, c))
    requires ShowsFirst(wire, t, s, now, c, i) && i <= j <= |Missing(t, s, c)|
    ensures AllNew(wire, now, c, Missing(t, s, c)[i..j])
  {
    var missing := Missing(t, s, c);
    SliceIds(t, s, c, i, j);
    forall m | m in missing[i..j] ensures m.conv == c && !Chat.HasId(Chat.ListOf(now, c), wire(m).core.id) {
      assert missing[i..j] == missing[i..][..j - i];
      LaterNotShown(wire, t, s, now, c, i, m);
    }
  }

  lemma ShowBatch(wire: Wire, t: Tables, s: Chat.State, now: Chat.State, c: ConvId, i: nat, j: nat)
    requires LogOk(t) && Faithful(wire) && AllNew(wire, s, c, Missing(t, s, c))
    requires ShowsFirst(wire, t, s, now, c, i) && i <= j <= |Missing(t, s, c)|
    requires Pulled(t, now, c) == Missing(t, s, c)[i..j]
    ensures Chat.ListOf(Round(wire, t, now, c), c) == Chat.ListOf(s, c) + Wired(wire, Missing(t, s, c)[..j])
  {
    var missing := Missing(t, s, c);
    NextAreNew(wire, t, s, now, c, i, j);
    AppendAllNew(wire, now, missing[i..j], c);
    WiredConcat(wire, missing, i, j);
    Regroup(Chat.ListOf(s, c), Wired(wire, missing[..i]), Wired(wire, missing[i..j]), Wired(wire, missing[..j]));
  }

  lemma WiredConcat(wire: Wire, rows: seq<Message>, i: nat, j: nat)
    requires i <= j <= |rows|
    ensures Wired(wire, rows[..i]) + Wired(wire, rows[i..j]) == Wired(wire, rows[..j])
  {
  }

  lemma ShowStep(wire: Wire, t: Tables, s: Chat.State, now: Chat.State, c: ConvId, n: nat)
    requires LogOk(t) && Faithful(wire) && Chat.LastSeq(s, c) > 0 && AllNew(wire, s, c, Missing(t, s, c))
    requires ShowsFirst(wire, t, s, now, c, Fetched(n, |Missing(t, s, c)|))
    ensures ShowsFirst(wire, t, s, Round(wire, t, now, c), c, Fetched(n + 1, |Missing(t, s, c)|))
  {
    PullIsNextBatch(t, s, now, c, n);
    ShowBatch(wire, t, s, now, c, Fetched(n, |Missing(t, s, c)|), Fetched(n + 1, |Missing(t, s, c)|));
    NextMark(wire, t, s, now, c, n);
  }

  /** After n rounds the missing messages follow the old list in log order. */
  lemma {:induction false} CatchUpShows(wire: Wire, t: Tables, s: Chat.State, c: ConvId, n: nat)
    requires LogOk(t) && Faithful(wire) && Chat.LastSeq(s, c) > 0 && AllNew(wire, s, c, Missing(t, s, c))
    ensures ShowsFirst(wire, t, s, Rounds(wire, t, s, c, n), c, Fetched(n, |Missing(t, s, c)|))
  {
    if n > 0 {
      CatchUpShows(wire, t, s, c, n - 1);
      ShowStep(wire, t, s, Rounds(wire, t, s, c, n - 1), c, n - 1);
    } else {
      assert Wired(wire, Missing(t, s, c)[..0]) == [];
    }
  }

  lemma LogIds(t: Tables, c: ConvId)
    requires LogOk(t)
    ensures IdsDiffer(InConv(t.messages, c))
  {
    var conv := InConv(t.messages, c);
    InConvElements(t.messages, c);
    InConvAscending(t.messages, c);
    forall i, j | 0 <= i < j < |conv| ensures conv[i].id != conv[j].id {
      assert conv[i] in conv && conv[j] in conv && SeqOf(conv[i]) < SeqOf(conv[j]);
      if conv[i].id == conv[j].id {
        IdsAreUnique(t.messages, conv[i], conv[j]);
      }
    }
  }

  /** What a pull brings: the next batch in log order, or with no cursor the newest batch in reverse. */
  lemma PulledIs(t: Tables, s: Chat.State, c: ConvId)
    requires LogOk(t) && Head(t, c) > Chat.LastSeq(s, c)
    ensures var conv := InConv(t.messages, c);
      var since := Since(Chat.LastSeq(s, c), Head(t, c));
      Pulled(t, s, c) == if since > 0 then Take(Above(conv, SeqOf, since), BATCH) else Reverse(Last(conv, BATCH))
  {
  }

  lemma ReverseOrder(rows: seq<Message>)
    requires Ascending(rows, SeqOf)
    ensures Ascending(Reverse(rows), SeqOf) <==> |rows| <= 1
    ensures |Reverse(rows)| == |rows|
  {
    if rows != [] {
      ReverseAt(rows, 0);
      ReverseAt(rows, |rows| - 1);
      assert |rows| > 1 ==> SeqOf(Reverse(rows)[|rows| - 1]) < SeqOf(Reverse(rows)[0]);
    }
  }

  lemma LastAscending(rows: seq<Message>, n: nat)
    requires Ascending(rows, SeqOf)
    ensures Ascending(Last(rows, n), SeqOf)
  {
  }

  lemma AboveAscending(rows: seq<Message>, since: int, n: nat)
    requires Ascending(rows, SeqOf)
    ensures Ascending(Take(Above(rows, SeqOf, since), n), SeqOf)
  {
    AboveAscends(rows, SeqOf, since);
  }

  /** A pull comes oldest first exactly when it had a cursor to start from or brought at most one message. */
  lemma PulledInOrderIff(t: Tables, s: Chat.State, c: ConvId)
    requires LogOk(t)
    ensures Ascending(Pulled(t, s, c), SeqOf) <==>
      Since(Chat.LastSeq(s, c), Head(t, c)) > 0 || |Pulled(t, s, c)| <= 1
  {
    var conv := InConv(t.messages, c);
    if Head(t, c) > Chat.LastSeq(s, c) {
      InConvAscending(t.messages, c);
      PulledIs(t, s, c);
      AboveAscending(conv, Since(Chat.LastSeq(s, c), Head(t, c)), BATCH);
      LastAscending(conv, BATCH);
      ReverseOrder(Last(conv, BATCH));
    }
  }

  lemma ReverseIdsDiffer(rows: seq<Message>)
    requires IdsDiffer(rows)
    ensures IdsDiffer(Reverse(rows))
  {
    if rows != [] {
      ReverseAt(rows, 0);
    }
    forall i, j | 0 <= i < j < |Reverse(rows)| ensures Reverse(rows)[i].id != Reverse(rows)[j].id {
      ReverseAt(rows, i);
      ReverseAt(rows, j);
    }
  }

  lemma PartIdsDiffer(rows: seq<Message>, i: nat, n: nat)
    requires IdsDiffer(rows) && i <= |rows|
    ensures IdsDiffer(Take(rows[i..], n)) && IdsDiffer(Last(rows, n))
  {
  }

  lemma PulledIdsDiffer(t: Tables, s: Chat.State, c: ConvId)
    requires LogOk(t)
    ensures IdsDiffer(Pulled(t, s, c))
  {
    var conv := InConv(t.messages, c);
    if Head(t, c) > Chat.LastSeq(s, c) {
      LogIds(t, c);
      InConvAscending(t.messages, c);
      PulledIs(t, s, c);
      var k := AboveIsSuffix(conv, SeqOf, Since(Chat.LastSeq(s, c), Head(t, c)));
      PartIdsDiffer(conv, k, BATCH);
      ReverseIdsDiffer(Last(conv, BATCH));
    }
  }

  /** An empty list shows what the first round pulls, in the order of the pull. */
  lemma FirstRoundShows(wire: Wire, t: Tables, s: Chat.State, c: ConvId)
    requires LogOk(t) && Faithful(wire) && Chat.ListOf(s, c) == []
    ensures Chat.ListOf(Round(wire, t, s, c), c) == Wired(wire, Pulled(t, s, c))
  {
    PulledRows(t, s, c);
    PulledIdsDiffer(t, s, c);
    AppendAllNew(wire, s, Pulled(t, s, c), c);
  }

  lemma WiredInOrderIff(wire: Wire, rows: seq<Message>)
    requires Faithful(wire)
    ensures Ascending(Wired(wire, rows), Chat.SeqOf) <==> Ascending(rows, SeqOf)
  {
    var shown := Wired(wire, rows);
    assert forall i :: 0 <= i < |rows| ==> Chat.SeqOf(shown[i]) == SeqOf(rows[i]);
  }

  /** An empty list is shown oldest first after a round exactly when the pull had a cursor to start
      from, its own or 200 below the head, or at most one message came. */
  lemma FirstRoundInOrderIff(wire: Wire, t: Tables, s: Chat.State, c: ConvId)
    requires LogOk(t) && Faithful(wire) && Chat.ListOf(s, c) == []
    ensures var shown := Chat.ListOf(Round(wire, t, s, c), c);
      Ascending(shown, Chat.SeqOf) <==>
        Chat.LastSeq(s, c) > 0 || Head(t, c) > BATCH || |shown| <= 1
  {
    FirstRoundShows(wire, t, s, c);
    WiredInOrderIff(wire, Pulled(t, s, c));
    PulledInOrderIff(t, s, c);
  }

  /** With no cursor the list after the first round is the log from 200 below the head on, oldest
      first, or for a shorter log the whole of it upside down. */
  lemma FirstRoundOrder(wire: Wire, t: Tables, s: Chat.State, c: ConvId)
    requires LogOk(t) && Faithful(wire) && Chat.LastSeq(s, c) == 0 && Chat.ListOf(s, c) == []
    ensures var conv := InConv(t.messages, c);
      Chat.ListOf(Round(wire, t, s, c), c) ==
        Wired(wire, if Head(t, c) > BATCH then Above(conv, SeqOf, Head(t, c) - BATCH) else Reverse(conv))
  {
    var conv := InConv(t.messages, c);
    FirstRoundShows(wire, t, s, c);
    InConvElements(t.messages, c);
    InConvAscending(t.messages, c);
    if Head(t, c) > BATCH {
      PulledIs(t, s, c);
      NewestFit(t, c);
    } else {
      AscendingFits(conv, 0, Head(t, c));
      assert Last(conv, BATCH) == conv;
      if Head(t, c) > 0 {
        PulledIs(t, s, c);
      }
    }
  }

  /** Opening a conversation on its newest window shows the log's tail, oldest first. */
  lemma OpenedWindow(wire: Wire, t: Tables, s: Chat.State, c: ConvId, limit: int)
    requires LogOk(t)
    ensures Chat.ListOf(Chat.SetMessages(s, c, Wired(wire, ListRecent(t, c, limit, 0))), c)
      == Wired(wire, Last(InConv(t.messages, c), Clamp(limit, 200, 50)))
  {
    var tail := Last(InConv(t.messages, c), Clamp(limit, 200, 50));
    ReverseTwice(tail);
    WiredReverse(wire, Reverse(tail));
  }

  lemma {:induction false} WiredReverse(wire: Wire, rows: seq<Message>)
    ensures Reverse(Wired(wire, rows)) == Wired(wire, Reverse(rows))
  {
    if rows != [] {
      WiredReverse(wire, rows[1..]);
      assert Wired(wire, rows)[1..] == Wired(wire, rows[1..]);
      assert Wired(wire, Reverse(rows[1..]) + [rows[0]]) == Wired(wire, Reverse(rows[1..])) + [wire(rows[0])];
    }
  }
}
