/** The message repository's transactions over its tables. */
module MessageStore {
  import opened Common
  import opened Paging
  import opened MessageLog
  import opened MessageQueries

  datatype PinOutcome = Pinned | AlreadyPinned | NoSuchMessage

  class Store {
    var messages: seq<Message>
    var lastSeq: map<ConvId, nat>
    var head: map<ConvId, Option<MsgId>>
    var pins: set<(ConvId, MsgId)>
    var nextId: MsgId

    ghost function View(): Tables
      reads this
    {
      Tables(messages, lastSeq, head, pins, nextId)
    }

    constructor ()
      ensures View() == Empty
    {
      messages, lastSeq, head, pins, nextId := [], map[], map[], {}, 1;
    }

    method EnsureConversation(c: ConvId)
      modifies this
      ensures View() == MessageLog.EnsureConversation(old(View()), c)
    {
      if c !in head {
        head := head[c := None];
      }
      if c !in lastSeq {
        lastSeq := lastSeq[c := 0];
      }
    }

    /** Allocates the next seq, inserts, and moves the conversation's pointer; None if it has no counter. */
    method Insert(c: ConvId, body: string, now: Time) returns (m: Option<Message>)
      modifies this
      ensures View() == MessageLog.Insert(old(View()), c, body, now)
      ensures m == if c in old(lastSeq) then Some(NewMessage(old(View()), c, body, now)) else None
    {
      if c !in lastSeq {
        return None;
      }
      lastSeq := lastSeq[c := lastSeq[c] + 1];
      var row := Message(nextId, c, lastSeq[c], body, now);
      messages := messages + [row];
      if c in head {
        head := head[c := Some(row.id)];
      }
      nextId := nextId + 1;
      m := Some(row);
    }

    /** Deletes a row and its pins; reports whether there was one. */
    method Delete(id: MsgId) returns (found: bool)
      modifies this
      ensures View() == RemoveRows(old(View()), {id})
      ensures found == Live(old(View()), id)
    {
      ghost var before := View();
      found := false;
      var kept, i := [], 0;
      while i < |messages|
        invariant 0 <= i <= |messages| && View() == before
        invariant kept == Keep(messages[..i], {id})
        invariant found <==> exists j :: 0 <= j < i && messages[j].id == id
      {
        assert messages[..i + 1] == messages[..i] + [messages[i]];
        KeepAppend(messages[..i], messages[i], {id});
        if messages[i].id == id {
          found := true;
        } else {
          kept := kept + [messages[i]];
        }
        i := i + 1;
      }
      assert messages[..i] == messages;
      assert found <==> Live(before, id);
      messages := kept;
      pins := set p | p in pins && p.1 !in {id};
    }

    method Pin(c: ConvId, id: MsgId) returns (outcome: PinOutcome)
      modifies this`pins
      ensures View() == MessageLog.Pin(old(View()), c, id)
      ensures outcome ==
        if !Live(old(View()), id) then NoSuchMessage else if (c, id) in old(pins) then AlreadyPinned else Pinned
    {
      if !(exists m :: m in messages && m.id == id) {
        return NoSuchMessage;
      }
      if (c, id) in pins {
        return AlreadyPinned;
      }
      pins := pins + {(c, id)};
      outcome := Pinned;
    }

    /** Reports whether there was such a pin. */
    method Unpin(c: ConvId, id: MsgId) returns (found: bool)
      modifies this`pins
      ensures View() == MessageLog.Unpin(old(View()), c, id)
      ensures found <==> (c, id) in old(pins)
    {
      found := (c, id) in pins;
      pins := pins - {(c, id)};
    }

    /** Deletes the expired unpinned rows and, if there were any, repairs the pointers left dangling. */
    method SweepRetention(now: Time) returns (deleted: nat)
      requires LogOk(View())
      modifies this
      ensures View() == MessageLog.SweepRetention(old(View()), now)
      ensures deleted == |old(messages)| - |messages|
    {
      ghost var before := View();
      var kept := Unexpired(now);
      deleted := |messages| - |kept|;
      NothingSwept(before, now);
      messages := kept;
      if deleted > 0 {
        RepairPointers();
      }
    }

    /** The rows the sweep's delete leaves. */
    method Unexpired(now: Time) returns (kept: seq<Message>)
      requires LogOk(View())
      ensures kept == Keep(messages, Swept(View(), now))
      ensures |kept| <= |messages|
    {
      ghost var gone := Swept(View(), now);
      SweptExactly(View(), now);
      kept := [];
      var i := 0;
      while i < |messages|
        invariant |kept| <= i <= |messages|
        invariant kept == Keep(messages[..i], gone)
      {
        assert messages[..i + 1] == messages[..i] + [messages[i]];
        KeepAppend(messages[..i], messages[i], gone);
        if messages[i].sentAt >= now - RETENTION || exists p :: p in pins && p.1 == messages[i].id {
          kept := kept + [messages[i]];
        }
        i := i + 1;
      }
      assert messages[..i] == messages;
    }

    method RepairPointers()
      modifies this`head
      ensures View() == RepairHeads(old(View()))
    {
      ghost var before := View();
      var todo := head.Keys;
      while todo != {}
        invariant todo <= head.Keys == before.head.Keys
        invariant forall c :: c in todo ==> head[c] == before.head[c]
        invariant forall c :: c in head && c !in todo ==> head[c] == Repaired(before, c)
        decreases |todo|
      {
        ghost var some := SomeElement(todo);
        var c :| c in todo;
        if head[c].Some? && !(exists m :: m in messages && m.id == head[c].value) {
          var newest := LastOf(c);
          head := head[c := newest];
        }
        assert head[c] == Repaired(before, c);
        todo := todo - {c};
      }
      assert head == RepairHeads(before).head;
    }

    /** The highest row of a conversation, found from the end. */
    method LastOf(c: ConvId) returns (id: Option<MsgId>)
      ensures id == MessageLog.Newest(messages, c)
    {
      var i := |messages|;
      assert messages[..i] == messages;
      while i > 0
        invariant 0 <= i <= |messages|
        invariant MessageLog.Newest(messages[..i], c) == MessageLog.Newest(messages, c)
      {
        i := i - 1;
        assert messages[..i + 1] == messages[..i] + [messages[i]];
        InConvAppend(messages[..i], messages[i], c);
        if messages[i].conv == c {
          return Some(messages[i].id);
        }
      }
      return None;
    }

    // ---- queries ----------------------------------------------------------------------------

    /** Oldest first, past a cursor. */
    method ListAfter(c: ConvId, after: int, limit: int) returns (rows: seq<Message>)
      ensures rows == MessageQueries.ListAfter(View(), c, after, limit)
    {
      rows := First(c, after, Clamp(limit, 500, 200));
    }

    method First(c: ConvId, after: int, n: nat) returns (rows: seq<Message>)
      ensures rows == Take(Above(InConv(messages, c), SeqOf, after), n)
    {
      rows := [];
      var i := 0;
      while i < |messages| && |rows| < n
        invariant 0 <= i <= |messages| && |rows| <= n
        invariant rows == Above(InConv(messages[..i], c), SeqOf, after)
      {
        var m := messages[i];
        assert messages[..i + 1] == messages[..i] + [m];
        AboveOfAppend(messages[..i], m, c, after);
        if m.conv == c && m.seqNo > after {
          rows := rows + [m];
        }
        i := i + 1;
      }
      AboveOfPrefix(messages, i, c, after);
      assert messages[..|messages|] == messages;
    }

    /** Newest first, before a cursor if one is given. */
    method ListRecent(c: ConvId, limit: int, before: int) returns (rows: seq<Message>)
      ensures rows == MessageQueries.ListRecent(View(), c, limit, before)
    {
      rows := Final(c, before, Clamp(limit, 200, 50), before > 0);
    }

    method Final(c: ConvId, before: int, n: nat, bounded: bool) returns (rows: seq<Message>)
      ensures rows == Reverse(Last(Wanted(messages, c, before, bounded), n))
    {
      rows := [];
      var i := |messages|;
      while i > 0 && |rows| < n
        invariant 0 <= i <= |messages| && |rows| <= n
        invariant rows == Reverse(Wanted(messages[i..], c, before, bounded))
      {
        i := i - 1;
        var m := messages[i];
        WantedFrom(messages, i, c, before, bounded);
        if m.conv == c && (!bounded || m.seqNo < before) {
          rows := rows + [m];
        }
      }
      FinalRows(messages, i, c, before, bounded, n);
    }

    /** The rows just before a seq and those from it on, in one ascending list. */
    method ListAround(c: ConvId, around: int, window: int) returns (rows: seq<Message>)
      ensures rows == MessageQueries.ListAround(View(), c, around, window)
    {
      var w := Clamp(window, 200, 25);
      var older := Final(c, around, w, true);
      var newer := First(c, around - 1, w);
      rows := Prepended(older, newer);
      ReverseTwice(Last(Below(InConv(messages, c), SeqOf, around), w));
    }

    static method Prepended(older: seq<Message>, newer: seq<Message>) returns (rows: seq<Message>)
      ensures rows == Reverse(older) + newer
    {
      rows := newer;
      var i := 0;
      while i < |older|
        invariant 0 <= i <= |older|
        invariant rows == Reverse(older[..i]) + newer
      {
        assert older[..i + 1] == older[..i] + [older[i]];
        ReverseAppend(older[..i], [older[i]]);
        assert Reverse([older[i]]) == [older[i]];
        rows := [older[i]] + rows;
        i := i + 1;
      }
      assert older[..i] == older;
    }
  }

  ghost function Wanted(messages: seq<Message>, c: ConvId, before: int, bounded: bool): seq<Message> {
    if bounded then Below(InConv(messages, c), SeqOf, before) else InConv(messages, c)
  }

  lemma WantedFrom(messages: seq<Message>, i: nat, c: ConvId, before: int, bounded: bool)
    requires i < |messages|
    ensures var m, rest := messages[i], Wanted(messages[i + 1..], c, before, bounded);
      Wanted(messages[i..], c, before, bounded) == (if m.conv == c && (!bounded || m.seqNo < before) then [m] else []) + rest
    ensures var m, rest := messages[i], Wanted(messages[i + 1..], c, before, bounded);
      Reverse(Wanted(messages[i..], c, before, bounded)) ==
        Reverse(rest) + if m.conv == c && (!bounded || m.seqNo < before) then [m] else []
  {
    assert messages[i..][1..] == messages[i + 1..];
    var m, rest := messages[i], Wanted(messages[i + 1..], c, before, bounded);
    var tail := InConv(messages[i + 1..], c);
    if m.conv == c {
      assert ([m] + tail)[1..] == tail;
    } else {
      assert [] + tail == tail;
    }
    assert ([m] + rest)[1..] == rest && [] + rest == rest;
    assert Reverse(rest) + [] == Reverse(rest);
  }

  ghost predicate IsSuffix(a: seq<Message>, b: seq<Message>) {
    |a| <= |b| && b[|b| - |a|..] == a
  }

  lemma LastSuffix(a: seq<Message>, b: seq<Message>, n: nat)
    requires IsSuffix(a, b) && |a| <= n && (a == b || |a| == n)
    ensures Last(b, n) == a
  {
  }

  lemma TailIsSuffix(x: seq<Message>, a: seq<Message>, b: seq<Message>)
    requires IsSuffix(x + a, b)
    ensures IsSuffix(a, b)
  {
    assert b[|b| - |a|..] == (x + a)[|x|..];
  }

  lemma {:induction false} WantedSuffix(messages: seq<Message>, i: nat, c: ConvId, before: int, bounded: bool)
    requires i <= |messages|
    ensures IsSuffix(Wanted(messages[i..], c, before, bounded), Wanted(messages, c, before, bounded))
    ensures i == 0 ==> Wanted(messages[i..], c, before, bounded) == Wanted(messages, c, before, bounded)
  {
    if i == 0 {
      assert messages[0..] == messages;
    } else {
      var m, rest := messages[i - 1], Wanted(messages[i..], c, before, bounded);
      WantedSuffix(messages, i - 1, c, before, bounded);
      WantedFrom(messages, i - 1, c, before, bounded);
      TailIsSuffix(if m.conv == c && (!bounded || m.seqNo < before) then [m] else [], rest,
                   Wanted(messages, c, before, bounded));
    }
  }

  /** Scanning back to i answers the query if i is the start or n rows were found. */
  lemma FinalRows(messages: seq<Message>, i: nat, c: ConvId, before: int, bounded: bool, n: nat)
    requires i <= |messages|
    requires var found := Reverse(Wanted(messages[i..], c, before, bounded)); |found| <= n && (i == 0 || |found| == n)
    ensures Reverse(Wanted(messages[i..], c, before, bounded)) == Reverse(Last(Wanted(messages, c, before, bounded), n))
  {
    var w := Wanted(messages[i..], c, before, bounded);
    WantedSuffix(messages, i, c, before, bounded);
    if w != [] {
      ReverseAt(w, 0);
    }
    LastSuffix(w, Wanted(messages, c, before, bounded), n);
  }

  lemma AboveOfAppend(messages: seq<Message>, m: Message, c: ConvId, after: int)
    ensures Above(InConv(messages + [m], c), SeqOf, after) == Above(InConv(messages, c), SeqOf, after)
      + if m.conv == c && m.seqNo > after then [m] else []
  {
    InConvAppend(messages, m, c);
    if m.conv == c {
      AboveAppend(InConv(messages, c), SeqOf, m, after);
    } else {
      assert InConv(messages, c) + [] == InConv(messages, c);
    }
  }

  /** Scanning part of the table finds a prefix of the answer. */
  lemma {:induction false} AboveOfPrefix(messages: seq<Message>, i: nat, c: ConvId, after: int)
    requires i <= |messages|
    ensures Above(InConv(messages[..i], c), SeqOf, after) <= Above(InConv(messages, c), SeqOf, after)
    decreases |messages| - i
  {
    if i == |messages| {
      assert messages[..i] == messages;
    } else {
      assert messages[..i + 1] == messages[..i] + [messages[i]];
      AboveOfAppend(messages[..i], messages[i], c, after);
      AboveOfPrefix(messages, i + 1, c, after);
    }
  }

  lemma {:induction false} KeepAppend(messages: seq<Message>, m: Message, gone: set<MsgId>)
    ensures Keep(messages + [m], gone) == Keep(messages, gone) + if m.id in gone then [] else [m]
  {
    if messages == [] {
      assert messages + [m] == [m];
      assert [m][1..] == [];
    } else {
      KeepAppend(messages[1..], m, gone);
      assert (messages + [m])[1..] == messages[1..] + [m];
    }
  }

  lemma {:induction false} KeepAll(messages: seq<Message>, gone: set<MsgId>)
    ensures |Keep(messages, gone)| <= |messages|
    ensures |Keep(messages, gone)| == |messages| <==> forall m :: m in messages ==> m.id !in gone
    ensures |Keep(messages, gone)| == |messages| ==> Keep(messages, gone) == messages
  {
    if messages != [] {
      var rest := Keep(messages[1..], gone);
      KeepAll(messages[1..], gone);
      assert Keep(messages, gone) == if messages[0].id in gone then rest else [messages[0]] + rest;
      assert forall m :: m in messages <==> m == messages[0] || m in messages[1..];
    }
  }

  /** The sweep's row count says whether there was anything to sweep; pins are never touched. */
  lemma NothingSwept(t: Tables, now: Time)
    requires LogOk(t)
    ensures var kept := Keep(t.messages, Swept(t, now));
      && (Swept(t, now) == {} <==> |kept| == |t.messages|)
      && (|kept| == |t.messages| ==> kept == t.messages)
      && RemoveRows(t, Swept(t, now)) == t.(messages := kept)
  {
    var gone := Swept(t, now);
    KeepAll(t.messages, gone);
    SweptExactly(t, now);
    assert t.pins == set p | p in t.pins && p.1 !in gone;
  }
}
