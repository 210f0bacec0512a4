/** One catch-up over all conversations, through the client's store. */
module SyncEngine {
  import opened Common
  import opened ArchiveRows
  import MessageLog
  import MessageQueries
  import Chat = ChatState
  import ChatStore
  import opened CatchUp

  function SyncAll(wire: Wire, t: MessageLog.Tables, s: Chat.State, convs: seq<string>): Chat.State
    decreases |convs|
  {
    if convs == [] then s else SyncAll(wire, t, Round(wire, t, s, convs[0]), convs[1..])
  }

  /** Two states that agree on one conversation's list and cursor. */
  ghost predicate SameIn(a: Chat.State, b: Chat.State, c: string) {
    Chat.ListOf(a, c) == Chat.ListOf(b, c) && Chat.LastSeq(a, c) == Chat.LastSeq(b, c)
  }

  lemma AppendLocal(a: Chat.State, b: Chat.State, m: Chat.ChatMessage)
    requires SameIn(a, b, m.core.conv)
    ensures SameIn(Chat.AppendMessage(a, m), Chat.AppendMessage(b, m), m.core.conv)
  {
    AppendedHere(a, m);
    AppendedHere(b, m);
  }

  lemma {:induction false} AppendAllLocal(
      wire: Wire, a: Chat.State, b: Chat.State, rows: seq<MessageLog.Message>, c: string)
    requires Faithful(wire) && SameIn(a, b, c) && forall m :: m in rows ==> m.conv == c
    ensures SameIn(AppendAll(wire, a, rows), AppendAll(wire, b, rows), c)
    decreases |rows|
  {
    if rows != [] {
      assert rows[0] in rows && forall m :: m in rows[1..] ==> m in rows;
      assert wire(rows[0]).core.conv == c;
      AppendLocal(a, b, wire(rows[0]));
      AppendAllLocal(wire, Chat.AppendMessage(a, wire(rows[0])), Chat.AppendMessage(b, wire(rows[0])), rows[1..], c);
    }
  }

  lemma RoundLocal(wire: Wire, t: MessageLog.Tables, a: Chat.State, b: Chat.State, c: string)
    requires MessageLog.LogOk(t) && Faithful(wire) && SameIn(a, b, c)
    ensures SameIn(Round(wire, t, a, c), Round(wire, t, b, c), c)
  {
    PulledRows(t, a, c);
    AppendAllLocal(wire, a, b, Pulled(t, a, c), c);
  }

  /** Each conversation ends as its own round leaves it, whatever the others pulled; the rest stay. */
  lemma {:induction false} SyncAllEach(
      wire: Wire, t: MessageLog.Tables, s: Chat.State, convs: seq<string>, c: string)
    requires MessageLog.LogOk(t) && Faithful(wire) && Distinct(convs)
    ensures SameIn(SyncAll(wire, t, s, convs), if c in convs then Round(wire, t, s, c) else s, c)
    decreases |convs|
  {
    if convs != [] {
      var first, rest := convs[0], convs[1..];
      var next := Round(wire, t, s, first);
      assert first !in rest;
      SyncAllEach(wire, t, next, rest, c);
      if c != first {
        RoundEffect(wire, t, s, first);
        RoundLocal(wire, t, next, s, c);
      }
    }
  }

  class Engine {
    const chat: ChatStore.Store

    constructor (chat: ChatStore.Store)
      ensures this.chat == chat
    {
      this.chat := chat;
    }

    /** Pulls every listed conversation whose head is past the cursor it had when the sync began. */
    method SyncAllConversations(t: MessageLog.Tables, wire: Wire, convs: seq<string>)
      requires Inverse(chat.archive.cx) && MessageLog.LogOk(t) && Faithful(wire) && Distinct(convs)
      modifies chat, chat.archive
      ensures chat.View() == SyncAll(wire, t, old(chat.View()), convs)
    {
      var last := chat.last;
      ghost var before := chat.View();
      var i := 0;
      while i < |convs|
        invariant 0 <= i <= |convs|
        invariant chat.View() == SyncAll(wire, t, before, convs[..i])
      {
        var c := convs[i];
        NextRound(wire, t, before, convs, i);
        var localLast := if c in last then last[c] else 0;
        if Head(t, c) > localLast {
          var rows := MessageQueries.Listing(t, c, BATCH, 0, Since(localLast, Head(t, c)), 0);
          AppendRows(wire, rows);
        }
        i := i + 1;
      }
      assert convs[..i] == convs;
    }

    method AppendRows(wire: Wire, rows: seq<MessageLog.Message>)
      requires Inverse(chat.archive.cx)
      modifies chat, chat.archive
      ensures chat.View() == AppendAll(wire, old(chat.View()), rows)
    {
      ghost var before := chat.View();
      var i := 0;
      while i < |rows|
        invariant 0 <= i <= |rows|
        invariant AppendAll(wire, chat.View(), rows[i..]) == AppendAll(wire, before, rows)
      {
        assert rows[i..][1..] == rows[i + 1..];
        chat.AppendMessage(wire(rows[i]));
        i := i + 1;
      }
    }
  }

  /** One more conversation is one more round, from the cursor it had at the start. */
  lemma NextRound(wire: Wire, t: MessageLog.Tables, s: Chat.State, convs: seq<string>, i: nat)
    requires MessageLog.LogOk(t) && Faithful(wire) && Distinct(convs) && i < |convs|
    ensures var mid := SyncAll(wire, t, s, convs[..i]);
      && Chat.LastSeq(mid, convs[i]) == Chat.LastSeq(s, convs[i])
      && SyncAll(wire, t, s, convs[..i + 1]) == Round(wire, t, mid, convs[i])
  {
    SyncAllEach(wire, t, s, convs[..i], convs[i]);
    assert convs[i] !in convs[..i];
    SyncAllSnoc(wire, t, s, convs[..i], convs[i]);
    assert convs[..i + 1] == convs[..i] + [convs[i]];
  }

  lemma {:induction false} SyncAllSnoc(
      wire: Wire, t: MessageLog.Tables, s: Chat.State, convs: seq<string>, c: string)
    ensures SyncAll(wire, t, s, convs + [c]) == Round(wire, t, SyncAll(wire, t, s, convs), c)
    decreases |convs|
  {
    if convs == [] {
      assert convs + [c] == [c];
      assert [c][1..] == [];
    } else {
      SyncAllSnoc(wire, t, Round(wire, t, s, convs[0]), convs[1..], c);
      assert (convs + [c])[1..] == convs[1..] + [c];
    }
  }
}
