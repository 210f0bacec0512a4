/** The reaction queries and requests over the server's rows. */
module ReactionStore {
  import opened Common
  import opened Reactions

  /** The rows of a query: each matching row once, in any order. */
  ghost predicate Enumerates(rows: seq<Reaction>, t: set<Reaction>, ids: set<nat>) {
    Distinct(rows) && forall x :: x in rows <==> x in t && x.msg in ids
  }

  /** What the rows read so far say about one message and emoji. */
  function Count(rows: seq<Reaction>, m: nat, emoji: string): ReactionCount {
    if rows == [] then ReactionCount(emoji, 0, [])
    else
      var r := Count(rows[..|rows| - 1], m, emoji);
      var x := rows[|rows| - 1];
      if x.msg == m && x.emoji == emoji then r.(count := r.count + 1, userIds := r.userIds + [x.user]) else r
  }

  lemma {:induction false} CountElements(rows: seq<Reaction>, m: nat, emoji: string)
    requires Distinct(rows)
    ensures var r := Count(rows, m, emoji);
      && r.emoji == emoji && r.count == |r.userIds| && Distinct(r.userIds)
      && forall u :: u in r.userIds <==> Reaction(m, u, emoji) in rows
  {
    if rows != [] {
      var front, x := rows[..|rows| - 1], rows[|rows| - 1];
      CountElements(front, m, emoji);
      assert forall y :: y in rows <==> y in front || y == x;
      assert x !in front;
    }
  }

  predicate Seen(rows: seq<Reaction>, m: nat, emoji: string) {
    exists x :: x in rows && x.msg == m && x.emoji == emoji
  }

  /** The counts of the emoji seen, once each, are the message's summary. */
  lemma CountsSummarise(
      rows: seq<Reaction>, t: set<Reaction>, ids: set<nat>, m: nat, order: seq<string>, rs: seq<ReactionCount>)
    requires Enumerates(rows, t, ids) && m in ids && Distinct(order)
    requires |rs| == |order| && forall i :: 0 <= i < |rs| ==> rs[i] == Count(rows, m, order[i])
    requires forall e :: e in order <==> Seen(rows, m, e)
    ensures Summary(rs, t, m)
  {
    forall i | 0 <= i < |rs| ensures EntryFor(rs[i], t, m) && rs[i].emoji == order[i] {
      CountElements(rows, m, order[i]);
      assert order[i] in order;
      var x :| x in rows && x.msg == m && x.emoji == order[i];
      assert x == Reaction(m, x.user, order[i]);
      assert x.user in rs[i].userIds;
    }
    forall x | x in t && x.msg == m ensures Lists(rs, x.emoji) {
      assert x.emoji in order;
      var i :| 0 <= i < |order| && order[i] == x.emoji;
      assert rs[i] in rs;
    }
  }

  function Bump(r: ReactionCount, user: UserId): ReactionCount {
    r.(count := r.count + 1, userIds := r.userIds + [user])
  }

  lemma CountMore(rows: seq<Reaction>, x: Reaction, m: nat, emoji: string)
    ensures Count(rows + [x], m, emoji) ==
      if x.msg == m && x.emoji == emoji then Bump(Count(rows, m, emoji), x.user) else Count(rows, m, emoji)
    ensures Seen(rows + [x], m, emoji) <==> Seen(rows, m, emoji) || (x.msg == m && x.emoji == emoji)
  {
    assert (rows + [x])[..|rows|] == rows;
    assert forall y :: y in rows + [x] <==> y in rows || y == x;
  }

  lemma {:induction false} CountUnseen(rows: seq<Reaction>, m: nat, emoji: string)
    requires !Seen(rows, m, emoji)
    ensures Count(rows, m, emoji) == ReactionCount(emoji, 0, [])
  {
    if rows != [] {
      assert rows[|rows| - 1] in rows;
      assert forall x :: x in rows[..|rows| - 1] ==> x in rows;
      CountUnseen(rows[..|rows| - 1], m, emoji);
    }
  }

  /** A message's emoji in the order in which the rows first mention them. */
  function FirstSeen(rows: seq<Reaction>, m: nat): seq<string> {
    if rows == [] then []
    else
      var order := FirstSeen(rows[..|rows| - 1], m);
      var x := rows[|rows| - 1];
      if x.msg == m && x.emoji !in order then order + [x.emoji] else order
  }

  lemma FirstSeenMore(rows: seq<Reaction>, x: Reaction, m: nat)
    ensures FirstSeen(rows + [x], m) ==
      if x.msg == m && x.emoji !in FirstSeen(rows, m) then FirstSeen(rows, m) + [x.emoji] else FirstSeen(rows, m)
  {
    assert (rows + [x])[..|rows|] == rows;
  }

  lemma {:induction false} FirstSeenRows(rows: seq<Reaction>, m: nat)
    ensures forall e :: e in FirstSeen(rows, m) ==> Seen(rows, m, e)
  {
    if rows != [] {
      var front, x := rows[..|rows| - 1], rows[|rows| - 1];
      FirstSeenRows(front, m);
      assert rows == front + [x];
      forall e | e in FirstSeen(rows, m) ensures Seen(rows, m, e) {
        CountMore(front, x, m, e);
      }
    }
  }

  lemma SeenBefore(rows: seq<Reaction>, m: nat, e: string, leq: (string, string) -> bool)
    requires rows != [] && forall i, j :: 0 <= i < j < |rows| ==> leq(rows[i].emoji, rows[j].emoji)
    requires Seen(rows[..|rows| - 1], m, e)
    ensures leq(e, rows[|rows| - 1].emoji)
  {
    var front := rows[..|rows| - 1];
    var y :| y in front && y.msg == m && y.emoji == e;
    var k :| 0 <= k < |front| && front[k] == y;
    assert rows[k] == y;
  }

  /** Rows sorted by emoji, in whatever collation, give a summary sorted the same way. */
  lemma {:induction false} FirstSeenSorted(rows: seq<Reaction>, m: nat, leq: (string, string) -> bool)
    requires forall i, j :: 0 <= i < j < |rows| ==> leq(rows[i].emoji, rows[j].emoji)
    ensures var order := FirstSeen(rows, m);
      forall i, j :: 0 <= i < j < |order| ==> leq(order[i], order[j])
  {
    if rows != [] {
      var front, x := rows[..|rows| - 1], rows[|rows| - 1];
      var order := FirstSeen(front, m);
      FirstSeenSorted(front, m, leq);
      FirstSeenRows(front, m);
      forall e | e in order ensures leq(e, x.emoji) {
        SeenBefore(rows, m, e, leq);
      }
      FirstSeenMore(front, x, m);
      assert rows == front + [x];
    }
  }

  /** The running tally of one message: its emoji in first-seen order. */
  ghost predicate Tallied(byEmoji: map<string, ReactionCount>, order: seq<string>, rows: seq<Reaction>, m: nat) {
    Distinct(order) && order == FirstSeen(rows, m) &&
    (forall e :: e in order <==> e in byEmoji) &&
    (forall e :: e in byEmoji <==> Seen(rows, m, e)) &&
    (forall e :: e in byEmoji ==> byEmoji[e] == Count(rows, m, e))
  }

  lemma OneMoreDistinct(order: seq<string>, e: string)
    requires Distinct(order) && e !in order
    ensures Distinct(order + [e]) && forall x :: x in order + [e] <==> x in order || x == e
  {
  }

  lemma TallyOne(byEmoji: map<string, ReactionCount>, order: seq<string>, rows: seq<Reaction>, m: nat, x: Reaction)
    requires Tallied(byEmoji, order, rows, m) && x.msg == m
    ensures var rc := if x.emoji in byEmoji then byEmoji[x.emoji] else ReactionCount(x.emoji, 0, []);
      Tallied(byEmoji[x.emoji := Bump(rc, x.user)], if x.emoji in byEmoji then order else order + [x.emoji],
              rows + [x], m)
  {
    var rc := if x.emoji in byEmoji then byEmoji[x.emoji] else ReactionCount(x.emoji, 0, []);
    var now := byEmoji[x.emoji := Bump(rc, x.user)];
    assert rc == Count(rows, m, x.emoji) by {
      if x.emoji !in byEmoji {
        CountUnseen(rows, m, x.emoji);
      }
    }
    FirstSeenMore(rows, x, m);
    if x.emoji !in byEmoji {
      OneMoreDistinct(order, x.emoji);
    }
    forall e ensures e in now <==> Seen(rows + [x], m, e)
      ensures Count(rows + [x], m, e) == if e == x.emoji then Bump(Count(rows, m, e), x.user) else Count(rows, m, e)
    {
      CountMore(rows, x, m, e);
    }
  }

  /** The running tally of every message. */
  ghost predicate TalliedAll(tally: map<(nat, string), ReactionCount>, rows: seq<Reaction>) {
    (forall k :: k in tally <==> Seen(rows, k.0, k.1)) &&
    (forall k :: k in tally ==> tally[k] == Count(rows, k.0, k.1))
  }

  lemma TallyAny(tally: map<(nat, string), ReactionCount>, rows: seq<Reaction>, x: Reaction)
    requires TalliedAll(tally, rows)
    ensures var k := (x.msg, x.emoji);
      var rc := if k in tally then tally[k] else ReactionCount(x.emoji, 0, []);
      TalliedAll(tally[k := Bump(rc, x.user)], rows + [x])
  {
    var key := (x.msg, x.emoji);
    if key !in tally {
      CountUnseen(rows, x.msg, x.emoji);
    }
    forall k: (nat, string) ensures k in tally || k == key <==> Seen(rows + [x], k.0, k.1)
      ensures Count(rows + [x], k.0, k.1) ==
        if k == key then Bump(Count(rows, k.0, k.1), x.user) else Count(rows, k.0, k.1)
    {
      CountMore(rows, x, k.0, k.1);
    }
  }

  class Store {
    var reactions: set<Reaction>

    constructor ()
      ensures reactions == {}
    {
      reactions := {};
    }

    /** Reports whether a row was added. */
    method AddReaction(m: nat, user: UserId, emoji: string) returns (added: bool)
      modifies this
      ensures reactions == old(reactions) + {Reaction(m, user, emoji)}
      ensures added <==> Reaction(m, user, emoji) !in old(reactions)
    {
      added := Reaction(m, user, emoji) !in reactions;
      reactions := reactions + {Reaction(m, user, emoji)};
    }

    /** Reports whether a row was removed. */
    method RemoveReaction(m: nat, user: UserId, emoji: string) returns (removed: bool)
      modifies this
      ensures reactions == old(reactions) - {Reaction(m, user, emoji)}
      ensures removed <==> Reaction(m, user, emoji) in old(reactions)
    {
      removed := Reaction(m, user, emoji) in reactions;
      reactions := reactions - {Reaction(m, user, emoji)};
    }

    /** One message's summary, tallied row by row: an entry for each emoji, in the order of the rows. */
    method SummariseReactions(m: nat, rows: seq<Reaction>) returns (rs: seq<ReactionCount>)
      requires Enumerates(rows, reactions, {m})
      ensures Summary(rs, reactions, m)
      ensures |rs| == |FirstSeen(rows, m)|
      ensures forall i :: 0 <= i < |rs| ==> rs[i] == Count(rows, m, FirstSeen(rows, m)[i])
    {
      var byEmoji, order := Tally(m, rows);
      rs := Collected(byEmoji, order);
      forall i | 0 <= i < |rs| ensures rs[i] == Count(rows, m, order[i]) {
        assert order[i] in order;
      }
      CountsSummarise(rows, reactions, {m}, m, order, rs);
    }

    static method Tally(m: nat, rows: seq<Reaction>) returns (byEmoji: map<string, ReactionCount>, order: seq<string>)
      requires forall x :: x in rows ==> x.msg == m
      ensures Tallied(byEmoji, order, rows, m)
    {
      byEmoji, order := map[], [];
      var n := 0;
      while n < |rows|
        invariant 0 <= n <= |rows| && Tallied(byEmoji, order, rows[..n], m)
      {
        var x := rows[n];
        assert rows[..n + 1] == rows[..n] + [x] && x in rows;
        TallyOne(byEmoji, order, rows[..n], m, x);
        var rc := if x.emoji in byEmoji then byEmoji[x.emoji] else ReactionCount(x.emoji, 0, []);
        if x.emoji !in byEmoji {
          order := order + [x.emoji];
        }
        byEmoji := byEmoji[x.emoji := Bump(rc, x.user)];
        n := n + 1;
      }
      assert rows[..n] == rows;
    }

    static method Collected(byEmoji: map<string, ReactionCount>, order: seq<string>) returns (rs: seq<ReactionCount>)
      requires forall e :: e in order ==> e in byEmoji
      ensures |rs| == |order| && forall i :: 0 <= i < |order| ==> rs[i] == byEmoji[order[i]]
    {
      rs := [];
      while |rs| < |order|
        invariant |rs| <= |order| && forall i :: 0 <= i < |rs| ==> rs[i] == byEmoji[order[i]]
      {
        rs := rs + [byEmoji[order[|rs|]]];
      }
    }

    /** The summaries of several messages from one query, tallied by message and emoji. */
    method AttachReactions(ids: seq<nat>, rows: seq<Reaction>) returns (attached: seq<seq<ReactionCount>>)
      requires Enumerates(rows, reactions, set m | m in ids)
      ensures |attached| == |ids|
      ensures forall i :: 0 <= i < |ids| ==> Summary(attached[i], reactions, ids[i])
    {
      var tally: map<(nat, string), ReactionCount> := map[];
      var n := 0;
      while n < |rows|
        invariant 0 <= n <= |rows| && TalliedAll(tally, rows[..n])
      {
        var x := rows[n];
        var k := (x.msg, x.emoji);
        assert rows[..n + 1] == rows[..n] + [x];
        TallyAny(tally, rows[..n], x);
        tally := tally[k := Bump(if k in tally then tally[k] else ReactionCount(x.emoji, 0, []), x.user)];
        n := n + 1;
      }
      assert rows[..n] == rows;
      attached := [];
      while |attached| < |ids|
        invariant |attached| <= |ids|
        invariant forall i :: 0 <= i < |attached| ==> Summary(attached[i], reactions, ids[i])
      {
        var m := ids[|attached|];
        var rs := ByMessage(tally, rows, m);
        attached := attached + [rs];
      }
    }

    /** A message's part of the tally, in whatever order the map yields it. */
    method ByMessage(tally: map<(nat, string), ReactionCount>, ghost rows: seq<Reaction>, m: nat)
      returns (rs: seq<ReactionCount>)
      requires exists ids :: Enumerates(rows, reactions, ids) && m in ids
      requires TalliedAll(tally, rows)
      ensures Summary(rs, reactions, m)
    {
      rs := [];
      ghost var order: seq<string> := [];
      var todo := tally.Keys;
      while todo != {}
        invariant todo <= tally.Keys && |rs| == |order| && Distinct(order)
        invariant forall i :: 0 <= i < |rs| ==> rs[i] == Count(rows, m, order[i])
        invariant forall e :: e in order <==> (m, e) in tally && (m, e) !in todo
        decreases |todo|
      {
        ghost var some := SomeElement(todo);
        var k :| k in todo;
        if k.0 == m {
          rs := rs + [tally[k]];
          order := order + [k.1];
        }
        todo := todo - {k};
      }
      forall e ensures e in order <==> Seen(rows, m, e) {
        assert (m, e) in tally <==> Seen(rows, m, e);
      }
      ghost var ids :| Enumerates(rows, reactions, ids) && m in ids;
      CountsSummarise(rows, reactions, ids, m, order, rs);
    }
  }
}
