/** Emoji reactions: the server's rows and summaries, and the client's optimistic toggle. */
module Reactions {
  import opened Common

  type UserId = int

  /** A row; message, user and emoji together are its key. */
  datatype Reaction = Reaction(msg: nat, user: UserId, emoji: string)

  datatype ReactionCount = ReactionCount(emoji: string, count: int, userIds: seq<UserId>)

  predicate Lists(rs: seq<ReactionCount>, emoji: string) {
    exists r :: r in rs && r.emoji == emoji
  }

  /** One entry: exactly the users who reacted with its emoji, each once, counted. */
  ghost predicate EntryFor(r: ReactionCount, t: set<Reaction>, m: nat) {
    r.userIds != [] && r.count == |r.userIds| && Distinct(r.userIds) &&
    forall u :: u in r.userIds <==> Reaction(m, u, r.emoji) in t
  }

  ghost predicate DistinctEmoji(rs: seq<ReactionCount>) {
    forall i, j :: 0 <= i < j < |rs| ==> rs[i].emoji != rs[j].emoji
  }

  /** The list is the summary of a message's rows, in some order. */
  ghost predicate Summary(rs: seq<ReactionCount>, t: set<Reaction>, m: nat) {
    DistinctEmoji(rs) &&
    (forall r :: r in rs ==> EntryFor(r, t, m)) &&
    (forall x :: x in t && x.msg == m ==> Lists(rs, x.emoji))
  }

  // ---- a summary is determined up to order ----------------------------------------------------

  function Users(r: ReactionCount): set<UserId> {
    set u | u in r.userIds
  }

  lemma {:induction false} DistinctCard<T>(s: seq<T>)
    requires Distinct(s)
    ensures |set x | x in s| == |s|
  {
    if s != [] {
      var last := s[|s| - 1];
      var front := s[..|s| - 1];
      DistinctCard(front);
      assert (set x | x in s) == (set x | x in front) + {last};
    }
  }

  /** The count is the number of distinct users, and no entry is empty. */
  lemma CountIsUsers(rs: seq<ReactionCount>, t: set<Reaction>, m: nat, r: ReactionCount)
    requires Summary(rs, t, m) && r in rs
    ensures r.count == |Users(r)| > 0
  {
    DistinctCard(r.userIds);
  }

  ghost predicate Same(a: ReactionCount, b: ReactionCount) {
    a.emoji == b.emoji && a.count == b.count && Users(a) == Users(b)
  }

  ghost predicate Within(a: seq<ReactionCount>, b: seq<ReactionCount>) {
    forall r :: r in a ==> exists s :: s in b && Same(r, s)
  }

  /** Two summaries of one table hold the same entries. */
  lemma SummariesAgree(a: seq<ReactionCount>, b: seq<ReactionCount>, t: set<Reaction>, m: nat)
    requires Summary(a, t, m) && Summary(b, t, m)
    ensures Within(a, b) && Within(b, a)
  {
    SummaryWithin(a, b, t, m);
    SummaryWithin(b, a, t, m);
  }

  lemma SummaryWithin(a: seq<ReactionCount>, b: seq<ReactionCount>, t: set<Reaction>, m: nat)
    requires Summary(a, t, m) && Summary(b, t, m)
    ensures Within(a, b)
  {
    forall r | r in a ensures exists s :: s in b && Same(r, s) {
      assert EntryFor(r, t, m) && r.userIds[0] in r.userIds;
      assert Reaction(m, r.userIds[0], r.emoji) in t;
      var s :| s in b && s.emoji == r.emoji;
      assert EntryFor(s, t, m);
      assert forall u :: u in r.userIds <==> u in s.userIds;
      assert Users(r) == Users(s);
      CountIsUsers(a, t, m, r);
      CountIsUsers(b, t, m, s);
    }
  }

  // ---- the client's toggle ----------------------------------------------------------------------

  /** The first entry for an emoji, or -1. */
  function IndexOf(rs: seq<ReactionCount>, emoji: string): (i: int)
    ensures -1 <= i < |rs|
    ensures i >= 0 ==> rs[i].emoji == emoji
    ensures i < 0 <==> !Lists(rs, emoji)
  {
    if rs == [] then -1
    else if rs[0].emoji == emoji then 0
    else
      var i := IndexOf(rs[1..], emoji);
      assert forall r :: r in rs <==> r == rs[0] || r in rs[1..];
      if i < 0 then -1 else i + 1
  }

  function Without(users: seq<UserId>, u: UserId): seq<UserId> {
    if users == [] then [] else (if users[0] == u then [] else [users[0]]) + Without(users[1..], u)
  }

  function Mine(rs: seq<ReactionCount>, emoji: string, me: UserId): bool {
    var i := IndexOf(rs, emoji);
    i >= 0 && me in rs[i].userIds
  }

  function Toggle(rs: seq<ReactionCount>, emoji: string, me: UserId): seq<ReactionCount> {
    var i := IndexOf(rs, emoji);
    if i < 0 then rs + [ReactionCount(emoji, 1, [me])]
    else if me !in rs[i].userIds then
      rs[i := rs[i].(count := rs[i].count + 1, userIds := rs[i].userIds + [me])]
    else
      var stripped := Without(rs[i].userIds, me);
      if stripped == [] then rs[..i] + rs[i + 1..]
      else rs[i := rs[i].(count := rs[i].count - 1, userIds := stripped)]
  }

  /** The request the client sends with the toggle: remove its reaction if it saw one, else add it. */
  function Requested(t: set<Reaction>, rs: seq<ReactionCount>, m: nat, emoji: string, me: UserId): set<Reaction> {
    if Mine(rs, emoji, me) then t - {Reaction(m, me, emoji)} else t + {Reaction(m, me, emoji)}
  }

  lemma {:induction false} WithoutElements(users: seq<UserId>, u: UserId)
    ensures forall v :: v in Without(users, u) <==> v in users && v != u
  {
    if users != [] {
      WithoutElements(users[1..], u);
    }
  }

  lemma {:induction false} WithoutOne(users: seq<UserId>, u: UserId)
    requires Distinct(users)
    ensures Distinct(Without(users, u))
    ensures |Without(users, u)| == |users| - if u in users then 1 else 0
  {
    if users != [] {
      WithoutOne(users[1..], u);
      WithoutElements(users[1..], u);
      var rest := Without(users[1..], u);
      assert users[0] !in users[1..];
      assert Without(users, u) == (if users[0] == u then rest else [users[0]] + rest);
    }
  }

  /** The request flips the user's own reaction on the server and no other. */
  lemma RequestFlips(rs: seq<ReactionCount>, t: set<Reaction>, m: nat, emoji: string, me: UserId, x: Reaction)
    requires Summary(rs, t, m)
    ensures x in Requested(t, rs, m, emoji, me) <==> (x in t) != (x == Reaction(m, me, emoji))
  {
    ToggleTracksServer(rs, t, m, emoji, me);
  }

  /** If the chips showed the server's state, they show it again after the toggle's request. */
  lemma ToggleTracksServer(rs: seq<ReactionCount>, t: set<Reaction>, m: nat, emoji: string, me: UserId)
    requires Summary(rs, t, m)
    ensures Mine(rs, emoji, me) <==> Reaction(m, me, emoji) in t
    ensures Summary(Toggle(rs, emoji, me), Requested(t, rs, m, emoji, me), m)
  {
    var i := IndexOf(rs, emoji);
    var row := Reaction(m, me, emoji);
    if i < 0 {
      PushTracks(rs, t, m, row);
    } else {
      assert EntryFor(rs[i], t, m);
      if row !in t {
        JoinTracks(rs, t, m, i, row);
      } else {
        WithoutOne(rs[i].userIds, me);
        WithoutElements(rs[i].userIds, me);
        if Without(rs[i].userIds, me) == [] {
          SpliceTracks(rs, t, m, i, row);
        } else {
          LeaveTracks(rs, t, m, i, row);
        }
      }
    }
  }

  lemma PushTracks(rs: seq<ReactionCount>, t: set<Reaction>, m: nat, row: Reaction)
    requires Summary(rs, t, m) && row.msg == m && !Lists(rs, row.emoji)
    ensures row !in t
    ensures Summary(rs + [ReactionCount(row.emoji, 1, [row.user])], t + {row}, m)
  {
    var added := ReactionCount(row.emoji, 1, [row.user]);
    var next := rs + [added];
    forall u ensures u in added.userIds <==> Reaction(m, u, added.emoji) in t + {row} {}
    forall r | r in next ensures EntryFor(r, t + {row}, m) {
      assert r in rs || r == added;
    }
    forall x | x in t + {row} && x.msg == m ensures Lists(next, x.emoji) {
      ListsMore(rs, next, added, x.emoji);
    }
  }

  lemma ListsMore(rs: seq<ReactionCount>, next: seq<ReactionCount>, added: ReactionCount, emoji: string)
    requires next == rs + [added] && (Lists(rs, emoji) || emoji == added.emoji)
    ensures Lists(next, emoji)
  {
    if Lists(rs, emoji) {
      var r :| r in rs && r.emoji == emoji;
      assert r in next;
    } else {
      assert added in next;
    }
  }

  /** Replacing one entry by another for the same emoji. */
  lemma UpdateTracks(
      rs: seq<ReactionCount>, t: set<Reaction>, next: set<Reaction>, m: nat, i: nat, entry: ReactionCount)
    requires Summary(rs, t, m) && i < |rs| && entry.emoji == rs[i].emoji && EntryFor(entry, next, m)
    requires forall x: Reaction :: x.emoji != entry.emoji ==> (x in t <==> x in next)
    ensures Summary(rs[i := entry], next, m)
  {
    var new_rs := rs[i := entry];
    forall r | r in new_rs ensures EntryFor(r, next, m) {
      var k :| 0 <= k < |new_rs| && new_rs[k] == r;
      if k != i {
        assert EntryFor(rs[k], t, m) && rs[k].emoji != entry.emoji;
      }
    }
    forall x | x in next && x.msg == m ensures Lists(new_rs, x.emoji) {
      if x.emoji == entry.emoji {
        assert new_rs[i] in new_rs;
      } else {
        var r :| r in rs && r.emoji == x.emoji;
        var k :| 0 <= k < |rs| && rs[k] == r;
        assert new_rs[k] in new_rs;
      }
    }
  }

  lemma JoinTracks(rs: seq<ReactionCount>, t: set<Reaction>, m: nat, i: nat, row: Reaction)
    requires Summary(rs, t, m) && row.msg == m && i < |rs| && rs[i].emoji == row.emoji && row !in t
    ensures Summary(rs[i := rs[i].(count := rs[i].count + 1, userIds := rs[i].userIds + [row.user])], t + {row}, m)
  {
    assert EntryFor(rs[i], t, m);
    UpdateTracks(rs, t, t + {row}, m, i, rs[i].(count := rs[i].count + 1, userIds := rs[i].userIds + [row.user]));
  }

  lemma LeaveTracks(rs: seq<ReactionCount>, t: set<Reaction>, m: nat, i: nat, row: Reaction)
    requires Summary(rs, t, m) && row.msg == m && i < |rs| && rs[i].emoji == row.emoji && row in t
    requires Without(rs[i].userIds, row.user) != []
    ensures Summary(rs[i := rs[i].(count := rs[i].count - 1, userIds := Without(rs[i].userIds, row.user))], t - {row}, m)
  {
    assert EntryFor(rs[i], t, m);
    WithoutOne(rs[i].userIds, row.user);
    WithoutElements(rs[i].userIds, row.user);
    UpdateTracks(rs, t, t - {row}, m, i,
                 rs[i].(count := rs[i].count - 1, userIds := Without(rs[i].userIds, row.user)));
  }

  lemma SpliceTracks(rs: seq<ReactionCount>, t: set<Reaction>, m: nat, i: nat, row: Reaction)
    requires Summary(rs, t, m) && row.msg == m && i < |rs| && rs[i].emoji == row.emoji && row in t
    requires forall u :: u in rs[i].userIds ==> u == row.user
    ensures Summary(rs[..i] + rs[i + 1..], t - {row}, m)
  {
    var next := rs[..i] + rs[i + 1..];
    assert EntryFor(rs[i], t, m);
    forall r | r in next ensures EntryFor(r, t - {row}, m) {
      var k :| 0 <= k < |next| && next[k] == r;
      var j := if k < i then k else k + 1;
      assert rs[j] == r && r.emoji != rs[i].emoji;
      assert EntryFor(r, t, m);
    }
    forall x | x in t - {row} && x.msg == m ensures Lists(next, x.emoji) {
      var r :| r in rs && r.emoji == x.emoji;
      var j :| 0 <= j < |rs| && rs[j] == r;
      assert Reaction(m, x.user, row.emoji) in t <==> x.user in rs[i].userIds;
      assert x.emoji == row.emoji ==> x == row;
      assert j != i;
      assert next[if j < i then j else j - 1] == r;
    }
  }

  /** Two toggles put every chip back, up to order. */
  lemma ToggleTwice(rs: seq<ReactionCount>, t: set<Reaction>, m: nat, emoji: string, me: UserId)
    requires Summary(rs, t, m)
    ensures var twice := Toggle(Toggle(rs, emoji, me), emoji, me);
      Summary(twice, t, m) && Within(twice, rs) && Within(rs, twice)
  {
    var once := Toggle(rs, emoji, me);
    var t1 := Requested(t, rs, m, emoji, me);
    ToggleTracksServer(rs, t, m, emoji, me);
    ToggleTracksServer(once, t1, m, emoji, me);
    assert Requested(t1, once, m, emoji, me) == t;
    SummariesAgree(Toggle(once, emoji, me), rs, t, m);
  }
}
