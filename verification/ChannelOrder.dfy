/** The order of a group's channels (channel/repo.go: Reorder, ListByGroup, Create). */
module ChannelOrder {
  import opened Common
  import opened GroupTables

  type Channels = map<ChannelId, Channel>

  /** Channels are listed by position, then id. */
  predicate Before(ch: Channels, a: ChannelId, b: ChannelId) {
    a in ch && b in ch &&
    (ch[a].position < ch[b].position || (ch[a].position == ch[b].position && a < b))
  }

  /** l lists the channels in s, each once, in order. */
  ghost predicate Ordered(ch: Channels, s: set<ChannelId>, l: seq<ChannelId>) {
    (forall c :: c in s <==> c in l) &&
    forall i, j :: 0 <= i < j < |l| ==> Before(ch, l[i], l[j])
  }

  ghost predicate ComesFirst(ch: Channels, s: set<ChannelId>, c: ChannelId) {
    c in s && forall d :: d in s && d != c ==> Before(ch, c, d)
  }

  /** One more channel either comes before the first so far or after it. */
  lemma ComesFirstStep(ch: Channels, s: set<ChannelId>, c: ChannelId, d: ChannelId)
    requires ComesFirst(ch, s, c) && c in ch && d in ch && d !in s
    ensures ComesFirst(ch, s + {d}, if Before(ch, d, c) then d else c)
  {
    if Before(ch, d, c) {
      forall e | e in s && e != c ensures Before(ch, d, e) {
        assert Before(ch, c, e);
      }
    }
  }

  lemma {:induction false} SomethingComesFirst(ch: Channels, s: set<ChannelId>)
    requires s != {} && s <= ch.Keys
    ensures exists c :: ComesFirst(ch, s, c)
  {
    var x := SomeElement(s);
    var rest := s - {x};
    assert rest + {x} == s;
    if rest == {} {
      assert ComesFirst(ch, s, x);
    } else {
      SomethingComesFirst(ch, rest);
      var c :| ComesFirst(ch, rest, c);
      ComesFirstStep(ch, rest, c, x);
    }
  }

  ghost function First(ch: Channels, s: set<ChannelId>): (c: ChannelId)
    requires s != {} && s <= ch.Keys
    ensures ComesFirst(ch, s, c)
  {
    SomethingComesFirst(ch, s);
    var c :| ComesFirst(ch, s, c);
    c
  }

  ghost function InOrder(ch: Channels, s: set<ChannelId>): (l: seq<ChannelId>)
    requires s <= ch.Keys
    ensures Ordered(ch, s, l)
    decreases |s|
  {
    if s == {} then [] else
      var c := First(ch, s);
      [c] + InOrder(ch, s - {c})
  }

  lemma EmptyListing(ch: Channels, s: set<ChannelId>, l: seq<ChannelId>)
    requires Ordered(ch, s, l)
    ensures l == [] <==> s == {}
  {
    assert l == [] || l[0] in l;
  }

  lemma HeadFirst(ch: Channels, s: set<ChannelId>, l: seq<ChannelId>, c: ChannelId)
    requires Ordered(ch, s, l) && c in s
    ensures l != [] && (c == l[0] || Before(ch, l[0], c))
  {
    var i :| 0 <= i < |l| && l[i] == c;
  }

  /** There is only one ordered listing. */
  lemma {:induction false} OrderedUnique(ch: Channels, s: set<ChannelId>, l: seq<ChannelId>, m: seq<ChannelId>)
    requires Ordered(ch, s, l) && Ordered(ch, s, m)
    ensures l == m
    decreases |l|
  {
    EmptyListing(ch, s, l);
    EmptyListing(ch, s, m);
    if l != [] {
      assert l[0] in s && m[0] in s;
      HeadFirst(ch, s, l, m[0]);
      HeadFirst(ch, s, m, l[0]);
      TailOrdered(ch, s, l);
      TailOrdered(ch, s, m);
      OrderedUnique(ch, s - {l[0]}, l[1..], m[1..]);
    }
  }

  lemma TailOrdered(ch: Channels, s: set<ChannelId>, l: seq<ChannelId>)
    requires Ordered(ch, s, l) && l != []
    ensures Ordered(ch, s - {l[0]}, l[1..])
  {
    forall c ensures c in s - {l[0]} <==> c in l[1..] {
      if c in l[1..] {
        var i :| 0 <= i < |l[1..]| && l[1..][i] == c;
        assert l[i + 1] == c && Before(ch, l[0], l[i + 1]);
      }
    }
  }

  ghost function Listing(ch: Channels, g: GroupId): seq<ChannelId> {
    InOrder(ch, ChannelsOf(ch, g))
  }

  /** The valid ids of a request, each at its first mention. */
  function Requested(valid: set<ChannelId>, ids: seq<ChannelId>): seq<ChannelId> {
    if ids == [] then [] else
      var (r, x) := (Requested(valid, ids[..|ids| - 1]), ids[|ids| - 1]);
      if x in valid && x !in r then r + [x] else r
  }

  function Ids(l: seq<ChannelId>): set<ChannelId> {
    set c | c in l
  }

  function Without(l: seq<ChannelId>, r: seq<ChannelId>): seq<ChannelId> {
    if l == [] then [] else (if l[0] in r then [] else [l[0]]) + Without(l[1..], r)
  }

  function IndexOf(l: seq<ChannelId>, c: ChannelId): (i: nat)
    requires c in l
    ensures i < |l| && l[i] == c && c !in l[..i]
  {
    if l[0] == c then 0 else 1 + IndexOf(l[1..], c)
  }

  /** Positions are rewritten along `order`. */
  function Placed(ch: Channels, order: seq<ChannelId>): Channels {
    map c | c in ch :: if c in order then ch[c].(position := IndexOf(order, c)) else ch[c]
  }

  ghost function NewOrder(ch: Channels, g: GroupId, ids: seq<ChannelId>): seq<ChannelId> {
    var r := Requested(ChannelsOf(ch, g), ids);
    r + InOrder(ch, ChannelsOf(ch, g) - Ids(r))
  }

  ghost function Reorder(ch: Channels, g: GroupId, ids: seq<ChannelId>): Channels {
    if ids == [] then ch else Placed(ch, NewOrder(ch, g, ids))
  }

  // ---- what Reorder achieves --------------------------------------------------------------

  lemma {:induction false} RequestedElements(valid: set<ChannelId>, ids: seq<ChannelId>)
    ensures var r := Requested(valid, ids);
      Distinct(r) && forall c :: c in r <==> c in ids && c in valid
  {
    if ids != [] {
      var front := ids[..|ids| - 1];
      RequestedElements(valid, front);
      assert ids == front + [ids[|ids| - 1]];
    }
  }

  /** Requested channels keep the order in which the request first mentions them. */
  lemma {:induction false} RequestedOrder(valid: set<ChannelId>, ids: seq<ChannelId>, i: nat, j: nat)
    requires i < j < |Requested(valid, ids)|
    ensures var r := Requested(valid, ids);
      r[i] in ids && r[j] in ids && IndexOf(ids, r[i]) < IndexOf(ids, r[j])
  {
    var r := Requested(valid, ids);
    RequestedElements(valid, ids);
    var front, x := ids[..|ids| - 1], ids[|ids| - 1];
    var rf := Requested(valid, front);
    RequestedElements(valid, front);
    assert ids == front + [x];
    assert r[i] in front by { assert rf[i] == r[i] && rf[i] in rf; }
    IndexOfPrefix(front, x, r[i]);
    if j < |rf| {
      RequestedOrder(valid, front, i, j);
      IndexOfPrefix(front, x, r[j]);
    } else {
      assert r[j] == x && x !in front;
    }
  }

  lemma {:induction false} IndexOfUnique(l: seq<ChannelId>, c: ChannelId, i: nat)
    requires i < |l| && l[i] == c && c !in l[..i]
    ensures c in l && IndexOf(l, c) == i
  {
    if i > 0 {
      assert l[0] in l[..i] && l[1..][..i - 1] == l[..i][1..];
      IndexOfUnique(l[1..], c, i - 1);
    }
  }

  lemma IndexOfPrefix(front: seq<ChannelId>, x: ChannelId, c: ChannelId)
    requires c in front
    ensures c in front + [x] && IndexOf(front + [x], c) == IndexOf(front, c)
  {
    var k := IndexOf(front, c);
    assert (front + [x])[..k] == front[..k];
    IndexOfUnique(front + [x], c, k);
  }

  lemma {:induction false} WithoutElements(l: seq<ChannelId>, r: seq<ChannelId>)
    ensures forall c :: c in Without(l, r) <==> c in l && c !in r
  {
    if l != [] {
      WithoutElements(l[1..], r);
    }
  }

  lemma {:induction false} WithoutOrdered(ch: Channels, s: set<ChannelId>, l: seq<ChannelId>, r: seq<ChannelId>)
    requires Ordered(ch, s, l)
    ensures Ordered(ch, s - Ids(r), Without(l, r))
  {
    WithoutElements(l, r);
    if l != [] {
      TailOrdered(ch, s, l);
      WithoutOrdered(ch, s - {l[0]}, l[1..], r);
      WithoutElements(l[1..], r);
      var w := Without(l[1..], r);
      if l[0] !in r {
        forall j | 0 <= j < |w| ensures Before(ch, l[0], w[j]) {
          assert w[j] in l[1..];
          var k :| 0 <= k < |l[1..]| && l[1..][k] == w[j];
          assert l[k + 1] == w[j];
        }
      }
    }
  }

  /** Channels the request does not name keep their relative order. */
  lemma TailKeepsOrder(ch: Channels, g: GroupId, r: seq<ChannelId>)
    ensures InOrder(ch, ChannelsOf(ch, g) - Ids(r)) == Without(Listing(ch, g), r)
  {
    var s := ChannelsOf(ch, g);
    WithoutOrdered(ch, s, Listing(ch, g), r);
    OrderedUnique(ch, s - Ids(r), InOrder(ch, s - Ids(r)), Without(Listing(ch, g), r));
  }

  lemma OrderedDistinct(ch: Channels, s: set<ChannelId>, l: seq<ChannelId>)
    requires Ordered(ch, s, l)
    ensures Distinct(l)
  {
  }

  lemma NewOrderElements(ch: Channels, g: GroupId, ids: seq<ChannelId>)
    ensures Distinct(NewOrder(ch, g, ids))
    ensures forall c :: c in NewOrder(ch, g, ids) <==> c in ChannelsOf(ch, g)
  {
    var s := ChannelsOf(ch, g);
    var r := Requested(s, ids);
    RequestedElements(s, ids);
    var tail := InOrder(ch, s - Ids(r));
    OrderedDistinct(ch, s - Ids(r), tail);
    assert forall c :: c in r + tail <==> c in r || c in tail;
    forall i, j | 0 <= i < |r| && 0 <= j < |tail| ensures r[i] != tail[j] {
      assert r[i] in r && tail[j] in tail;
    }
  }

  lemma PositionIsIndex(order: seq<ChannelId>, i: nat)
    requires Distinct(order) && i < |order|
    ensures IndexOf(order, order[i]) == i
  {
    IndexOfUnique(order, order[i], i);
  }

  lemma PlacedInOrder(ch: Channels, order: seq<ChannelId>)
    requires Distinct(order) && Ids(order) <= ch.Keys
    ensures Ordered(Placed(ch, order), Ids(order), order)
    ensures forall i :: 0 <= i < |order| ==> Placed(ch, order)[order[i]].position == i
  {
    forall i | 0 <= i < |order| ensures order[i] in ch && Placed(ch, order)[order[i]].position == i {
      assert order[i] in Ids(order);
      PositionIsIndex(order, i);
    }
  }

  lemma ReorderKeepsGroups(ch: Channels, g: GroupId, ids: seq<ChannelId>)
    ensures Reorder(ch, g, ids).Keys == ch.Keys
    ensures forall c :: c in ch ==> Reorder(ch, g, ids)[c].group == ch[c].group
  {
  }

  /** After a non-empty Reorder the group lists the requested channels, each once and in the order
      first mentioned, then all others in their old order; positions are exactly 0, 1, 2, ...;
      channels of other groups are untouched. */
  lemma ReorderLists(ch: Channels, g: GroupId, ids: seq<ChannelId>)
    requires ids != []
    ensures var after := Reorder(ch, g, ids);
      var r := Requested(ChannelsOf(ch, g), ids);
      && Listing(after, g) == r + Without(Listing(ch, g), r)
      && (forall i :: 0 <= i < |Listing(after, g)| ==> after[Listing(after, g)[i]].position == i)
      && after.Keys == ch.Keys
      && (forall c :: c in ch ==> after[c].group == ch[c].group)
      && (forall c :: c in ch && ch[c].group != g ==> after[c] == ch[c])
  {
    var after := Reorder(ch, g, ids);
    var s := ChannelsOf(ch, g);
    var order := NewOrder(ch, g, ids);
    NewOrderElements(ch, g, ids);
    TailKeepsOrder(ch, g, Requested(s, ids));
    PlacedInOrder(ch, order);
    assert ChannelsOf(after, g) == s;
    assert Ids(order) == s;
    OrderedUnique(after, s, order, Listing(after, g));
  }

  /** A new channel goes to the end of the list. */
  lemma CreateAppends(t: Tables, g: GroupId, position: int)
    requires g in t.groups && t.nextChannel !in t.channels && IsNextPosition(t.channels, g, position)
    ensures Listing(CreateChannel(t, g, position).channels, g) == Listing(t.channels, g) + [t.nextChannel]
  {
    var after := CreateChannel(t, g, position).channels;
    var l := Listing(t.channels, g);
    var c := t.nextChannel;
    assert ChannelsOf(after, g) == ChannelsOf(t.channels, g) + {c};
    forall i | 0 <= i < |l| ensures Before(after, l[i], c) {
      assert l[i] in ChannelsOf(t.channels, g);
    }
    assert Ordered(after, ChannelsOf(after, g), l + [c]);
    OrderedUnique(after, ChannelsOf(after, g), l + [c], Listing(after, g));
  }
}
