/** The transactions on groups and channels, statement by statement, on tables held in fields. */
module GroupStore {
  import opened Common
  import opened GroupTables
  import opened ChannelOrder
  import opened GroupAccess

  datatype Outcome = Done
    | NotFound | NotMember | AlreadyMember | GroupFull | InviteCodeInvalid | IsOwner
    | CodeClash | NotAllowed | BadRole | LastChannel

  class Store {
    var groups: map<GroupId, Group>
    var members: map<(GroupId, UserId), Member>
    var channels: map<ChannelId, Channel>
    var readers: set<(Conv, UserId)>
    var nextGroup: GroupId
    var nextChannel: ChannelId

    function View(): Tables
      reads this
    {
      Tables(groups, members, channels, readers, nextGroup, nextChannel)
    }

    constructor ()
      ensures View() == Empty
    {
      groups, members, channels, readers := map[], map[], map[], {};
      nextGroup, nextChannel := 1, 1;
    }

    method CreateGroup(owner: UserId, code: string, now: Time) returns (outcome: Outcome)
      modifies this
      ensures outcome == if CodeTaken(old(View()), code) then CodeClash else Done
      ensures View() == GroupTables.CreateGroup(old(View()), owner, code, now)
    {
      if CodeTaken(View(), code) {
        return CodeClash;
      }
      var g := nextGroup;
      nextGroup := nextGroup + 1;
      groups := groups[g := Group(owner, 1, MAX_MEMBERS, false, code)];
      members := members[(g, owner) := Member(OWNER, now)];
      readers := readers + {(GroupConv(g), owner)};
      var c := nextChannel;
      nextChannel := nextChannel + 1;
      channels := channels[c := Channel(g, 0)];
      readers := readers + {(ChannelConv(c), owner)};
      outcome := Done;
    }

    method JoinByInvite(code: string, user: UserId, now: Time) returns (outcome: Outcome)
      requires KeysOk(View())
      modifies this
      ensures outcome == InviteCodeInvalid <==> !CodeTaken(old(View()), code)
      ensures outcome == InviteCodeInvalid ==> View() == old(View())
      ensures forall g :: g in old(groups) && old(groups)[g].invite == code ==>
        View() == JoinGroup(old(View()), g, user, now) &&
        outcome == if old(groups)[g].memberCount >= old(groups)[g].maxMembers then GroupFull
                   else if IsMember(old(View()), g, user) then AlreadyMember else Done
    {
      if !CodeTaken(View(), code) {
        return InviteCodeInvalid;
      }
      var g :| g in groups && groups[g].invite == code;
      assert forall h :: h in groups && groups[h].invite == code ==> h == g;
      outcome := AddMember(g, user, now);
    }

    method AddMember(g: GroupId, user: UserId, now: Time) returns (outcome: Outcome)
      requires g in groups
      modifies this
      ensures View() == JoinGroup(old(View()), g, user, now)
      ensures outcome == if old(groups)[g].memberCount >= old(groups)[g].maxMembers then GroupFull
                         else if IsMember(old(View()), g, user) then AlreadyMember else Done
    {
      if groups[g].memberCount >= groups[g].maxMembers {
        return GroupFull;
      }
      if (g, user) in members {
        return AlreadyMember;
      }
      members := members[(g, user) := Member(PLAIN, now)];
      groups := groups[g := groups[g].(memberCount := groups[g].memberCount + 1)];
      readers := readers + {(GroupConv(g), user)};
      readers := readers + set c | c in ChannelsOf(channels, g) :: (ChannelConv(c), user);
      outcome := Done;
    }

    /** Closes the group's conversation to a user, then those of its channels. */
    method RemoveReader(g: GroupId, user: UserId)
      modifies this`readers
      ensures readers == WithoutReader(old(View()), g, user)
    {
      readers := readers - {(GroupConv(g), user)};
      var convs := set c | c in ChannelsOf(channels, g) :: ChannelConv(c);
      readers := set r | r in readers && !(r.1 == user && r.0 in convs);
    }

    method LeaveGroup(g: GroupId, user: UserId) returns (outcome: Outcome)
      modifies this
      ensures View() == Leave(old(View()), g, user)
      ensures outcome == if g !in old(groups) then NotFound
                         else if old(groups)[g].owner == user then IsOwner
                         else if !IsMember(old(View()), g, user) then NotMember else Done
      ensures outcome == Done ==> GoneFrom(old(View()), View(), g, user, old(groups)[g].invite)
      ensures outcome != Done ==> View() == old(View())
    {
      if g !in groups {
        return NotFound;
      }
      if groups[g].owner == user {
        return IsOwner;
      }
      if (g, user) !in members {
        return NotMember;
      }
      members := members - {(g, user)};
      groups := groups[g := groups[g].(memberCount := groups[g].memberCount - 1)];
      RemoveReader(g, user);
      outcome := Done;
    }

    method KickMember(g: GroupId, user: UserId, newCode: string) returns (outcome: Outcome)
      modifies this
      ensures View() == Kick(old(View()), g, user, newCode)
      ensures outcome == if g !in old(groups) then NotFound
                         else if old(groups)[g].owner == user then IsOwner
                         else if !IsMember(old(View()), g, user) then NotMember
                         else if TakenElsewhere(old(View()), g, newCode) then CodeClash else Done
      ensures outcome == Done ==> GoneFrom(old(View()), View(), g, user, newCode)
      ensures outcome != Done ==> View() == old(View())
    {
      var before := View();
      outcome := LeaveGroup(g, user);
      if outcome != Done {
        return;
      }
      TakenAfterLeave(before, g, user, newCode);
      if TakenElsewhere(View(), g, newCode) {
        groups, members, readers := before.groups, before.members, before.readers;
        return CodeClash;
      }
      groups := groups[g := groups[g].(invite := newCode)];
    }

    method RotateInviteCode(g: GroupId, code: string) returns (outcome: Outcome)
      modifies this
      ensures View() == RotateInvite(old(View()), g, code)
      ensures outcome == if g !in old(groups) then NotFound
                         else if TakenElsewhere(old(View()), g, code) then CodeClash else Done
    {
      if g !in groups {
        return NotFound;
      }
      if TakenElsewhere(View(), g, code) {
        return CodeClash;
      }
      groups := groups[g := groups[g].(invite := code)];
      outcome := Done;
    }

    method TransferOwner(g: GroupId, caller: UserId, heir: UserId) returns (outcome: Outcome)
      modifies this
      ensures View() == TransferOwnership(old(View()), g, caller, heir)
      ensures outcome == Done <==> MayTransfer(old(View()), g, caller, heir)
    {
      if heir == caller {
        return NotAllowed;
      }
      if (g, caller) !in members || members[(g, caller)].role < OWNER {
        return NotAllowed;
      }
      if (g, heir) !in members {
        return NotMember;
      }
      if g !in groups {
        return NotFound;
      }
      groups := groups[g := groups[g].(owner := heir)];
      members := members[(g, heir) := members[(g, heir)].(role := OWNER)];
      members := members[(g, caller) := members[(g, caller)].(role := ADMIN)];
      outcome := Done;
    }

    method SetRole(g: GroupId, user: UserId, role: int) returns (outcome: Outcome)
      modifies this`members
      ensures View() == SetMemberRole(old(View()), g, user, role)
      ensures outcome == Done <==> MaySetRole(old(View()), g, user, role)
    {
      if role != PLAIN && role != ADMIN {
        return BadRole;
      }
      if (g, user) !in members || members[(g, user)].role == OWNER {
        return NotMember;
      }
      members := members[(g, user) := members[(g, user)].(role := role)];
      outcome := Done;
    }

    /** The best-ranked remaining member: an admin before others, then by seniority, then by id. */
    method FindHeir(g: GroupId, leaving: UserId) returns (heir: Option<UserId>)
      ensures heir.None? <==> MembersOf(View(), g) - {leaving} == {}
      ensures heir.Some? ==> IsHeir(View(), g, leaving, heir.value)
    {
      heir := None;
      var others := MembersOf(View(), g) - {leaving};
      var left := others;
      while left != {}
        invariant left <= others
        invariant heir.None? <==> others - left == {}
        invariant heir.Some? ==> RanksFirst(View(), g, others - left, heir.value)
        decreases left
      {
        ghost var someone := SomeElement(left);
        var x :| x in left;
        ghost var seen := others - left;
        left := left - {x};
        assert others - left == seen + {x};
        if heir.None? {
          heir := Some(x);
        } else {
          RanksFirstStep(View(), g, seen, heir.value, x);
          if RanksBefore(View(), g, x, heir.value) {
            heir := Some(x);
          }
        }
      }
      assert others - {} == others;
    }

    method TransferOneGroup(g: GroupId, leaving: UserId)
      requires g in groups
      modifies this
      ensures View() == TransferOne(old(View()), g, leaving)
    {
      var heir := FindHeir(g, leaving);
      match heir {
        case None =>
          groups := groups[g := groups[g].(archived := true)];
          members := members - {(g, leaving)};
        case Some(h) =>
          HeirUnique(View(), g, leaving, h, HeirOf(View(), g, leaving));
          groups := groups[g := groups[g].(owner := h)];
          members := members[(g, h) := members[(g, h)].(role := OWNER)];
          members := members - {(g, leaving)};
          RemoveReader(g, leaving);
      }
    }

    method TransferOwnershipForLeavingUser(leaving: UserId) returns (ghost owned: seq<GroupId>)
      modifies this
      ensures Possible(old(View()), Departs(leaving, owned))
      ensures View() == TransferAll(old(View()), owned, leaving)
    {
      var ids: seq<GroupId> := [];
      var left := OwnedBy(View(), leaving);
      while left != {}
        invariant Distinct(ids) && left <= OwnedBy(View(), leaving)
        invariant forall g :: g in ids <==> g in OwnedBy(View(), leaving) - left
        decreases left
      {
        var g :| g in left;
        assert g !in ids;
        ids := ids + [g];
        left := left - {g};
      }
      owned := ids;
      ghost var start := View();
      for i := 0 to |ids|
        invariant forall g :: g in ids ==> g in groups
        invariant TransferAll(View(), ids[i..], leaving) == TransferAll(start, ids, leaving)
      {
        TransferOneChanges(View(), ids[i], leaving);
        assert ids[i..][0] == ids[i] && ids[i..][1..] == ids[i + 1..];
        TransferOneGroup(ids[i], leaving);
      }
    }

    method RemoveGroup(g: GroupId) returns (outcome: Outcome)
      modifies this
      requires KeysOk(View())
      ensures outcome == if g in old(groups) then Done else NotFound
      ensures View() == if g in old(groups) then DeleteGroup(old(View()), g) else old(View())
    {
      if g !in groups {
        return NotFound;
      }
      groups := groups - {g};
      members := map m | m in members && m.0 != g :: members[m];
      channels := map c | c in channels && channels[c].group != g :: channels[c];
      outcome := Done;
    }

    // ---- channels -----------------------------------------------------------------------

    /** One past the highest position, 0 for a group without channels. */
    method NextPosition(g: GroupId) returns (position: int)
      ensures IsNextPosition(channels, g, position)
    {
      position := 0;
      var all := ChannelsOf(channels, g);
      var left := all;
      while left != {}
        invariant left <= all
        invariant forall c :: c in all - left ==> channels[c].position < position
        invariant if left == all then position == 0 else exists c :: c in all && channels[c].position == position - 1
        decreases left
      {
        var c :| c in left;
        if left == all || channels[c].position >= position {
          position := channels[c].position + 1;
        }
        left := left - {c};
      }
    }

    method CreateChannel(g: GroupId) returns (outcome: Outcome, ghost position: int)
      modifies this
      ensures IsNextPosition(old(channels), g, position)
      ensures View() == GroupTables.CreateChannel(old(View()), g, position)
      ensures outcome == if g in old(groups) then Done else NotFound
    {
      var next := NextPosition(g);
      position := next;
      if g !in groups {
        return NotFound, position;
      }
      var c := nextChannel;
      nextChannel := nextChannel + 1;
      channels := channels[c := Channel(g, next)];
      readers := readers + set u | u in MembersOf(View(), g) :: (ChannelConv(c), u);
      outcome := Done;
    }

    method DeleteChannel(c: ChannelId) returns (outcome: Outcome)
      modifies this`channels
      ensures View() == GroupTables.DeleteChannel(old(View()), c)
      ensures outcome == if c !in old(channels) then NotFound
                         else if MayDeleteChannel(old(View()), c) then Done else LastChannel
    {
      if c !in channels {
        return NotFound;
      }
      var siblings := ChannelsOf(channels, channels[c].group);
      if |siblings| <= 1 {
        return LastChannel;
      }
      channels := channels - {c};
      outcome := Done;
    }

    method FindFirst(s: set<ChannelId>) returns (first: ChannelId)
      requires s != {} && s <= channels.Keys
      ensures ComesFirst(channels, s, first)
    {
      ghost var someone := SomeElement(s);
      first :| first in s;
      var rest := s - {first};
      assert s - rest == {first};
      while rest != {}
        invariant rest <= s && ComesFirst(channels, s - rest, first)
        decreases rest
      {
        ghost var another := SomeElement(rest);
        var d :| d in rest;
        ComesFirstStep(channels, s - rest, first, d);
        assert s - rest + {d} == s - (rest - {d});
        rest := rest - {d};
        if Before(channels, d, first) {
          first := d;
        }
      }
      assert s - {} == s;
    }

    /** The given channels by position, then id. */
    method ListChannels(s: set<ChannelId>) returns (l: seq<ChannelId>)
      requires s <= channels.Keys
      ensures l == InOrder(channels, s)
    {
      l := [];
      var left := s;
      while left != {}
        invariant left <= s
        invariant l + InOrder(channels, left) == InOrder(channels, s)
        decreases left
      {
        var first := FindFirst(left);
        InOrderHead(channels, left, first);
        MoveHead(l, first, InOrder(channels, left - {first}));
        l := l + [first];
        left := left - {first};
      }
    }

    method ListByGroup(g: GroupId) returns (l: seq<ChannelId>)
      ensures l == Listing(channels, g)
    {
      l := ListChannels(ChannelsOf(channels, g));
    }

    /** The first loop of Reorder: the requested channels get positions 0, 1, 2, ... */
    method PlaceRequested(valid: set<ChannelId>, ids: seq<ChannelId>) returns (seen: set<ChannelId>, pos: nat)
      requires valid <= channels.Keys
      modifies this`channels
      ensures var r := Requested(valid, ids);
        seen == Ids(r) && pos == |r| && channels == Placed(old(channels), r)
    {
      ghost var start := channels;
      seen := {};
      pos := 0;
      ghost var r: seq<ChannelId> := [];
      assert channels == Placed(start, r);
      for i := 0 to |ids|
        invariant r == Requested(valid, ids[..i]) && seen == Ids(r) && pos == |r|
        invariant seen <= valid
        invariant channels == Placed(start, r)
      {
        assert ids[..i + 1][..i] == ids[..i];
        if ids[i] !in valid {
          continue;
        }
        if ids[i] in seen {
          continue;
        }
        seen := seen + {ids[i]};
        PlacedAppend(start, r, ids[i]);
        channels := channels[ids[i] := channels[ids[i]].(position := pos)];
        r := r + [ids[i]];
        pos := pos + 1;
      }
      assert ids[..|ids|] == ids;
    }

    /** The second loop of Reorder: the remaining channels follow. */
    method PlaceTail(tail: seq<ChannelId>, from: nat, ghost start: Channels, ghost done: seq<ChannelId>)
      requires channels == Placed(start, done) && from == |done|
      requires Distinct(tail) && forall c :: c in tail ==> c in start && c !in done
      modifies this`channels
      ensures channels == Placed(start, done + tail)
    {
      var pos := from;
      assert done + tail[..0] == done;
      for i := 0 to |tail|
        invariant channels == Placed(start, done + tail[..i]) && pos == from + i
      {
        assert done + tail[..i + 1] == (done + tail[..i]) + [tail[i]];
        assert tail[i] in tail && tail[i] !in tail[..i];
        PlacedAppend(start, done + tail[..i], tail[i]);
        channels := channels[tail[i] := channels[tail[i]].(position := pos)];
        pos := pos + 1;
      }
      assert tail[..|tail|] == tail;
    }

    method Unseen(all: seq<ChannelId>, seen: set<ChannelId>, ghost done: seq<ChannelId>) returns (tail: seq<ChannelId>)
      requires seen == Ids(done)
      ensures tail == Without(all, done)
    {
      tail := [];
      for i := 0 to |all|
        invariant tail + Without(all[i..], done) == Without(all, done)
      {
        if all[i] !in seen {
          tail := tail + [all[i]];
        }
      }
    }

    method ReorderChannels(g: GroupId, ids: seq<ChannelId>)
      modifies this`channels
      ensures channels == Reorder(old(channels), g, ids)
    {
      if |ids| == 0 {
        return;
      }
      ghost var start := channels;
      var valid := ChannelsOf(channels, g);
      ghost var done := Requested(valid, ids);
      var seen, pos := PlaceRequested(valid, ids);
      var all := ListByGroup(g);
      var tail := Unseen(all, seen, done);
      RequestedElements(valid, ids);
      TailAfterPlacing(start, g, done, all);
      PlaceTail(tail, pos, start, done);
    }
  }

  lemma TakenAfterLeave(t: Tables, g: GroupId, user: UserId, code: string)
    ensures TakenElsewhere(Leave(t, g, user), g, code) <==> TakenElsewhere(t, g, code)
  {
    var s := Leave(t, g, user);
    assert forall h :: h != g ==> (h in s.groups <==> h in t.groups) && (h in t.groups ==> s.groups[h] == t.groups[h]);
  }

  lemma PlacedAppend(ch: Channels, order: seq<ChannelId>, c: ChannelId)
    requires c in ch && c !in order
    ensures Placed(ch, order + [c]) == Placed(ch, order)[c := ch[c].(position := |order|)]
  {
    assert (order + [c])[..|order|] == order;
    IndexOfUnique(order + [c], c, |order|);
    forall d | d in order ensures IndexOf(order + [c], d) == IndexOf(order, d) {
      IndexOfPrefix(order, c, d);
    }
  }

  /** The tail read after the first pass is the tail of the original listing. */
  lemma TailAfterPlacing(ch: Channels, g: GroupId, done: seq<ChannelId>, all: seq<ChannelId>)
    requires all == Listing(Placed(ch, done), g)
    ensures Without(all, done) == InOrder(ch, ChannelsOf(ch, g) - Ids(done))
    ensures Distinct(Without(all, done))
    ensures forall c :: c in Without(all, done) ==> c in ch && c !in done
  {
    var after := Placed(ch, done);
    var s := ChannelsOf(ch, g);
    assert ChannelsOf(after, g) == s;
    WithoutOrdered(after, s, all, done);
    WithoutElements(all, done);
    var w := Without(all, done);
    forall i, j | 0 <= i < j < |w| ensures Before(ch, w[i], w[j]) {
      assert w[i] in w && w[j] in w && Before(after, w[i], w[j]);
    }
    OrderedUnique(ch, s - Ids(done), w, InOrder(ch, s - Ids(done)));
  }

  lemma MoveHead(l: seq<ChannelId>, first: ChannelId, rest: seq<ChannelId>)
    ensures l + ([first] + rest) == (l + [first]) + rest
  {
  }

  lemma InOrderHead(ch: Channels, s: set<ChannelId>, first: ChannelId)
    requires s <= ch.Keys && ComesFirst(ch, s, first)
    ensures InOrder(ch, s) == [first] + InOrder(ch, s - {first})
  {
    assert First(ch, s) == first;
  }
}
