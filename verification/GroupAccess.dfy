/** What every run of group and channel operations keeps: the three copies of "who is in this
    group" agree, there is one owner, and the counts stay in bounds. */
module GroupAccess {
  import opened Common
  import opened GroupTables
  import opened ChannelOrder

  datatype Event =
    | Creates(owner: UserId, code: string, now: Time)
    | Joins(code: string, user: UserId, now: Time)
    | Leaves(group: GroupId, user: UserId)
    | Kicks(group: GroupId, user: UserId, code: string)
    | Rotates(group: GroupId, code: string)
    | Transfers(group: GroupId, caller: UserId, heir: UserId)
    | SetsRole(group: GroupId, user: UserId, role: int)
    | Departs(user: UserId, owned: seq<GroupId>)
    | Deletes(group: GroupId)
    | CreatesChannel(group: GroupId, position: int)
    | DeletesChannel(channel: ChannelId)
    | Reorders(group: GroupId, ids: seq<ChannelId>)

  /** A departure walks the owned groups in some order; a new channel gets the next position. */
  ghost predicate Possible(t: Tables, e: Event) {
    match e
    case Departs(user, owned) => Distinct(owned) && forall g :: g in owned <==> g in OwnedBy(t, user)
    case CreatesChannel(group, position) => IsNextPosition(t.channels, group, position)
    case _ => true
  }

  ghost function Join(t: Tables, code: string, user: UserId, now: Time): Tables {
    if !CodeTaken(t, code) then t else
      var g :| g in t.groups && t.groups[g].invite == code;
      JoinGroup(t, g, user, now)
  }

  ghost function Apply(t: Tables, e: Event): Tables
    requires Possible(t, e)
  {
    match e
    case Creates(owner, code, now) => CreateGroup(t, owner, code, now)
    case Joins(code, user, now) => Join(t, code, user, now)
    case Leaves(group, user) => Leave(t, group, user)
    case Kicks(group, user, code) => Kick(t, group, user, code)
    case Rotates(group, code) => RotateInvite(t, group, code)
    case Transfers(group, caller, heir) => TransferOwnership(t, group, caller, heir)
    case SetsRole(group, user, role) => SetMemberRole(t, group, user, role)
    case Departs(user, owned) => TransferAll(t, owned, user)
    case Deletes(group) => DeleteGroup(t, group)
    case CreatesChannel(group, position) => CreateChannel(t, group, position)
    case DeletesChannel(channel) => DeleteChannel(t, channel)
    case Reorders(group, ids) => t.(channels := Reorder(t.channels, group, ids))
  }

  ghost predicate IsRun(t: Tables, run: seq<Event>)
    decreases |run|
  {
    run == [] || (Possible(t, run[0]) && IsRun(Apply(t, run[0]), run[1..]))
  }

  ghost function After(t: Tables, run: seq<Event>): Tables
    requires IsRun(t, run)
    decreases |run|
  {
    if run == [] then t else After(Apply(t, run[0]), run[1..])
  }

  const Empty := Tables(map[], map[], map[], {}, 1, 1)

  // ---- the invariant ----------------------------------------------------------------------

  /** Foreign keys, id sequences and the UNIQUE invite code. */
  ghost predicate KeysOk(t: Tables) {
    (forall g :: g in t.groups ==> g < t.nextGroup) &&
    (forall m :: m in t.members ==> m.0 in t.groups) &&
    (forall c :: c in t.channels ==> c < t.nextChannel && t.channels[c].group in t.groups) &&
    (forall r :: r in t.readers ==> match r.0 case GroupConv(g) => g < t.nextGroup case ChannelConv(c) => c < t.nextChannel) &&
    (forall g, h :: g in t.groups && h in t.groups && t.groups[g].invite == t.groups[h].invite ==> g == h)
  }

  /** The group's members are exactly the readers of its conversation and of its channels'. */
  ghost predicate AccessAgrees(t: Tables, g: GroupId) {
    forall conv, u :: ConvOf(t, g, conv) ==> ((conv, u) in t.readers <==> IsMember(t, g, u))
  }

  /** The owner on the group row, and nobody else, has the owner's role. */
  ghost predicate OneOwner(t: Tables, g: GroupId)
    requires g in t.groups
  {
    IsMember(t, g, t.groups[g].owner) &&
    forall u :: IsMember(t, g, u) ==> (t.members[(g, u)].role == OWNER <==> u == t.groups[g].owner) && t.members[(g, u)].role <= OWNER
  }

  ghost predicate CountsOk(t: Tables, g: GroupId)
    requires g in t.groups
  {
    |MembersOf(t, g)| <= t.groups[g].memberCount <= t.groups[g].maxMembers
  }

  ghost predicate GroupOk(t: Tables, g: GroupId)
    requires g in t.groups
  {
    AccessAgrees(t, g) && OneOwner(t, g) && CountsOk(t, g) && ChannelsOf(t.channels, g) != {}
  }

  ghost predicate Sound(t: Tables) {
    KeysOk(t) && forall g :: g in t.groups && !t.groups[g].archived ==> GroupOk(t, g)
  }

  // ---- groups an operation does not touch -------------------------------------------------

  ghost predicate SameRow(t: Tables, s: Tables, g: GroupId, u: UserId) {
    (IsMember(s, g, u) <==> IsMember(t, g, u)) && (IsMember(t, g, u) ==> s.members[(g, u)] == t.members[(g, u)])
  }

  ghost predicate SameChannel(t: Tables, s: Tables, g: GroupId, c: ChannelId) {
    (c in s.channels && s.channels[c].group == g) <==> (c in t.channels && t.channels[c].group == g)
  }

  ghost predicate SameReader(t: Tables, s: Tables, conv: Conv, u: UserId) {
    (conv, u) in s.readers <==> (conv, u) in t.readers
  }

  ghost predicate Untouched(t: Tables, s: Tables, g: GroupId) {
    (g in s.groups <==> g in t.groups) && (g in t.groups ==> s.groups[g] == t.groups[g]) &&
    (forall u :: SameRow(t, s, g, u)) &&
    (forall c :: SameChannel(t, s, g, c)) &&
    (forall conv, u :: ConvOf(t, g, conv) ==> SameReader(t, s, conv, u))
  }

  lemma UntouchedStaysOk(t: Tables, s: Tables, g: GroupId)
    requires g in t.groups && GroupOk(t, g) && Untouched(t, s, g)
    ensures GroupOk(s, g)
  {
    forall u ensures u in MembersOf(s, g) <==> u in MembersOf(t, g) {
      assert SameRow(t, s, g, u);
    }
    assert MembersOf(s, g) == MembersOf(t, g);
    forall c ensures c in ChannelsOf(s.channels, g) <==> c in ChannelsOf(t.channels, g) {
      assert SameChannel(t, s, g, c);
    }
    assert ChannelsOf(s.channels, g) == ChannelsOf(t.channels, g);
    forall conv, u | ConvOf(s, g, conv) ensures (conv, u) in s.readers <==> IsMember(s, g, u) {
      assert conv.ChannelConv? ==> SameChannel(t, s, g, conv.channel);
      assert SameReader(t, s, conv, u) && SameRow(t, s, g, u);
    }
    forall u | IsMember(s, g, u)
      ensures (s.members[(g, u)].role == OWNER <==> u == s.groups[g].owner) && s.members[(g, u)].role <= OWNER
    {
      assert SameRow(t, s, g, u);
    }
    assert SameRow(t, s, g, t.groups[g].owner);
  }

  /** Sound is kept by an operation that keeps the keys, keeps group g sound, and leaves all other
      groups alone. */
  lemma SoundByOneGroup(t: Tables, s: Tables, g: GroupId)
    requires Sound(t) && KeysOk(s)
    requires g in s.groups && !s.groups[g].archived ==> GroupOk(s, g)
    requires forall h :: h != g ==> Untouched(t, s, h)
    ensures Sound(s)
  {
    forall h | h in s.groups && !s.groups[h].archived ensures GroupOk(s, h) {
      if h != g {
        assert Untouched(t, s, h);
        UntouchedStaysOk(t, s, h);
      }
    }
  }

  /** The operation works on the row, members and readers of the existing group g alone. */
  ghost predicate ChangesOnly(t: Tables, s: Tables, g: GroupId) {
    s.channels == t.channels && s.nextGroup == t.nextGroup && s.nextChannel == t.nextChannel &&
    g in t.groups && s.groups.Keys == t.groups.Keys &&
    (forall h :: h in t.groups && h != g ==> s.groups[h] == t.groups[h]) &&
    (s.groups[g].invite == t.groups[g].invite || !TakenElsewhere(t, g, s.groups[g].invite)) &&
    (!s.groups[g].archived ==> !t.groups[g].archived) &&
    (forall m :: m in s.members ==> m.0 == g || m in t.members) &&
    (forall h, u :: h != g ==> SameRow(t, s, h, u)) &&
    (forall conv, u :: !ConvOf(t, g, conv) ==> SameReader(t, s, conv, u))
  }

  lemma ChangeKeepsKeys(t: Tables, s: Tables, g: GroupId)
    requires KeysOk(t) && ChangesOnly(t, s, g)
    ensures KeysOk(s)
  {
    forall r | r in s.readers
      ensures match r.0 case GroupConv(h) => h < s.nextGroup case ChannelConv(c) => c < s.nextChannel
    {
      assert ConvOf(t, g, r.0) || SameReader(t, s, r.0, r.1);
    }
  }

  lemma ChangeLeavesOthers(t: Tables, s: Tables, g: GroupId, h: GroupId)
    requires ChangesOnly(t, s, g) && h != g
    ensures Untouched(t, s, h)
  {
    assert forall conv :: ConvOf(t, h, conv) ==> !ConvOf(t, g, conv);
  }

  lemma ChangeSound(t: Tables, s: Tables, g: GroupId)
    requires Sound(t) && ChangesOnly(t, s, g)
    requires !s.groups[g].archived ==> AccessAgrees(s, g) && OneOwner(s, g) && CountsOk(s, g)
    ensures Sound(s)
  {
    ChangeKeepsKeys(t, s, g);
    forall h | h != g ensures Untouched(t, s, h) {
      ChangeLeavesOthers(t, s, g, h);
    }
    SoundByOneGroup(t, s, g);
  }

  // ---- each operation ---------------------------------------------------------------------

  lemma JoinReaders(t: Tables, g: GroupId, u: UserId, now: Time)
    requires MayJoin(t, g, u)
    ensures forall conv, v :: (conv, v) in JoinGroup(t, g, u, now).readers <==>
      (conv, v) in t.readers || (v == u && ConvOf(t, g, conv))
  {
    var s := JoinGroup(t, g, u, now);
    forall conv, v ensures (conv, v) in s.readers <==> (conv, v) in t.readers || (v == u && ConvOf(t, g, conv)) {
      if conv.ChannelConv? {
        assert conv.channel in ChannelsOf(t.channels, g) <==> ConvOf(t, g, conv);
      }
    }
  }

  lemma JoinChanges(t: Tables, g: GroupId, u: UserId, now: Time)
    requires MayJoin(t, g, u)
    ensures ChangesOnly(t, JoinGroup(t, g, u, now), g)
  {
    JoinReaders(t, g, u, now);
  }

  lemma JoinSound(t: Tables, g: GroupId, u: UserId, now: Time)
    requires Sound(t)
    ensures Sound(JoinGroup(t, g, u, now))
  {
    var s := JoinGroup(t, g, u, now);
    if MayJoin(t, g, u) {
      JoinChanges(t, g, u, now);
      if !s.groups[g].archived {
        assert GroupOk(t, g);
        assert MembersOf(s, g) == MembersOf(t, g) + {u};
        JoinReaders(t, g, u, now);
        assert forall conv :: ConvOf(s, g, conv) <==> ConvOf(t, g, conv);
      }
      ChangeSound(t, s, g);
    }
  }

  lemma LeaveChanges(t: Tables, g: GroupId, u: UserId)
    requires MayGo(t, g, u)
    ensures ChangesOnly(t, Leave(t, g, u), g)
  {
  }

  lemma LeaveSound(t: Tables, g: GroupId, u: UserId)
    requires Sound(t)
    ensures Sound(Leave(t, g, u))
  {
    var s := Leave(t, g, u);
    if MayGo(t, g, u) {
      LeaveChanges(t, g, u);
      if !s.groups[g].archived {
        assert GroupOk(t, g);
        assert MembersOf(s, g) == MembersOf(t, g) - {u};
        assert forall conv :: ConvOf(s, g, conv) <==> ConvOf(t, g, conv);
      }
      ChangeSound(t, s, g);
    }
  }

  lemma RotateSound(t: Tables, g: GroupId, code: string)
    requires Sound(t)
    ensures Sound(RotateInvite(t, g, code))
  {
    if g in t.groups && !TakenElsewhere(t, g, code) {
      var s := RotateInvite(t, g, code);
      assert ChangesOnly(t, s, g);
      assert MembersOf(s, g) == MembersOf(t, g);
      ChangeSound(t, s, g);
    }
  }

  lemma KickSound(t: Tables, g: GroupId, u: UserId, code: string)
    requires Sound(t)
    ensures Sound(Kick(t, g, u, code))
  {
    if MayGo(t, g, u) && !TakenElsewhere(t, g, code) {
      LeaveSound(t, g, u);
      RotateSound(Leave(t, g, u), g, code);
    }
  }

  /** Only roles change, so only OneOwner has to be shown again. */
  lemma RolesSound(t: Tables, s: Tables, g: GroupId)
    requires Sound(t) && ChangesOnly(t, s, g) && s.readers == t.readers && s.members.Keys == t.members.Keys
    requires s.groups[g] == t.groups[g].(owner := s.groups[g].owner)
    requires !t.groups[g].archived ==> OneOwner(s, g)
    ensures Sound(s)
  {
    assert MembersOf(s, g) == MembersOf(t, g);
    ChangeSound(t, s, g);
  }

  lemma TransferChanges(t: Tables, g: GroupId, caller: UserId, heir: UserId)
    requires MayTransfer(t, g, caller, heir)
    ensures ChangesOnly(t, TransferOwnership(t, g, caller, heir), g)
  {
  }

  lemma TransferSound(t: Tables, g: GroupId, caller: UserId, heir: UserId)
    requires Sound(t)
    ensures Sound(TransferOwnership(t, g, caller, heir))
  {
    if MayTransfer(t, g, caller, heir) {
      TransferChanges(t, g, caller, heir);
      if !t.groups[g].archived {
        assert GroupOk(t, g);
      }
      RolesSound(t, TransferOwnership(t, g, caller, heir), g);
    }
  }

  lemma SetRoleSound(t: Tables, g: GroupId, u: UserId, role: int)
    requires Sound(t)
    ensures Sound(SetMemberRole(t, g, u, role))
  {
    if MaySetRole(t, g, u, role) {
      RolesSound(t, SetMemberRole(t, g, u, role), g);
    }
  }

  lemma TransferOneChanges(t: Tables, g: GroupId, leaving: UserId)
    requires g in t.groups
    ensures ChangesOnly(t, TransferOne(t, g, leaving), g)
  {
  }

  lemma HandedOverOk(t: Tables, g: GroupId, leaving: UserId)
    requires Sound(t) && g in t.groups && t.groups[g].owner == leaving && !TransferOne(t, g, leaving).groups[g].archived
    ensures var s := TransferOne(t, g, leaving); AccessAgrees(s, g) && OneOwner(s, g) && CountsOk(s, g)
  {
    var s := TransferOne(t, g, leaving);
    var h := HeirOf(t, g, leaving);
    assert GroupOk(t, g) && IsMember(t, g, h) && h != leaving;
    assert MembersOf(s, g) == MembersOf(t, g) - {leaving};
    assert forall conv :: ConvOf(s, g, conv) <==> ConvOf(t, g, conv);
  }

  lemma TransferOneSound(t: Tables, g: GroupId, leaving: UserId)
    requires Sound(t) && g in t.groups && t.groups[g].owner == leaving
    ensures Sound(TransferOne(t, g, leaving))
  {
    TransferOneChanges(t, g, leaving);
    if !TransferOne(t, g, leaving).groups[g].archived {
      HandedOverOk(t, g, leaving);
    }
    ChangeSound(t, TransferOne(t, g, leaving), g);
  }

  lemma CreateLeavesOthers(t: Tables, owner: UserId, code: string, now: Time, h: GroupId)
    requires KeysOk(t) && h != t.nextGroup
    ensures Untouched(t, CreateGroup(t, owner, code, now), h)
  {
  }

  lemma CreateKeepsKeys(t: Tables, owner: UserId, code: string, now: Time)
    requires KeysOk(t)
    ensures KeysOk(CreateGroup(t, owner, code, now))
  {
  }

  lemma NewGroupOk(t: Tables, owner: UserId, code: string, now: Time)
    requires KeysOk(t) && !CodeTaken(t, code)
    ensures t.nextGroup in CreateGroup(t, owner, code, now).groups
    ensures GroupOk(CreateGroup(t, owner, code, now), t.nextGroup)
  {
    var s, g := CreateGroup(t, owner, code, now), t.nextGroup;
    assert MembersOf(s, g) == {owner};
    assert t.nextChannel in ChannelsOf(s.channels, g);
    assert forall c :: c in t.channels ==> t.channels[c].group != g;
    assert forall conv :: ConvOf(s, g, conv) <==> conv == GroupConv(g) || conv == ChannelConv(t.nextChannel);
  }

  lemma CreateSound(t: Tables, owner: UserId, code: string, now: Time)
    requires Sound(t)
    ensures Sound(CreateGroup(t, owner, code, now))
  {
    var s := CreateGroup(t, owner, code, now);
    if !CodeTaken(t, code) {
      var g := t.nextGroup;
      CreateKeepsKeys(t, owner, code, now);
      forall h | h != g ensures Untouched(t, s, h) {
        CreateLeavesOthers(t, owner, code, now, h);
      }
      NewGroupOk(t, owner, code, now);
      SoundByOneGroup(t, s, g);
    }
  }

  /** Deleting a group takes its member rows but leaves every former member a reader of its
      conversation and of its channels' (the comment on the deletion says nobody is left there). */
  lemma DeleteKeepsReaders(t: Tables, g: GroupId, conv: Conv, u: UserId)
    requires Sound(t) && g in t.groups && ConvOf(t, g, conv)
    ensures !IsMember(DeleteGroup(t, g), g, u)
    ensures (conv, u) in DeleteGroup(t, g).readers <==> (conv, u) in t.readers
    ensures !t.groups[g].archived ==> ((conv, u) in DeleteGroup(t, g).readers <==> IsMember(t, g, u))
  {
    assert !t.groups[g].archived ==> GroupOk(t, g);
  }

  lemma DeleteKeepsKeys(t: Tables, g: GroupId)
    requires KeysOk(t)
    ensures KeysOk(DeleteGroup(t, g))
  {
  }

  lemma DeleteLeavesOthers(t: Tables, g: GroupId, h: GroupId)
    requires KeysOk(t) && h != g
    ensures Untouched(t, DeleteGroup(t, g), h)
  {
  }

  lemma DeleteSound(t: Tables, g: GroupId)
    requires Sound(t)
    ensures Sound(DeleteGroup(t, g))
  {
    DeleteKeepsKeys(t, g);
    forall h | h != g ensures Untouched(t, DeleteGroup(t, g), h) {
      DeleteLeavesOthers(t, g, h);
    }
    SoundByOneGroup(t, DeleteGroup(t, g), g);
  }

  lemma CreateChannelLeavesOthers(t: Tables, g: GroupId, position: int, h: GroupId)
    requires KeysOk(t) && h != g
    ensures Untouched(t, CreateChannel(t, g, position), h)
  {
  }

  lemma CreateChannelReaders(t: Tables, g: GroupId, position: int)
    requires KeysOk(t) && g in t.groups
    ensures var s := CreateChannel(t, g, position);
      forall conv, u :: (conv, u) in s.readers <==>
        if conv == ChannelConv(t.nextChannel) then IsMember(t, g, u) else (conv, u) in t.readers
  {
    assert forall u :: IsMember(t, g, u) ==> u in MembersOf(t, g);
  }

  lemma CreateChannelSound(t: Tables, g: GroupId, position: int)
    requires Sound(t)
    ensures Sound(CreateChannel(t, g, position))
  {
    var s := CreateChannel(t, g, position);
    if g in t.groups {
      CreateChannelReaders(t, g, position);
      assert KeysOk(s);
      forall h | h != g ensures Untouched(t, s, h) {
        CreateChannelLeavesOthers(t, g, position, h);
      }
      assert MembersOf(s, g) == MembersOf(t, g);
      assert t.nextChannel in ChannelsOf(s.channels, g);
      assert forall conv :: ConvOf(s, g, conv) <==> ConvOf(t, g, conv) || conv == ChannelConv(t.nextChannel);
      SoundByOneGroup(t, s, g);
    }
  }

  lemma DeleteChannelSound(t: Tables, c: ChannelId)
    requires Sound(t)
    ensures Sound(DeleteChannel(t, c))
  {
    var s := DeleteChannel(t, c);
    if MayDeleteChannel(t, c) {
      var g := t.channels[c].group;
      assert ChannelsOf(s.channels, g) == ChannelsOf(t.channels, g) - {c};
      assert |ChannelsOf(s.channels, g)| == |ChannelsOf(t.channels, g)| - 1;
      assert MembersOf(s, g) == MembersOf(t, g);
      SoundByOneGroup(t, s, g);
    }
  }

  lemma MovedChannelsSound(t: Tables, channels: Channels)
    requires Sound(t) && channels.Keys == t.channels.Keys
    requires forall c :: c in channels ==> channels[c].group == t.channels[c].group
    ensures Sound(t.(channels := channels))
  {
    var s := t.(channels := channels);
    forall h | h in s.groups && !s.groups[h].archived ensures GroupOk(s, h) {
      assert Untouched(t, s, h);
      UntouchedStaysOk(t, s, h);
    }
  }

  lemma ReorderSound(t: Tables, g: GroupId, ids: seq<ChannelId>)
    requires Sound(t)
    ensures Sound(t.(channels := Reorder(t.channels, g, ids)))
  {
    ReorderKeepsGroups(t.channels, g, ids);
    MovedChannelsSound(t, Reorder(t.channels, g, ids));
  }

  lemma {:induction false} TransferAllSound(t: Tables, owned: seq<GroupId>, leaving: UserId)
    requires Sound(t) && Distinct(owned) && forall g :: g in owned ==> g in t.groups && t.groups[g].owner == leaving
    ensures Sound(TransferAll(t, owned, leaving))
    decreases |owned|
  {
    if owned != [] {
      var s := TransferOne(t, owned[0], leaving);
      TransferOneSound(t, owned[0], leaving);
      TransferOneChanges(t, owned[0], leaving);
      forall g | g in owned[1..] ensures g in s.groups && s.groups[g].owner == leaving {
        assert g != owned[0];
      }
      TransferAllSound(s, owned[1..], leaving);
    }
  }

  lemma JoinByCodeSound(t: Tables, code: string, user: UserId, now: Time)
    requires Sound(t)
    ensures Sound(Join(t, code, user, now))
  {
    if CodeTaken(t, code) {
      var g :| g in t.groups && t.groups[g].invite == code && Join(t, code, user, now) == JoinGroup(t, g, user, now);
      JoinSound(t, g, user, now);
    }
  }

  lemma SoundStep(t: Tables, e: Event)
    requires Sound(t) && Possible(t, e)
    ensures Sound(Apply(t, e))
  {
    match e
    case Creates(owner, code, now) => CreateSound(t, owner, code, now);
    case Joins(code, user, now) => JoinByCodeSound(t, code, user, now);
    case Leaves(group, user) => LeaveSound(t, group, user);
    case Kicks(group, user, code) => KickSound(t, group, user, code);
    case Rotates(group, code) => RotateSound(t, group, code);
    case Transfers(group, caller, heir) => TransferSound(t, group, caller, heir);
    case SetsRole(group, user, role) => SetRoleSound(t, group, user, role);
    case Departs(user, owned) => TransferAllSound(t, owned, user);
    case Deletes(group) => DeleteSound(t, group);
    case CreatesChannel(group, position) => CreateChannelSound(t, group, position);
    case DeletesChannel(channel) => DeleteChannelSound(t, channel);
    case Reorders(group, ids) => ReorderSound(t, group, ids);
  }

  lemma {:induction false} AlwaysSound(t: Tables, run: seq<Event>)
    requires Sound(t) && IsRun(t, run)
    ensures Sound(After(t, run))
    decreases |run|
  {
    if run != [] {
      SoundStep(t, run[0]);
      AlwaysSound(Apply(t, run[0]), run[1..]);
    }
  }

  /** In every reachable state, for every group that is not archived: its members are exactly the
      readers of its conversation and of every existing channel's; exactly one member has the
      owner's role, the one on the group row; it has a channel; and the stored count lies between
      the number of members and the maximum. */
  lemma ReachableGroups(run: seq<Event>, g: GroupId)
    requires IsRun(Empty, run) && g in After(Empty, run).groups && !After(Empty, run).groups[g].archived
    ensures GroupOk(After(Empty, run), g)
  {
    AlwaysSound(Empty, run);
  }
}
