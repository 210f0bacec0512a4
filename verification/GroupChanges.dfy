/** Exactly what each group event does: who is in, with which role, which group rows there are, and
    who may read what. */
module GroupChanges {
  import opened Common
  import opened GroupTables
  import opened ChannelOrder
  import opened GroupAccess
  import opened Succession

  // ---- who comes and goes ---------------------------------------------------------------------

  /** Somebody else is using the code. */
  ghost predicate Elsewhere(t: Tables, g: GroupId, code: string) {
    exists h :: h in t.groups && h != g && t.groups[h].invite == code
  }

  ghost predicate Founds(t: Tables, e: Event) {
    e.Creates? && forall g :: g in t.groups ==> t.groups[g].invite != e.code
  }

  /** The invite code is the group's, there is room, and the user is not in yet. */
  ghost predicate LetsIn(t: Tables, e: Event, g: GroupId) {
    e.Joins? && g in t.groups && t.groups[g].invite == e.code && t.groups[g].memberCount < t.groups[g].maxMembers &&
    !IsMember(t, g, e.user)
  }

  /** A member who is not the owner leaves, or is kicked with a code not in use. */
  ghost predicate LetsOut(t: Tables, e: Event, g: GroupId) {
    (e.Leaves? || (e.Kicks? && !Elsewhere(t, g, e.code))) && e.group == g && g in t.groups &&
    IsMember(t, g, e.user) && t.groups[g].owner != e.user
  }

  ghost predicate LosesOwner(t: Tables, e: Event, g: GroupId) {
    e.Departs? && g in t.groups && t.groups[g].owner == e.user
  }

  /** The owner passes the group to another member. */
  ghost predicate HandsOver(t: Tables, e: Event, g: GroupId) {
    e.Transfers? && e.group == g && g in t.groups && e.heir != e.caller && IsMember(t, g, e.heir) &&
    IsMember(t, g, e.caller) && t.members[(g, e.caller)].role >= OWNER
  }

  function RowOf(t: Tables, g: GroupId, u: UserId): Option<Member> {
    if (g, u) in t.members then Some(t.members[(g, u)]) else None
  }

  /** The role a member has after an event. */
  ghost function RoleNext(t: Tables, e: Event, g: GroupId, u: UserId): int
    requires IsMember(t, g, u)
  {
    var role := t.members[(g, u)].role;
    if HandsOver(t, e, g) && u == e.heir then OWNER
    else if HandsOver(t, e, g) && u == e.caller then ADMIN
    else if e.SetsRole? && (e.group, e.user) == (g, u) && 0 <= e.role <= 1 && role != OWNER then e.role
    else if LosesOwner(t, e, g) && IsHeir(t, g, e.user, u) then OWNER
    else role
  }

  /** A user's member row after an event: new ones start as owner or plain member, and one that stays
      keeps its date. */
  ghost function RowNext(t: Tables, e: Event, g: GroupId, u: UserId): Option<Member> {
    if Founds(t, e) && g == t.nextGroup && u == e.owner then Some(Member(OWNER, e.now))
    else if LetsIn(t, e, g) && u == e.user then Some(Member(PLAIN, e.now))
    else if !IsMember(t, g, u) || (LetsOut(t, e, g) && u == e.user) || (LosesOwner(t, e, g) && u == e.user) ||
            (e.Deletes? && e.group == g) then None
    else Some(t.members[(g, u)].(role := RoleNext(t, e, g, u)))
  }

  // ---- departures, group by group ---------------------------------------------------------------

  lemma SameHeir(t: Tables, s: Tables, g: GroupId, leaving: UserId)
    requires Untouched(t, s, g)
    ensures MembersOf(s, g) == MembersOf(t, g)
    ensures forall h :: IsHeir(s, g, leaving, h) <==> IsHeir(t, g, leaving, h)
  {
    forall u ensures u in MembersOf(s, g) <==> u in MembersOf(t, g) {
      assert SameRow(t, s, g, u);
    }
    forall a, b ensures RanksBefore(s, g, a, b) <==> RanksBefore(t, g, a, b) {
      assert SameRow(t, s, g, a) && SameRow(t, s, g, b);
    }
  }

  /** One group is handed on in the same way before and after changes elsewhere. */
  lemma TransferOneAlike(t: Tables, s: Tables, g: GroupId, leaving: UserId)
    requires Untouched(t, s, g) && g in t.groups && s.channels == t.channels
    ensures Untouched(TransferOne(t, g, leaving), TransferOne(s, g, leaving), g)
  {
    var t', s' := TransferOne(t, g, leaving), TransferOne(s, g, leaving);
    SameHeir(t, s, g, leaving);
    if MembersOf(t, g) - {leaving} != {} {
      HeirUnique(t, g, leaving, HeirOf(t, g, leaving), HeirOf(s, g, leaving));
    }
    forall u ensures SameRow(t', s', g, u) {
      assert SameRow(t, s, g, u);
    }
    forall conv, u | ConvOf(t', g, conv) ensures SameReader(t', s', conv, u) {
      assert ConvOf(t, g, conv) && SameReader(t, s, conv, u);
    }
  }

  /** In a departure every owned group fares as if it were handed on alone. */
  lemma {:induction false} EachAsAlone(t: Tables, owned: seq<GroupId>, leaving: UserId, g: GroupId)
    requires Distinct(owned) && (forall h :: h in owned ==> h in t.groups) && g in owned
    ensures Untouched(TransferOne(t, g, leaving), TransferAll(t, owned, leaving), g)
    decreases |owned|
  {
    var first, mid, s := owned[0], TransferOne(t, owned[0], leaving), TransferAll(t, owned, leaving);
    TransferOneChanges(t, first, leaving);
    assert first !in owned[1..];
    if g == first {
      AllHandedOn(mid, owned[1..], leaving);
    } else {
      assert g in owned[1..];
      EachAsAlone(mid, owned[1..], leaving, g);
      ChangeLeavesOthers(t, mid, first, g);
      TransferOneAlike(t, mid, g, leaving);
      TransferOneChanges(t, g, leaving);
      TransferOneChanges(mid, g, leaving);
      UntouchedTransitive(TransferOne(t, g, leaving), TransferOne(mid, g, leaving), s, g);
    }
  }

  lemma DepartureAt(t: Tables, e: Event, g: GroupId)
    requires Possible(t, e) && e.Departs?
    ensures LosesOwner(t, e, g) ==> Untouched(TransferOne(t, g, e.user), Apply(t, e), g)
    ensures !LosesOwner(t, e, g) ==> Untouched(t, Apply(t, e), g)
  {
    if LosesOwner(t, e, g) {
      EachAsAlone(t, e.owned, e.user, g);
    } else {
      AllHandedOn(t, e.owned, e.user);
    }
  }

  // ---- member rows --------------------------------------------------------------------------------

  lemma JoinOf(t: Tables, e: Event)
    requires KeysOk(t) && e.Joins?
    ensures Join(t, e.code, e.user, e.now) == t ||
      exists g :: LetsIn(t, e, g) && Join(t, e.code, e.user, e.now) == JoinGroup(t, g, e.user, e.now)
    ensures forall g :: LetsIn(t, e, g) ==> Join(t, e.code, e.user, e.now) == JoinGroup(t, g, e.user, e.now)
  {
    if CodeTaken(t, e.code) {
      var g :| g in t.groups && t.groups[g].invite == e.code && Join(t, e.code, e.user, e.now) == JoinGroup(t, g, e.user, e.now);
      assert LetsIn(t, e, g) <==> MayJoin(t, g, e.user);
    }
  }

  lemma JoinRows(t: Tables, e: Event, g: GroupId, u: UserId)
    requires KeysOk(t) && e.Joins?
    ensures RowOf(Join(t, e.code, e.user, e.now), g, u) == RowNext(t, e, g, u)
  {
    JoinOf(t, e);
    var s := Join(t, e.code, e.user, e.now);
    if LetsIn(t, e, g) {
      assert s == JoinGroup(t, g, e.user, e.now) && MayJoin(t, g, e.user);
    } else if s != t {
      var h :| LetsIn(t, e, h) && s == JoinGroup(t, h, e.user, e.now);
      assert h != g;
    }
  }

  lemma DepartureRows(t: Tables, e: Event, g: GroupId, u: UserId)
    requires Possible(t, e) && e.Departs?
    ensures RowOf(Apply(t, e), g, u) == RowNext(t, e, g, u)
  {
    DepartureAt(t, e, g);
    if LosesOwner(t, e, g) {
      assert SameRow(TransferOne(t, g, e.user), Apply(t, e), g, u);
      assert MembersOf(t, g) - {e.user} == {} ==> !IsHeir(t, g, e.user, u);
      if MembersOf(t, g) - {e.user} != {} && IsHeir(t, g, e.user, u) {
        HeirUnique(t, g, e.user, u, HeirOf(t, g, e.user));
      }
    } else {
      assert SameRow(t, Apply(t, e), g, u);
    }
  }

  lemma KickIs(t: Tables, e: Event)
    requires e.Kicks?
    ensures Kick(t, e.group, e.user, e.code) == (
      if !LetsOut(t, e, e.group) then t
      else var s := Leave(t, e.group, e.user);
        s.(groups := s.groups[e.group := s.groups[e.group].(invite := e.code)]))
  {
    assert TakenElsewhere(t, e.group, e.code) <==> Elsewhere(t, e.group, e.code);
    var s := Leave(t, e.group, e.user);
    assert forall h :: h != e.group ==> (h in s.groups <==> h in t.groups) && (h in t.groups ==> s.groups[h] == t.groups[h]);
    assert TakenElsewhere(s, e.group, e.code) <==> TakenElsewhere(t, e.group, e.code);
  }

  lemma ExitRows(t: Tables, e: Event, g: GroupId, u: UserId)
    requires e.Leaves? || e.Kicks?
    requires Possible(t, e)
    ensures RowOf(Apply(t, e), g, u) == RowNext(t, e, g, u)
  {
    if e.Kicks? {
      KickIs(t, e);
    }
  }

  lemma RoleRows(t: Tables, e: Event, g: GroupId, u: UserId)
    requires e.Transfers? || e.SetsRole?
    requires Possible(t, e)
    ensures RowOf(Apply(t, e), g, u) == RowNext(t, e, g, u)
  {
  }

  lemma CreatedRows(t: Tables, e: Event, g: GroupId, u: UserId)
    requires KeysOk(t) && e.Creates?
    ensures RowOf(CreateGroup(t, e.owner, e.code, e.now), g, u) == RowNext(t, e, g, u)
  {
    assert CodeTaken(t, e.code) <==> !Founds(t, e);
  }

  lemma OtherRows(t: Tables, e: Event, g: GroupId, u: UserId)
    requires Possible(t, e)
    requires e.Rotates? || e.Deletes? || e.CreatesChannel? || e.DeletesChannel? || e.Reorders?
    ensures RowOf(Apply(t, e), g, u) == RowNext(t, e, g, u)
  {
  }

  /** Every user's row in every group after any event. */
  lemma MembersChangeExactly(t: Tables, e: Event, g: GroupId, u: UserId)
    requires KeysOk(t) && Possible(t, e)
    ensures RowOf(Apply(t, e), g, u) == RowNext(t, e, g, u)
  {
    match e
    case Joins(_, _, _) => JoinRows(t, e, g, u);
    case Departs(_, _) => DepartureRows(t, e, g, u);
    case Leaves(_, _) => ExitRows(t, e, g, u);
    case Kicks(_, _, _) => ExitRows(t, e, g, u);
    case Transfers(_, _, _) => RoleRows(t, e, g, u);
    case SetsRole(_, _, _) => RoleRows(t, e, g, u);
    case Creates(_, _, _) => CreatedRows(t, e, g, u);
    case _ => OtherRows(t, e, g, u);
  }

  // ---- group rows -----------------------------------------------------------------------------------

  function GroupOf(t: Tables, g: GroupId): Option<Group> {
    if g in t.groups then Some(t.groups[g]) else None
  }

  ghost predicate Abandoned(t: Tables, e: Event, g: GroupId) {
    LosesOwner(t, e, g) && forall u :: IsMember(t, g, u) ==> u == e.user
  }

  ghost function OwnerNext(t: Tables, e: Event, g: GroupId): UserId
    requires g in t.groups
  {
    if HandsOver(t, e, g) then e.heir
    else if LosesOwner(t, e, g) && !Abandoned(t, e, g) then
      assert MembersOf(t, g) - {e.user} != {} by {
        var u :| IsMember(t, g, u) && u != e.user;
        assert u in MembersOf(t, g) - {e.user};
      }
      HeirOf(t, g, e.user)
    else t.groups[g].owner
  }

  ghost predicate Recodes(t: Tables, e: Event, g: GroupId) {
    (e.Kicks? && LetsOut(t, e, g)) || (e.Rotates? && e.group == g && !Elsewhere(t, g, e.code))
  }

  /** A group's row after an event. */
  ghost function GroupNext(t: Tables, e: Event, g: GroupId): Option<Group> {
    if Founds(t, e) && g == t.nextGroup then Some(Group(e.owner, 1, 500, false, e.code))
    else if g !in t.groups || (e.Deletes? && e.group == g) then None
    else
      var row := t.groups[g];
      Some(Group(OwnerNext(t, e, g),
                 row.memberCount + (if LetsIn(t, e, g) then 1 else if LetsOut(t, e, g) then -1 else 0),
                 row.maxMembers,
                 row.archived || Abandoned(t, e, g),
                 if Recodes(t, e, g) then e.code else row.invite))
  }

  lemma DepartureGroups(t: Tables, e: Event, g: GroupId)
    requires Possible(t, e) && e.Departs?
    ensures GroupOf(Apply(t, e), g) == GroupNext(t, e, g)
  {
    DepartureAt(t, e, g);
    if LosesOwner(t, e, g) {
      if MembersOf(t, g) - {e.user} == {} {
        forall u | IsMember(t, g, u) ensures u == e.user {
          assert u in MembersOf(t, g) && u !in MembersOf(t, g) - {e.user};
        }
        assert Abandoned(t, e, g);
      } else {
        var u := SomeElement(MembersOf(t, g) - {e.user});
        assert IsMember(t, g, u) && !Abandoned(t, e, g);
      }
    }
  }

  lemma JoinGroups(t: Tables, e: Event, g: GroupId)
    requires KeysOk(t) && e.Joins?
    ensures GroupOf(Join(t, e.code, e.user, e.now), g) == GroupNext(t, e, g)
  {
    JoinOf(t, e);
    var s := Join(t, e.code, e.user, e.now);
    if LetsIn(t, e, g) {
      assert s == JoinGroup(t, g, e.user, e.now) && MayJoin(t, g, e.user);
    } else if s != t {
      var h :| LetsIn(t, e, h) && s == JoinGroup(t, h, e.user, e.now);
      assert h != g;
    }
  }

  lemma ExitGroups(t: Tables, e: Event, g: GroupId)
    requires e.Leaves? || e.Kicks?
    requires Possible(t, e)
    ensures GroupOf(Apply(t, e), g) == GroupNext(t, e, g)
  {
    if e.Kicks? {
      KickIs(t, e);
    }
  }

  lemma RotatedGroups(t: Tables, e: Event, g: GroupId)
    requires e.Rotates?
    ensures GroupOf(RotateInvite(t, e.group, e.code), g) == GroupNext(t, e, g)
  {
    assert TakenElsewhere(t, e.group, e.code) <==> Elsewhere(t, e.group, e.code);
  }

  lemma OtherGroups(t: Tables, e: Event, g: GroupId)
    requires KeysOk(t) && Possible(t, e) && !e.Joins? && !e.Leaves? && !e.Kicks? && !e.Rotates? && !e.Departs?
    ensures GroupOf(Apply(t, e), g) == GroupNext(t, e, g)
  {
    if e.Creates? {
      assert CodeTaken(t, e.code) <==> !Founds(t, e);
    }
  }

  /** Every group's row after any event: owner, stored count, archive flag and invite code. */
  lemma GroupsChangeExactly(t: Tables, e: Event, g: GroupId)
    requires KeysOk(t) && Possible(t, e)
    ensures GroupOf(Apply(t, e), g) == GroupNext(t, e, g)
  {
    match e
    case Joins(_, _, _) => JoinGroups(t, e, g);
    case Departs(_, _) => DepartureGroups(t, e, g);
    case Leaves(_, _) => ExitGroups(t, e, g);
    case Kicks(_, _, _) => ExitGroups(t, e, g);
    case Rotates(_, _) => RotatedGroups(t, e, g);
    case _ => OtherGroups(t, e, g);
  }

  // ---- readers ----------------------------------------------------------------------------------------

  /** The event opens the conversation to the user: at the group's or the channel's creation, or on joining. */
  ghost predicate OpensTo(t: Tables, e: Event, conv: Conv, u: UserId) {
    (Founds(t, e) && u == e.owner && (conv == GroupConv(t.nextGroup) || conv == ChannelConv(t.nextChannel))) ||
    (e.Joins? && u == e.user && exists g :: LetsIn(t, e, g) && ConvOf(t, g, conv)) ||
    (e.CreatesChannel? && e.group in t.groups && conv == ChannelConv(t.nextChannel) && IsMember(t, e.group, u))
  }

  /** The event closes it: on leaving, on being kicked, or on the owner's departure with an heir. */
  ghost predicate ClosesTo(t: Tables, e: Event, conv: Conv, u: UserId) {
    exists g :: ConvOf(t, g, conv) &&
      ((LetsOut(t, e, g) && u == e.user) || (LosesOwner(t, e, g) && u == e.user && !Abandoned(t, e, g)))
  }

  lemma {:induction false} DepartureReaders(t: Tables, owned: seq<GroupId>, leaving: UserId, conv: Conv, u: UserId)
    requires Distinct(owned) && forall g :: g in owned ==> g in t.groups
    ensures (conv, u) in TransferAll(t, owned, leaving).readers <==>
      (conv, u) in t.readers &&
      !(u == leaving && exists g :: g in owned && ConvOf(t, g, conv) && MembersOf(t, g) - {leaving} != {})
    decreases |owned|
  {
    if owned != [] {
      var first, mid := owned[0], TransferOne(t, owned[0], leaving);
      TransferOneChanges(t, first, leaving);
      DepartureReaders(mid, owned[1..], leaving, conv, u);
      forall g | g != first ensures MembersOf(mid, g) == MembersOf(t, g) && (ConvOf(mid, g, conv) <==> ConvOf(t, g, conv)) {
        ChangeLeavesOthers(t, mid, first, g);
        SameHeir(t, mid, g, leaving);
      }
      assert forall g :: g in owned <==> g == first || g in owned[1..];
      assert first !in owned[1..];
    }
  }

  lemma DepartsReaders(t: Tables, e: Event, conv: Conv, u: UserId)
    requires Possible(t, e) && e.Departs?
    ensures (conv, u) in Apply(t, e).readers <==> (conv, u) in t.readers && !ClosesTo(t, e, conv, u)
  {
    DepartureReaders(t, e.owned, e.user, conv, u);
    forall g | LosesOwner(t, e, g) ensures Abandoned(t, e, g) <==> MembersOf(t, g) - {e.user} == {} {
      if MembersOf(t, g) - {e.user} != {} {
        var v := SomeElement(MembersOf(t, g) - {e.user});
        assert IsMember(t, g, v);
      } else {
        forall v | IsMember(t, g, v) ensures v == e.user {
          assert v in MembersOf(t, g) && v !in MembersOf(t, g) - {e.user};
        }
      }
    }
    assert forall g :: g in e.owned <==> LosesOwner(t, e, g);
  }

  lemma JoinsReaders(t: Tables, e: Event, conv: Conv, u: UserId)
    requires KeysOk(t) && e.Joins?
    ensures (conv, u) in Join(t, e.code, e.user, e.now).readers <==> (conv, u) in t.readers || OpensTo(t, e, conv, u)
  {
    JoinOf(t, e);
    var s := Join(t, e.code, e.user, e.now);
    if g :| LetsIn(t, e, g) {
      assert s == JoinGroup(t, g, e.user, e.now) && MayJoin(t, g, e.user);
      JoinReaders(t, g, e.user, e.now);
      assert forall h :: LetsIn(t, e, h) ==> h == g;
    }
  }

  lemma ExitReaders(t: Tables, e: Event, conv: Conv, u: UserId)
    requires e.Leaves? || e.Kicks?
    requires Possible(t, e)
    ensures (conv, u) in Apply(t, e).readers <==> (conv, u) in t.readers && !ClosesTo(t, e, conv, u)
  {
    if e.Kicks? {
      KickIs(t, e);
    }
    assert ClosesTo(t, e, conv, u) <==> LetsOut(t, e, e.group) && u == e.user && ConvOf(t, e.group, conv);
  }

  lemma OtherReaders(t: Tables, e: Event, conv: Conv, u: UserId)
    requires KeysOk(t) && Possible(t, e) && !e.Joins? && !e.Leaves? && !e.Kicks? && !e.Departs?
    ensures (conv, u) in Apply(t, e).readers <==> (conv, u) in t.readers || OpensTo(t, e, conv, u)
    ensures !ClosesTo(t, e, conv, u)
  {
    if e.Creates? {
      assert CodeTaken(t, e.code) <==> !Founds(t, e);
    } else if e.CreatesChannel? && e.group in t.groups {
      CreateChannelReaders(t, e.group, e.position);
    }
  }

  /** A user reads a conversation after an event exactly if the event opened it to them, or they read
      it and the event did not close it. */
  lemma ReadersChangeExactly(t: Tables, e: Event, conv: Conv, u: UserId)
    requires KeysOk(t) && Possible(t, e)
    ensures (conv, u) in Apply(t, e).readers <==>
      OpensTo(t, e, conv, u) || ((conv, u) in t.readers && !ClosesTo(t, e, conv, u))
  {
    match e
    case Joins(_, _, _) => JoinsReaders(t, e, conv, u);
    case Departs(_, _) => DepartsReaders(t, e, conv, u);
    case Leaves(_, _) => ExitReaders(t, e, conv, u);
    case Kicks(_, _, _) => ExitReaders(t, e, conv, u);
    case _ => OtherReaders(t, e, conv, u);
  }

  // ---- channels -----------------------------------------------------------------------------------------

  /** A channel is there after an event exactly if the event made it, or it was there and was neither
      deleted, which takes a sibling, nor went with its group. */
  lemma ChannelsChangeExactly(t: Tables, e: Event, c: ChannelId, g: GroupId)
    requires KeysOk(t) && Possible(t, e)
    ensures c in Apply(t, e).channels && Apply(t, e).channels[c].group == g <==>
      (Founds(t, e) && c == t.nextChannel && g == t.nextGroup) ||
      (e.CreatesChannel? && e.group == g && g in t.groups && c == t.nextChannel) ||
      (c in t.channels && t.channels[c].group == g && !(e.Deletes? && e.group == g) &&
       !(e.DeletesChannel? && e.channel == c && |ChannelsOf(t.channels, g)| > 1))
  {
    match e
    case Creates(_, _, _) => assert CodeTaken(t, e.code) <==> !Founds(t, e);
    case Joins(_, _, _) => JoinOf(t, e);
    case Departs(_, _) => AllHandedOn(t, e.owned, e.user);
    case Kicks(_, _, _) => KickIs(t, e);
    case Reorders(h, ids) => ReorderKeepsGroups(t.channels, h, ids);
    case _ =>
  }

  /** Only a reordering moves a channel; new ones get position 0 or the one the event names. */
  lemma PositionsChangeExactly(t: Tables, e: Event, c: ChannelId)
    requires KeysOk(t) && Possible(t, e) && c in Apply(t, e).channels && !e.Reorders?
    ensures Apply(t, e).channels[c].position ==
      if c in t.channels then t.channels[c].position else if e.CreatesChannel? then e.position else 0
  {
    match e
    case Joins(_, _, _) => JoinOf(t, e);
    case Departs(_, _) => AllHandedOn(t, e.owned, e.user);
    case Kicks(_, _, _) => KickIs(t, e);
    case _ =>
  }
}
