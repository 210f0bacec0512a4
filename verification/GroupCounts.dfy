/** How far the stored member count runs ahead of the members. */
module GroupCounts {
  import opened Common
  import opened GroupTables
  import opened GroupAccess

  /** What the group row claims beyond the members there are. */
  function Gap(t: Tables, g: GroupId): int
    requires g in t.groups
  {
    t.groups[g].memberCount - |MembersOf(t, g)|
  }

  /** A departure takes the leaving owner's member row and leaves the count. */
  function LostBy(t: Tables, e: Event, g: GroupId): nat {
    if e.Departs? && g in t.groups && t.groups[g].owner == e.user && IsMember(t, g, e.user) then 1 else 0
  }

  /** How many departures of a member who owned the group a run contains. */
  ghost function Lost(t: Tables, run: seq<Event>, g: GroupId): nat
    requires IsRun(t, run)
    decreases |run|
  {
    if run == [] then 0 else LostBy(t, run[0], g) + Lost(Apply(t, run[0]), run[1..], g)
  }

  /** Every gap stays; a new group has none. */
  ghost predicate GapsKept(t: Tables, s: Tables) {
    forall g :: g in s.groups ==> Gap(s, g) == if g in t.groups then Gap(t, g) else 0
  }

  // ---- operations that keep every gap ----------------------------------------------------------

  lemma SameMembers(t: Tables, s: Tables, g: GroupId)
    requires forall u :: SameRow(t, s, g, u)
    ensures MembersOf(s, g) == MembersOf(t, g)
  {
    forall u ensures u in MembersOf(s, g) <==> u in MembersOf(t, g) {
      assert SameRow(t, s, g, u);
    }
  }

  lemma KeptByOneGroup(t: Tables, s: Tables, g: GroupId)
    requires ChangesOnly(t, s, g) && Gap(s, g) == Gap(t, g)
    ensures GapsKept(t, s)
  {
    forall h | h in s.groups ensures Gap(s, h) == if h in t.groups then Gap(t, h) else 0 {
      if h != g {
        SameMembers(t, s, h);
      }
    }
  }

  lemma JoinKeeps(t: Tables, g: GroupId, u: UserId, now: Time)
    ensures GapsKept(t, JoinGroup(t, g, u, now))
  {
    if MayJoin(t, g, u) {
      JoinChanges(t, g, u, now);
      assert MembersOf(JoinGroup(t, g, u, now), g) == MembersOf(t, g) + {u};
      KeptByOneGroup(t, JoinGroup(t, g, u, now), g);
    }
  }

  lemma JoinByCodeKeeps(t: Tables, code: string, user: UserId, now: Time)
    ensures GapsKept(t, Join(t, code, user, now))
  {
    if CodeTaken(t, code) {
      var g :| g in t.groups && t.groups[g].invite == code && Join(t, code, user, now) == JoinGroup(t, g, user, now);
      JoinKeeps(t, g, user, now);
    }
  }

  lemma LeaveKeeps(t: Tables, g: GroupId, u: UserId)
    ensures GapsKept(t, Leave(t, g, u))
  {
    if MayGo(t, g, u) {
      LeaveChanges(t, g, u);
      assert MembersOf(Leave(t, g, u), g) == MembersOf(t, g) - {u};
      KeptByOneGroup(t, Leave(t, g, u), g);
    }
  }

  /** Operations that change no member row and no count. */
  lemma OthersKeep(t: Tables, s: Tables)
    requires s.groups.Keys <= t.groups.Keys
    requires forall g :: g in s.groups ==> s.groups[g].memberCount == t.groups[g].memberCount
    requires forall g, u :: g in s.groups ==> (IsMember(s, g, u) <==> IsMember(t, g, u))
    ensures GapsKept(t, s)
  {
    forall g | g in s.groups ensures Gap(s, g) == Gap(t, g) {
      forall u ensures u in MembersOf(s, g) <==> u in MembersOf(t, g) {
        assert IsMember(s, g, u) <==> IsMember(t, g, u);
      }
      assert MembersOf(s, g) == MembersOf(t, g);
    }
  }

  lemma KickKeeps(t: Tables, g: GroupId, u: UserId, code: string)
    ensures GapsKept(t, Kick(t, g, u, code))
  {
    if MayGo(t, g, u) && !TakenElsewhere(t, g, code) {
      var left := Leave(t, g, u);
      LeaveKeeps(t, g, u);
      RotateKeeps(left, g, code);
      KeptThenKept(t, left, RotateInvite(left, g, code));
    }
  }

  lemma RotateKeeps(t: Tables, g: GroupId, code: string)
    ensures GapsKept(t, RotateInvite(t, g, code))
    ensures RotateInvite(t, g, code).groups.Keys == t.groups.Keys
  {
    OthersKeep(t, RotateInvite(t, g, code));
  }

  lemma KeptThenKept(t: Tables, s: Tables, r: Tables)
    requires GapsKept(t, s) && s.groups.Keys == t.groups.Keys && GapsKept(s, r) && r.groups.Keys == s.groups.Keys
    ensures GapsKept(t, r)
  {
  }

  lemma CreateKeeps(t: Tables, owner: UserId, code: string, now: Time)
    requires KeysOk(t)
    ensures GapsKept(t, CreateGroup(t, owner, code, now))
  {
    var s := CreateGroup(t, owner, code, now);
    if !CodeTaken(t, code) {
      assert MembersOf(s, t.nextGroup) == {owner};
      forall h | h in t.groups ensures MembersOf(s, h) == MembersOf(t, h) {
        assert forall u :: IsMember(s, h, u) <==> IsMember(t, h, u);
      }
    }
  }

  lemma OtherEventsKeep(t: Tables, e: Event)
    requires KeysOk(t) && Possible(t, e) && !e.Departs?
    ensures GapsKept(t, Apply(t, e))
  {
    match e
    case Creates(owner, code, now) => CreateKeeps(t, owner, code, now);
    case Joins(code, user, now) => JoinByCodeKeeps(t, code, user, now);
    case Leaves(group, user) => LeaveKeeps(t, group, user);
    case Kicks(group, user, code) => KickKeeps(t, group, user, code);
    case Rotates(group, code) => RotateKeeps(t, group, code);
    case Transfers(group, caller, heir) => OthersKeep(t, TransferOwnership(t, group, caller, heir));
    case SetsRole(group, user, role) => OthersKeep(t, SetMemberRole(t, group, user, role));
    case Deletes(group) => OthersKeep(t, DeleteGroup(t, group));
    case CreatesChannel(group, position) => OthersKeep(t, CreateChannel(t, group, position));
    case DeletesChannel(channel) => OthersKeep(t, DeleteChannel(t, channel));
    case Reorders(group, ids) => OthersKeep(t, Apply(t, e));
  }

  // ---- departures -------------------------------------------------------------------------------

  lemma DepartedMembers(t: Tables, g: GroupId, leaving: UserId)
    requires g in t.groups
    ensures var s := TransferOne(t, g, leaving);
      && s.groups.Keys == t.groups.Keys && s.groups[g].memberCount == t.groups[g].memberCount
      && MembersOf(s, g) == MembersOf(t, g) - {leaving}
  {
    var s := TransferOne(t, g, leaving);
    forall u ensures u in MembersOf(s, g) <==> u in MembersOf(t, g) && u != leaving {
      assert IsMember(s, g, u) <==> IsMember(t, g, u) && u != leaving;
    }
  }

  /** Handing on or archiving a group widens its gap by one if the leaving user was a member. */
  lemma DepartureLosesCount(t: Tables, g: GroupId, leaving: UserId)
    requires g in t.groups
    ensures var s := TransferOne(t, g, leaving);
      && s.groups.Keys == t.groups.Keys
      && Gap(s, g) == Gap(t, g) + (if IsMember(t, g, leaving) then 1 else 0)
      && forall h :: h in t.groups && h != g ==> Gap(s, h) == Gap(t, h) && MembersOf(s, h) == MembersOf(t, h)
  {
    var s := TransferOne(t, g, leaving);
    DepartedMembers(t, g, leaving);
    TransferOneChanges(t, g, leaving);
    forall h | h in t.groups && h != g ensures MembersOf(s, h) == MembersOf(t, h) {
      SameMembers(t, s, h);
    }
  }

  lemma {:induction false} DeparturesLoseCounts(t: Tables, owned: seq<GroupId>, leaving: UserId, g: GroupId)
    requires Distinct(owned) && (forall h :: h in owned ==> h in t.groups) && g in t.groups
    ensures var s := TransferAll(t, owned, leaving);
      && s.groups.Keys == t.groups.Keys
      && Gap(s, g) == Gap(t, g) + (if g in owned && IsMember(t, g, leaving) then 1 else 0)
    decreases |owned|
  {
    if owned != [] {
      var first, rest := owned[0], owned[1..];
      var mid := TransferOne(t, first, leaving);
      DepartureLosesCount(t, first, leaving);
      assert first !in rest;
      DeparturesLoseCounts(mid, rest, leaving, g);
      assert g != first ==> (IsMember(mid, g, leaving) <==> leaving in MembersOf(mid, g));
      assert g != first ==> (IsMember(t, g, leaving) <==> leaving in MembersOf(t, g));
    }
  }

  // ---- over runs --------------------------------------------------------------------------------

  lemma GapStep(t: Tables, e: Event, g: GroupId)
    requires KeysOk(t) && Possible(t, e) && g in Apply(t, e).groups
    ensures Gap(Apply(t, e), g) == (if g in t.groups then Gap(t, g) else 0) + LostBy(t, e, g)
  {
    if e.Departs? {
      TransferAllKeys(t, e.owned, e.user);
      DeparturesLoseCounts(t, e.owned, e.user, g);
      assert g in e.owned <==> g in OwnedBy(t, e.user);
    } else {
      OtherEventsKeep(t, e);
    }
  }

  lemma {:induction false} TransferAllKeys(t: Tables, owned: seq<GroupId>, leaving: UserId)
    requires forall h :: h in owned ==> h in t.groups
    ensures TransferAll(t, owned, leaving).groups.Keys == t.groups.Keys
    ensures TransferAll(t, owned, leaving).nextGroup == t.nextGroup
    decreases |owned|
  {
    if owned != [] {
      TransferAllKeys(TransferOne(t, owned[0], leaving), owned[1..], leaving);
    }
  }

  /** Group ids are never used again. */
  lemma IdsStayGone(t: Tables, e: Event, g: GroupId)
    requires Possible(t, e) && g < t.nextGroup
    ensures Apply(t, e).nextGroup >= t.nextGroup
    ensures g in Apply(t, e).groups ==> g in t.groups
  {
    if e.Departs? {
      TransferAllKeys(t, e.owned, e.user);
    }
  }

  lemma {:induction false} GoneForGood(t: Tables, run: seq<Event>, g: GroupId)
    requires IsRun(t, run) && g < t.nextGroup && g !in t.groups
    ensures g !in After(t, run).groups
    decreases |run|
  {
    if run != [] {
      IdsStayGone(t, run[0], g);
      GoneForGood(Apply(t, run[0]), run[1..], g);
    }
  }

  lemma {:induction false} GapAlong(t: Tables, run: seq<Event>, g: GroupId)
    requires Sound(t) && IsRun(t, run) && g in After(t, run).groups
    ensures Gap(After(t, run), g) == (if g in t.groups then Gap(t, g) else 0) + Lost(t, run, g)
    decreases |run|
  {
    if run != [] {
      var next := Apply(t, run[0]);
      SoundStep(t, run[0]);
      GapAlong(next, run[1..], g);
      if g in next.groups {
        GapStep(t, run[0], g);
      } else if g in t.groups {
        IdsStayGone(t, run[0], g);
        GoneForGood(next, run[1..], g);
      }
    }
  }

  /** The stored count is the number of members plus the departures of owners who were members;
      so it is exact if and only if there was none. */
  lemma CountsAreExactIff(run: seq<Event>, g: GroupId)
    requires IsRun(Empty, run) && g in After(Empty, run).groups
    ensures var t := After(Empty, run);
      && t.groups[g].memberCount == |MembersOf(t, g)| + Lost(Empty, run, g)
      && (t.groups[g].memberCount == |MembersOf(t, g)| <==> Lost(Empty, run, g) == 0)
  {
    GapAlong(Empty, run, g);
  }

  lemma CreatedAlone(u: UserId, code: string, now: Time)
    ensures var t := CreateGroup(Empty, u, code, now); var g := Empty.nextGroup;
      t.groups == map[g := Group(u, 1, MAX_MEMBERS, false, code)] && MembersOf(t, g) == {u}
  {
    var t := CreateGroup(Empty, u, code, now);
    forall v ensures v in MembersOf(t, Empty.nextGroup) <==> v == u {
      assert IsMember(t, Empty.nextGroup, v) <==> v == u;
    }
  }

  lemma JoinedByAnother(t: Tables, g: GroupId, u: UserId, v: UserId, code: string, now: Time)
    requires t.groups == map[g := Group(u, 1, MAX_MEMBERS, false, code)] && MembersOf(t, g) == {u} && u != v
    ensures var s := Join(t, code, v, now);
      s.groups == map[g := Group(u, 2, MAX_MEMBERS, false, code)] && MembersOf(s, g) == {u, v}
  {
    assert t.groups[g].invite == code && !IsMember(t, g, v);
    var s := JoinGroup(t, g, v, now);
    assert Join(t, code, v, now) == s;
    forall w ensures w in MembersOf(s, g) <==> w in {u, v} {
      assert IsMember(s, g, w) <==> IsMember(t, g, w) || w == v;
    }
  }

  lemma LeftByOwner(t: Tables, g: GroupId, u: UserId, v: UserId, code: string)
    requires t.groups == map[g := Group(u, 2, MAX_MEMBERS, false, code)] && MembersOf(t, g) == {u, v} && u != v
    ensures Possible(t, Departs(u, [g]))
    ensures var s := TransferAll(t, [g], u);
      g in s.groups && !s.groups[g].archived && s.groups[g].memberCount == 2 && MembersOf(s, g) == {v}
  {
    assert OwnedBy(t, u) == {g};
    assert TransferAll(t, [g], u) == TransferAll(TransferOne(t, g, u), [g][1..], u);
    DepartedMembers(t, g, u);
    assert v in MembersOf(t, g) - {u} && {u, v} - {u} == {v};
  }

  /** The count does go wrong: a group of two whose owner leaves still counts two. */
  lemma CountGoesWrong(u: UserId, v: UserId, code: string, now: Time) returns (run: seq<Event>)
    requires u != v
    ensures IsRun(Empty, run)
    ensures var t := After(Empty, run); var g := Empty.nextGroup;
      g in t.groups && !t.groups[g].archived && t.groups[g].memberCount == 2 && MembersOf(t, g) == {v}
  {
    var g := Empty.nextGroup;
    var t1 := CreateGroup(Empty, u, code, now);
    var t2 := Join(t1, code, v, now);
    CreatedAlone(u, code, now);
    JoinedByAnother(t1, g, u, v, code, now);
    LeftByOwner(t2, g, u, v, code);
    RunCons(t2, Departs(u, [g]), []);
    RunCons(t1, Joins(code, v, now), [Departs(u, [g])] + []);
    RunCons(Empty, Creates(u, code, now), [Joins(code, v, now)] + ([Departs(u, [g])] + []));
    run := [Creates(u, code, now)] + ([Joins(code, v, now)] + ([Departs(u, [g])] + []));
  }

  lemma RunCons(t: Tables, e: Event, rest: seq<Event>)
    requires Possible(t, e) && IsRun(Apply(t, e), rest)
    ensures IsRun(t, [e] + rest) && After(t, [e] + rest) == After(Apply(t, e), rest)
  {
    assert ([e] + rest)[1..] == rest;
  }
}
