/** What becomes of a leaving user's groups (group/repo.go TransferOwnershipForLeavingUser). */
module Succession {
  import opened Common
  import opened GroupTables
  import opened GroupAccess

  /** The outcome for one owned group: the best-ranked remaining member owns it and the leaving
      user is out of it, or nobody remains and it is archived. */
  ghost predicate HandedOn(t: Tables, s: Tables, g: GroupId, leaving: UserId)
    requires g in t.groups
  {
    g in s.groups && !IsMember(s, g, leaving) &&
    if MembersOf(t, g) - {leaving} == {} then s.groups[g].archived && MembersOf(s, g) == {}
    else
      var h := s.groups[g].owner;
      IsHeir(t, g, leaving, h) && IsMember(s, g, h) && s.members[(g, h)].role == OWNER && MembersOf(s, g) == MembersOf(t, g) - {leaving} &&
      s.groups[g].archived == t.groups[g].archived &&
      forall conv :: ConvOf(t, g, conv) ==> (conv, leaving) !in s.readers
  }

  lemma OneHandedOn(t: Tables, g: GroupId, leaving: UserId)
    requires g in t.groups
    ensures HandedOn(t, TransferOne(t, g, leaving), g, leaving)
  {
    var s := TransferOne(t, g, leaving);
    if MembersOf(t, g) - {leaving} == {} {
      assert forall u :: u in MembersOf(t, g) && u != leaving ==> u in MembersOf(t, g) - {leaving};
    } else {
      assert MembersOf(s, g) == MembersOf(t, g) - {leaving};
    }
  }

  /** A later transfer of another group does not disturb what happened to g. */
  lemma StaysHandedOn(t: Tables, s: Tables, r: Tables, g: GroupId, leaving: UserId)
    requires g in t.groups && HandedOn(t, s, g, leaving) && Untouched(s, r, g)
    requires s.channels == t.channels
    ensures HandedOn(t, r, g, leaving)
  {
    forall u ensures u in MembersOf(r, g) <==> u in MembersOf(s, g) {
      assert SameRow(s, r, g, u);
    }
    assert MembersOf(r, g) == MembersOf(s, g);
    assert SameRow(s, r, g, leaving) && SameRow(s, r, g, s.groups[g].owner);
    forall conv | ConvOf(t, g, conv) ensures (conv, leaving) in r.readers <==> (conv, leaving) in s.readers {
      assert SameReader(s, r, conv, leaving);
    }
  }

  lemma HandedOnFrom(t: Tables, s: Tables, r: Tables, g: GroupId, leaving: UserId)
    requires g in t.groups && g in s.groups && Untouched(t, s, g) && s.channels == t.channels && HandedOn(s, r, g, leaving)
    ensures HandedOn(t, r, g, leaving)
  {
    forall u ensures u in MembersOf(s, g) <==> u in MembersOf(t, g) {
      assert SameRow(t, s, g, u);
    }
    assert MembersOf(s, g) == MembersOf(t, g);
    forall a, b | IsMember(t, g, a) && IsMember(t, g, b) ensures RanksBefore(s, g, a, b) == RanksBefore(t, g, a, b) {
      assert SameRow(t, s, g, a) && SameRow(t, s, g, b);
    }
  }

  lemma {:induction false} UntouchedTransitive(t: Tables, s: Tables, r: Tables, g: GroupId)
    requires Untouched(t, s, g) && Untouched(s, r, g) && s.channels == t.channels
    ensures Untouched(t, r, g)
  {
    forall u ensures SameRow(t, r, g, u) {
      assert SameRow(t, s, g, u) && SameRow(s, r, g, u);
    }
    forall c ensures SameChannel(t, r, g, c) {
      assert SameChannel(t, s, g, c) && SameChannel(s, r, g, c);
    }
    forall conv, u | ConvOf(t, g, conv) ensures SameReader(t, r, conv, u) {
      assert SameReader(t, s, conv, u) && SameReader(s, r, conv, u);
    }
  }

  /** TransferOwnershipForLeavingUser: every listed group is handed on, every other is untouched. */
  lemma {:induction false} AllHandedOn(t: Tables, owned: seq<GroupId>, leaving: UserId)
    requires Distinct(owned) && forall g :: g in owned ==> g in t.groups
    ensures var s := TransferAll(t, owned, leaving);
      s.channels == t.channels && s.groups.Keys == t.groups.Keys &&
      (forall g :: g in owned ==> HandedOn(t, s, g, leaving)) &&
      (forall g :: g !in owned ==> Untouched(t, s, g))
    decreases |owned|
  {
    var s := TransferAll(t, owned, leaving);
    if owned != [] {
      var first := owned[0];
      var mid := TransferOne(t, first, leaving);
      TransferOneChanges(t, first, leaving);
      assert first !in owned[1..];
      AllHandedOn(mid, owned[1..], leaving);
      OneHandedOn(t, first, leaving);
      StaysHandedOn(t, mid, s, first, leaving);
      forall g | g != first ensures Untouched(t, mid, g) {
        ChangeLeavesOthers(t, mid, first, g);
      }
      forall g | g in owned && g != first ensures HandedOn(t, s, g, leaving) {
        assert g in owned[1..];
        HandedOnFrom(t, mid, s, g, leaving);
      }
      forall g | g !in owned ensures Untouched(t, s, g) {
        UntouchedTransitive(t, mid, s, g);
      }
    }
  }

  /** The departure of a user: each owned group has as its owner the best-ranked remaining member
      (admins first, then seniority, then id) or is archived and empty; other groups are untouched. */
  lemma Departure(t: Tables, owned: seq<GroupId>, leaving: UserId)
    requires Possible(t, Departs(leaving, owned))
    ensures var s := TransferAll(t, owned, leaving);
      (forall g :: g in t.groups && t.groups[g].owner == leaving ==> HandedOn(t, s, g, leaving)) &&
      (forall g :: g in t.groups && t.groups[g].owner != leaving ==> Untouched(t, s, g))
  {
    AllHandedOn(t, owned, leaving);
  }

  lemma {:induction false} NothingLeftToTransfer(t: Tables, owned: seq<GroupId>, leaving: UserId)
    requires forall g :: g in owned ==> g in t.groups && t.groups[g].archived && MembersOf(t, g) == {}
    ensures TransferAll(t, owned, leaving) == t
    decreases |owned|
  {
    if owned != [] {
      var g := owned[0];
      assert g in owned && !IsMember(t, g, leaving);
      assert t.groups[g := t.groups[g].(archived := true)] == t.groups;
      assert t.members - {(g, leaving)} == t.members;
      assert TransferOne(t, g, leaving) == t;
      NothingLeftToTransfer(t, owned[1..], leaving);
    }
  }

  /** Repeating the call changes nothing, in whatever order it lists what is still owned. */
  lemma DepartureIdempotent(t: Tables, owned: seq<GroupId>, leaving: UserId, again: seq<GroupId>)
    requires Possible(t, Departs(leaving, owned))
    requires Possible(TransferAll(t, owned, leaving), Departs(leaving, again))
    ensures TransferAll(TransferAll(t, owned, leaving), again, leaving) == TransferAll(t, owned, leaving)
  {
    var s := TransferAll(t, owned, leaving);
    AllHandedOn(t, owned, leaving);
    forall g | g in again ensures g in s.groups && s.groups[g].archived && MembersOf(s, g) == {} {
      assert g in OwnedBy(s, leaving);
      assert g in OwnedBy(t, leaving);
      assert HandedOn(t, s, g, leaving);
    }
    NothingLeftToTransfer(s, again, leaving);
  }
}
