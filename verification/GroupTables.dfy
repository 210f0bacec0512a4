/** Groups, channels and who may read which conversation (group/repo.go, channel/repo.go).

    The same fact, "this user is in this group", is stored three times: in group_members, in the
    group's own conversation and in the conversation of each of its channels. */
module GroupTables {
  import opened Common

  type UserId = int
  type GroupId = nat
  type ChannelId = nat

  const MAX_MEMBERS := 500

  const PLAIN := 0
  const ADMIN := 1
  const OWNER := 2

  datatype Group = Group(owner: UserId, memberCount: int, maxMembers: int, archived: bool, invite: string)
  datatype Member = Member(role: int, joinedAt: Time)
  datatype Channel = Channel(group: GroupId, position: int)

  /** The conversations "g_<id>" and "c_<id>". */
  datatype Conv = GroupConv(group: GroupId) | ChannelConv(channel: ChannelId)

  /** `readers` is the table conversation_members; the counters are the two id sequences. */
  datatype Tables = Tables(
    groups: map<GroupId, Group>,
    members: map<(GroupId, UserId), Member>,
    channels: map<ChannelId, Channel>,
    readers: set<(Conv, UserId)>,
    nextGroup: GroupId,
    nextChannel: ChannelId)

  predicate IsMember(t: Tables, g: GroupId, u: UserId) {
    (g, u) in t.members
  }

  function MembersOf(t: Tables, g: GroupId): (users: set<UserId>)
    ensures forall u :: u in users <==> IsMember(t, g, u)
  {
    var users := set m | m in t.members && m.0 == g :: m.1;
    assert forall u :: IsMember(t, g, u) ==> (g, u).1 in users;
    users
  }

  function ChannelsOf(channels: map<ChannelId, Channel>, g: GroupId): set<ChannelId> {
    set c | c in channels && channels[c].group == g
  }

  predicate CodeTaken(t: Tables, code: string) {
    exists g :: g in t.groups && t.groups[g].invite == code
  }

  /** The conversation and the channel conversations of a group that exists. */
  predicate ConvOf(t: Tables, g: GroupId, conv: Conv) {
    match conv
    case GroupConv(h) => h == g
    case ChannelConv(c) => c in t.channels && t.channels[c].group == g
  }

  // ---- membership operations ----------------------------------------------------------

  function CreateGroup(t: Tables, owner: UserId, code: string, now: Time): Tables {
    if CodeTaken(t, code) then t else
      var g, c := t.nextGroup, t.nextChannel;
      t.(groups := t.groups[g := Group(owner, 1, MAX_MEMBERS, false, code)],
         members := t.members[(g, owner) := Member(OWNER, now)],
         channels := t.channels[c := Channel(g, 0)],
         readers := t.readers + {(GroupConv(g), owner), (ChannelConv(c), owner)},
         nextGroup := g + 1,
         nextChannel := c + 1)
  }

  predicate MayJoin(t: Tables, g: GroupId, u: UserId) {
    g in t.groups && t.groups[g].memberCount < t.groups[g].maxMembers && !IsMember(t, g, u)
  }

  function JoinGroup(t: Tables, g: GroupId, u: UserId, now: Time): Tables {
    if !MayJoin(t, g, u) then t else
      t.(members := t.members[(g, u) := Member(PLAIN, now)],
         groups := t.groups[g := t.groups[g].(memberCount := t.groups[g].memberCount + 1)],
         readers := t.readers + {(GroupConv(g), u)} + set c | c in ChannelsOf(t.channels, g) :: (ChannelConv(c), u))
  }

  predicate MayGo(t: Tables, g: GroupId, u: UserId) {
    g in t.groups && t.groups[g].owner != u && IsMember(t, g, u)
  }

  /** The reader rows of u that are not for conversations of group g. */
  function WithoutReader(t: Tables, g: GroupId, u: UserId): set<(Conv, UserId)> {
    set r | r in t.readers && !(r.1 == u && ConvOf(t, g, r.0))
  }

  /** u is out of group g: no member row, no reader row for its conversation or for any of its
      channels', one member fewer counted; the invite code is as given, and all else is as it was. */
  ghost predicate GoneFrom(t: Tables, s: Tables, g: GroupId, u: UserId, invite: string) {
    && (g, u) !in s.members && (GroupConv(g), u) !in s.readers
    && (forall c :: c in t.channels && t.channels[c].group == g ==> (ChannelConv(c), u) !in s.readers)
    && g in t.groups && s.groups == t.groups[g := t.groups[g].(memberCount := t.groups[g].memberCount - 1, invite := invite)]
    && (forall h, v :: (h, v) != (g, u) ==> ((h, v) in s.members <==> (h, v) in t.members))
    && (forall h, v :: (h, v) != (g, u) && (h, v) in t.members ==> s.members[(h, v)] == t.members[(h, v)])
    && (forall conv, v :: v != u || !ConvOf(t, g, conv) ==> ((conv, v) in s.readers <==> (conv, v) in t.readers))
    && s.channels == t.channels && s.nextGroup == t.nextGroup && s.nextChannel == t.nextChannel
  }

  function Leave(t: Tables, g: GroupId, u: UserId): Tables {
    if !MayGo(t, g, u) then t else
      t.(members := t.members - {(g, u)},
         groups := t.groups[g := t.groups[g].(memberCount := t.groups[g].memberCount - 1)],
         readers := WithoutReader(t, g, u))
  }

  predicate TakenElsewhere(t: Tables, g: GroupId, code: string) {
    exists h :: h in t.groups && h != g && t.groups[h].invite == code
  }

  /** Leaving against one's will; the invite code changes. */
  function Kick(t: Tables, g: GroupId, u: UserId, code: string): Tables {
    if !MayGo(t, g, u) || TakenElsewhere(t, g, code) then t else
      RotateInvite(Leave(t, g, u), g, code)
  }

  function RotateInvite(t: Tables, g: GroupId, code: string): Tables {
    if g !in t.groups || TakenElsewhere(t, g, code) then t
    else t.(groups := t.groups[g := t.groups[g].(invite := code)])
  }

  /** The handler lets only the owner (role 2) hand over, and only to somebody else. */
  predicate MayTransfer(t: Tables, g: GroupId, caller: UserId, heir: UserId) {
    heir != caller && IsMember(t, g, caller) && t.members[(g, caller)].role >= OWNER && IsMember(t, g, heir) && g in t.groups
  }

  function TransferOwnership(t: Tables, g: GroupId, caller: UserId, heir: UserId): Tables {
    if !MayTransfer(t, g, caller, heir) then t else
      t.(groups := t.groups[g := t.groups[g].(owner := heir)],
         members := t.members[(g, heir) := t.members[(g, heir)].(role := OWNER)]
                             [(g, caller) := t.members[(g, caller)].(role := ADMIN)])
  }

  predicate MaySetRole(t: Tables, g: GroupId, u: UserId, role: int) {
    (role == PLAIN || role == ADMIN) && IsMember(t, g, u) && t.members[(g, u)].role != OWNER
  }

  function SetMemberRole(t: Tables, g: GroupId, u: UserId, role: int): Tables {
    if !MaySetRole(t, g, u, role) then t
    else t.(members := t.members[(g, u) := t.members[(g, u)].(role := role)])
  }

  /** Deleting a group cascades to its members and channels; conversations and their readers stay
      (conversation_members refers to conversations, not to groups). */
  function DeleteGroup(t: Tables, g: GroupId): Tables {
    t.(groups := t.groups - {g},
       members := map m | m in t.members && m.0 != g :: t.members[m],
       channels := map c | c in t.channels && t.channels[c].group != g :: t.channels[c])
  }

  // ---- succession -------------------------------------------------------------------------

  /** Heirs are ranked admins first, then by seniority, then by id. */
  predicate RanksBefore(t: Tables, g: GroupId, a: UserId, b: UserId) {
    IsMember(t, g, a) && IsMember(t, g, b) &&
    var (x, y) := (t.members[(g, a)], t.members[(g, b)]);
    if (x.role == ADMIN) != (y.role == ADMIN) then x.role == ADMIN
    else if x.joinedAt != y.joinedAt then x.joinedAt < y.joinedAt
    else a < b
  }

  ghost predicate RanksFirst(t: Tables, g: GroupId, others: set<UserId>, h: UserId) {
    h in others && IsMember(t, g, h) && forall m :: m in others && m != h ==> RanksBefore(t, g, h, m)
  }

  /** The heir is the best-ranked remaining member. */
  ghost predicate IsHeir(t: Tables, g: GroupId, leaving: UserId, h: UserId) {
    RanksFirst(t, g, MembersOf(t, g) - {leaving}, h)
  }

  lemma RanksTransitive(t: Tables, g: GroupId, a: UserId, b: UserId, c: UserId)
    requires RanksBefore(t, g, a, b) && RanksBefore(t, g, b, c)
    ensures RanksBefore(t, g, a, c)
  {
  }

  /** One more candidate either beats the best so far or loses to it. */
  lemma RanksFirstStep(t: Tables, g: GroupId, others: set<UserId>, h: UserId, x: UserId)
    requires RanksFirst(t, g, others, h) && IsMember(t, g, x) && x !in others
    ensures RanksFirst(t, g, others + {x}, if RanksBefore(t, g, x, h) then x else h)
  {
    if RanksBefore(t, g, x, h) {
      forall m | m in others && m != h ensures RanksBefore(t, g, x, m) {
        RanksTransitive(t, g, x, h, m);
      }
    }
  }

  lemma {:induction false} SomeoneRanksFirst(t: Tables, g: GroupId, others: set<UserId>)
    requires others != {} && forall m :: m in others ==> IsMember(t, g, m)
    ensures exists h :: RanksFirst(t, g, others, h)
  {
    var x := SomeElement(others);
    var rest := others - {x};
    assert rest + {x} == others;
    if rest == {} {
      assert RanksFirst(t, g, others, x);
    } else {
      SomeoneRanksFirst(t, g, rest);
      var h :| RanksFirst(t, g, rest, h);
      RanksFirstStep(t, g, rest, h, x);
    }
  }

  lemma HeirUnique(t: Tables, g: GroupId, leaving: UserId, h: UserId, k: UserId)
    requires IsHeir(t, g, leaving, h) && IsHeir(t, g, leaving, k)
    ensures h == k
  {
  }

  ghost function HeirOf(t: Tables, g: GroupId, leaving: UserId): UserId
    requires MembersOf(t, g) - {leaving} != {}
    ensures IsHeir(t, g, leaving, HeirOf(t, g, leaving))
  {
    SomeoneRanksFirst(t, g, MembersOf(t, g) - {leaving});
    var h :| RanksFirst(t, g, MembersOf(t, g) - {leaving}, h);
    h
  }

  /** The owner's account goes away: one of the owner's groups is handed on, or archived. */
  ghost function TransferOne(t: Tables, g: GroupId, leaving: UserId): Tables
    requires g in t.groups
  {
    if MembersOf(t, g) - {leaving} == {} then
      t.(groups := t.groups[g := t.groups[g].(archived := true)],
         members := t.members - {(g, leaving)})
    else
      var h := HeirOf(t, g, leaving);
      t.(groups := t.groups[g := t.groups[g].(owner := h)],
         members := t.members[(g, h) := t.members[(g, h)].(role := OWNER)] - {(g, leaving)},
         readers := WithoutReader(t, g, leaving))
  }

  function OwnedBy(t: Tables, u: UserId): set<GroupId> {
    set g | g in t.groups && t.groups[g].owner == u
  }

  ghost function TransferAll(t: Tables, owned: seq<GroupId>, leaving: UserId): Tables
    requires forall g :: g in owned ==> g in t.groups
    decreases |owned|
  {
    if owned == [] then t else TransferAll(TransferOne(t, owned[0], leaving), owned[1..], leaving)
  }

  // ---- channels ---------------------------------------------------------------------------

  predicate IsNextPosition(channels: map<ChannelId, Channel>, g: GroupId, p: int) {
    (forall c :: c in ChannelsOf(channels, g) ==> channels[c].position < p) &&
    (if ChannelsOf(channels, g) == {} then p == 0 else exists c :: c in ChannelsOf(channels, g) && channels[c].position == p - 1)
  }

  function CreateChannel(t: Tables, g: GroupId, position: int): Tables {
    if g !in t.groups then t else
      var c := t.nextChannel;
      t.(channels := t.channels[c := Channel(g, position)],
         readers := t.readers + set u | u in MembersOf(t, g) :: (ChannelConv(c), u),
         nextChannel := c + 1)
  }

  predicate MayDeleteChannel(t: Tables, c: ChannelId) {
    c in t.channels && |ChannelsOf(t.channels, t.channels[c].group)| > 1
  }

  function DeleteChannel(t: Tables, c: ChannelId): Tables {
    if !MayDeleteChannel(t, c) then t else t.(channels := t.channels - {c})
  }
}
