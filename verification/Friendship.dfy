/** The friendship table (friend/repo.go) behind its HTTP handlers (friend/handler.go): a directed
    graph of status rows, at most one row for each ordered pair of users. */
module Friendship {
  import opened Common

  type UserId = int

  const DAY := 24 * 60 * 60
  const COOLDOWN := 7 * DAY

  datatype Status = Pending | Accepted | Blocked | Rejected
  datatype Row = Row(status: Status, createdAt: Time)

  type Table = map<(UserId, UserId), Row>

  datatype Outcome = Ok | Yourself | UserNotFound | AlreadyFriends | AlreadyRequested | RequestNotFound

  function StatusOf(t: Table, a: UserId, b: UserId): Option<Status> {
    if (a, b) in t then Some(t[(a, b)].status) else None
  }

  predicate Has(t: Table, a: UserId, b: UserId, s: Status) {
    StatusOf(t, a, b) == Some(s)
  }

  predicate BlockedEither(t: Table, a: UserId, b: UserId) {
    Has(t, a, b, Blocked) || Has(t, b, a, Blocked)
  }

  /** Sets a pair's status; an existing row keeps its date. */
  function Upsert(t: Table, a: UserId, b: UserId, s: Status, now: Time): Table {
    t[(a, b) := if (a, b) in t then t[(a, b)].(status := s) else Row(s, now)]
  }

  predicate CoolingDown(t: Table, a: UserId, b: UserId, now: Time) {
    Has(t, a, b, Rejected) && now - t[(a, b)].createdAt < COOLDOWN
  }

  // ---- the operations ---------------------------------------------------------------------

  /** The repository's answer to a request; blocks are not its business. */
  function RequestOutcome(t: Table, a: UserId, b: UserId, now: Time): Outcome {
    if a == b then Yourself
    else if Has(t, a, b, Accepted) || Has(t, b, a, Accepted) then AlreadyFriends
    else if Has(t, a, b, Pending) || CoolingDown(t, a, b, now) then AlreadyRequested
    else Ok
  }

  /** A request: a rejection that has cooled down makes way; it becomes friendship at once when the
      other side's request was waiting; a row there already is left alone. */
  function Request(t: Table, a: UserId, b: UserId, now: Time): Table {
    if RequestOutcome(t, a, b, now) != Ok then t else
      var cleared := if Has(t, a, b, Rejected) then t - {(a, b)} else t;
      if Has(t, b, a, Pending) then Upsert(cleared[(b, a) := t[(b, a)].(status := Accepted)], a, b, Accepted, now)
      else if (a, b) in cleared then cleared
      else cleared[(a, b) := Row(Pending, now)]
  }

  /** The handler's: a blocked pair is told there is no such user. */
  function SendOutcome(t: Table, a: UserId, b: UserId, now: Time): Outcome {
    if a == b then Yourself
    else if BlockedEither(t, a, b) then UserNotFound
    else RequestOutcome(t, a, b, now)
  }

  function Send(t: Table, a: UserId, b: UserId, now: Time): Table {
    if BlockedEither(t, a, b) then t else Request(t, a, b, now)
  }

  function Accept(t: Table, me: UserId, from: UserId, now: Time): Table {
    if !Has(t, from, me, Pending) then t
    else Upsert(t[(from, me) := t[(from, me)].(status := Accepted)], me, from, Accepted, now)
  }

  /** Rejects the other side's request if there is one, else withdraws one's own. */
  function RejectOrCancel(t: Table, me: UserId, other: UserId, now: Time): Table {
    if Has(t, other, me, Pending) then t[(other, me) := Row(Rejected, now)]
    else if Has(t, me, other, Pending) then t - {(me, other)}
    else t
  }

  function Remove(t: Table, a: UserId, b: UserId): Table {
    t - {(a, b), (b, a)}
  }

  function Block(t: Table, me: UserId, other: UserId, now: Time): Table {
    if me == other then t else Upsert(t, me, other, Blocked, now) - {(other, me)}
  }

  function Unblock(t: Table, me: UserId, other: UserId): Table {
    if Has(t, me, other, Blocked) then t - {(me, other)} else t
  }

  // ---- runs -------------------------------------------------------------------------------

  datatype Event =
    | Sends(a: UserId, b: UserId, now: Time)
    | Accepts(a: UserId, b: UserId, now: Time)
    | RejectsOrCancels(a: UserId, b: UserId, now: Time)
    | Removes(a: UserId, b: UserId, now: Time)
    | Blocks(a: UserId, b: UserId, now: Time)
    | Unblocks(a: UserId, b: UserId, now: Time)

  function Apply(t: Table, e: Event): Table {
    match e
    case Sends(a, b, now) => Send(t, a, b, now)
    case Accepts(a, b, now) => Accept(t, a, b, now)
    case RejectsOrCancels(a, b, now) => RejectOrCancel(t, a, b, now)
    case Removes(a, b, _) => Remove(t, a, b)
    case Blocks(a, b, now) => Block(t, a, b, now)
    case Unblocks(a, b, _) => Unblock(t, a, b)
  }

  function After(t: Table, run: seq<Event>): Table
    decreases |run|
  {
    if run == [] then t else After(Apply(t, run[0]), run[1..])
  }

  // ---- seven shapes -----------------------------------------------------------------------

  predicate HalfShape(p: Option<Status>, q: Option<Status>) {
    match (p, q)
    case (None, None) => true
    case (Some(Pending), None) => true
    case (Some(Rejected), None) => true
    case (Some(Rejected), Some(Pending)) => true
    case (Some(Rejected), Some(Rejected)) => true
    case (Some(Accepted), Some(Accepted)) => true
    case (Some(Blocked), None) => true
    case _ => false
  }

  /** The rows of a pair, one for each direction, form one of seven shapes up to swapping sides. */
  predicate Shape(t: Table, a: UserId, b: UserId) {
    HalfShape(StatusOf(t, a, b), StatusOf(t, b, a)) || HalfShape(StatusOf(t, b, a), StatusOf(t, a, b))
  }

  ghost predicate WellShaped(t: Table) {
    (forall a, b :: (a, b) in t ==> a != b) && (forall a, b :: a != b ==> Shape(t, a, b))
  }

  /** Only the two rows between a and b may differ. */
  ghost predicate OnlyPair(t: Table, s: Table, a: UserId, b: UserId) {
    forall x, y :: (x, y) != (a, b) && (x, y) != (b, a) ==> ((x, y) in s <==> (x, y) in t) && ((x, y) in t ==> s[(x, y)] == t[(x, y)])
  }

  lemma TouchesOnlyPair(t: Table, e: Event)
    ensures OnlyPair(t, Apply(t, e), e.a, e.b)
  {
  }

  lemma PairStaysShaped(t: Table, e: Event)
    requires WellShaped(t) && e.a != e.b
    ensures Shape(Apply(t, e), e.a, e.b)
  {
    assert Shape(t, e.a, e.b);
  }

  lemma StepKeepsShape(t: Table, e: Event)
    requires WellShaped(t)
    ensures WellShaped(Apply(t, e))
  {
    var s := Apply(t, e);
    TouchesOnlyPair(t, e);
    if e.a != e.b {
      PairStaysShaped(t, e);
    } else {
      assert s == t;
    }
    forall a, b | a != b ensures Shape(s, a, b) {
      assert Shape(t, a, b);
    }
  }

  /** Whatever the users do, from an empty table on, every pair keeps one of the seven shapes. */
  lemma {:induction false} AlwaysWellShaped(t: Table, run: seq<Event>)
    requires WellShaped(t)
    ensures WellShaped(After(t, run))
    decreases |run|
  {
    if run != [] {
      StepKeepsShape(t, run[0]);
      AlwaysWellShaped(Apply(t, run[0]), run[1..]);
    }
  }

  /** So friendship is symmetric, requests never wait both ways, and a block stands alone. */
  lemma ReachableTables(run: seq<Event>, a: UserId, b: UserId)
    ensures var t := After(map[], run);
      && (Has(t, a, b, Accepted) <==> Has(t, b, a, Accepted))
      && !(Has(t, a, b, Pending) && Has(t, b, a, Pending))
      && (Has(t, a, b, Blocked) ==> (b, a) !in t)
      && (a, a) !in t
  {
    AlwaysWellShaped(map[], run);
    if a != b {
      assert Shape(After(map[], run), a, b);
    }
  }

  /** The gate is needed: without it a request keeps every pair well shaped exactly when its target
      has not blocked the sender. */
  lemma UngatedRequestIff(t: Table, a: UserId, b: UserId, now: Time)
    requires WellShaped(t)
    ensures WellShaped(Request(t, a, b, now)) <==> !Has(t, b, a, Blocked)
  {
    if a == b {
      assert (a, b) !in t;
    } else {
      assert Shape(t, a, b);
      var s := Request(t, a, b, now);
      if Has(t, b, a, Blocked) {
        assert !Shape(s, a, b);
      } else if !Has(t, a, b, Blocked) {
        StepKeepsShape(t, Sends(a, b, now));
      }
    }
  }

  // ---- how long a block lasts -------------------------------------------------------------

  /** The events that end a's block of b: a lifts it, either side removes the other, or b blocks
      a back, which deletes the reverse row even when that row is itself a block. */
  predicate EndsBlock(e: Event, a: UserId, b: UserId) {
    (e.Unblocks? && e.a == a && e.b == b) ||
    (e.Removes? && (e.a, e.b) in {(a, b), (b, a)}) ||
    (e.Blocks? && e.a == b && e.b == a)
  }

  lemma BlockEndsExactly(t: Table, a: UserId, b: UserId, e: Event)
    requires WellShaped(t) && Has(t, a, b, Blocked)
    ensures Has(Apply(t, e), a, b, Blocked) <==> !EndsBlock(e, a, b)
  {
    assert Shape(t, a, b) && a != b;
    TouchesOnlyPair(t, e);
  }

  // ---- the cooldown -----------------------------------------------------------------------

  predicate Touches(e: Event, a: UserId, b: UserId) {
    (e.Removes? || e.Blocks? || e.Unblocks?) && (e.a, e.b) in {(a, b), (b, a)}
  }

  /** After the rejection at `since`, a's row to b is that rejection or has become friendship. */
  predicate StillRejected(t: Table, a: UserId, b: UserId, since: Time) {
    (a, b) in t && (t[(a, b)] == Row(Rejected, since) || t[(a, b)].status == Accepted)
  }

  lemma RejectionStep(t: Table, a: UserId, b: UserId, since: Time, e: Event)
    requires WellShaped(t) && StillRejected(t, a, b, since)
    requires e.now - since < COOLDOWN && !Touches(e, a, b)
    ensures StillRejected(Apply(t, e), a, b, since)
  {
    assert a != b && Shape(t, a, b);
    TouchesOnlyPair(t, e);
  }

  lemma {:induction false} RejectionHolds(t: Table, a: UserId, b: UserId, since: Time, run: seq<Event>)
    requires WellShaped(t) && StillRejected(t, a, b, since)
    requires forall e :: e in run ==> e.now - since < COOLDOWN && !Touches(e, a, b)
    ensures StillRejected(After(t, run), a, b, since)
    decreases |run|
  {
    if run != [] {
      RejectionStep(t, a, b, since, run[0]);
      StepKeepsShape(t, run[0]);
      RejectionHolds(Apply(t, run[0]), a, b, since, run[1..]);
    }
  }

  /** Once b has rejected a's request, a has no pending request to b for the next seven days,
      whatever anybody does short of Remove, Block or Unblock between the two. */
  lemma NoNewRequestForAWeek(before: seq<Event>, a: UserId, b: UserId, since: Time, run: seq<Event>)
    requires Has(After(map[], before), a, b, Pending)
    requires forall e :: e in run ==> e.now - since < COOLDOWN && !Touches(e, a, b)
    ensures var rejected := RejectOrCancel(After(map[], before), b, a, since);
      !Has(After(rejected, run), a, b, Pending)
  {
    var t := After(map[], before);
    AlwaysWellShaped(map[], before);
    StepKeepsShape(t, RejectsOrCancels(b, a, since));
    RejectionHolds(RejectOrCancel(t, b, a, since), a, b, since, run);
  }

  /** And when the seven days are over, a new request goes out again. */
  lemma RequestAfterCooldown(t: Table, a: UserId, b: UserId, since: Time, now: Time)
    requires WellShaped(t) && (a, b) in t && t[(a, b)] == Row(Rejected, since)
    ensures SendOutcome(t, a, b, now) == Ok <==> now - since >= COOLDOWN
    ensures now - since >= COOLDOWN ==>
      Has(Send(t, a, b, now), a, b, if Has(t, b, a, Pending) then Accepted else Pending)
  {
    assert Shape(t, a, b);
  }

  // ---- the table behind the handlers ------------------------------------------------------

  class FriendTable {
    var rows: Table

    constructor ()
      ensures rows == map[]
    {
      rows := map[];
    }

    method AreFriends(a: UserId, b: UserId) returns (yes: bool)
      ensures yes == Has(rows, a, b, Accepted)
    {
      yes := (a, b) in rows && rows[(a, b)].status == Accepted;
    }

    method IsBlockedEither(a: UserId, b: UserId) returns (yes: bool)
      ensures yes == BlockedEither(rows, a, b)
    {
      yes := ((a, b) in rows && rows[(a, b)].status == Blocked) || ((b, a) in rows && rows[(b, a)].status == Blocked);
    }

    /** The repository's SendRequest, which leaves the block gate to the handler. */
    method SendRequest(a: UserId, b: UserId, now: Time) returns (outcome: Outcome)
      modifies this
      ensures outcome == RequestOutcome(old(rows), a, b, now)
      ensures rows == Request(old(rows), a, b, now)
    {
      if a == b {
        return Yourself;
      }
      var friendsAB := AreFriends(a, b);
      var friendsBA := AreFriends(b, a);
      if friendsAB || friendsBA {
        return AlreadyFriends;
      }
      if (a, b) in rows && rows[(a, b)].status == Pending {
        return AlreadyRequested;
      }
      if (a, b) in rows && rows[(a, b)].status == Rejected {
        if now - rows[(a, b)].createdAt < COOLDOWN {
          return AlreadyRequested;
        }
        rows := rows - {(a, b)};
      }
      if (b, a) in rows && rows[(b, a)].status == Pending {
        rows := rows[(b, a) := rows[(b, a)].(status := Accepted)];
        rows := Upsert(rows, a, b, Accepted, now);
        return Ok;
      }
      if (a, b) !in rows {
        rows := rows[(a, b) := Row(Pending, now)];
      }
      outcome := Ok;
    }

    method HandleSendRequest(a: UserId, b: UserId, now: Time) returns (outcome: Outcome)
      modifies this
      ensures outcome == SendOutcome(old(rows), a, b, now)
      ensures rows == Send(old(rows), a, b, now)
    {
      if a == b {
        return Yourself;
      }
      var blocked := IsBlockedEither(a, b);
      if blocked {
        return UserNotFound;
      }
      outcome := SendRequest(a, b, now);
    }

    method AcceptRequest(me: UserId, from: UserId, now: Time) returns (outcome: Outcome)
      modifies this
      ensures outcome == if Has(old(rows), from, me, Pending) then Ok else RequestNotFound
      ensures rows == Accept(old(rows), me, from, now)
      ensures outcome == Ok ==> Has(rows, from, me, Accepted) && Has(rows, me, from, Accepted)
      ensures outcome == Ok ==> rows[(from, me)].createdAt == old(rows)[(from, me)].createdAt
      ensures outcome == Ok ==>
        rows[(me, from)].createdAt == if (me, from) in old(rows) then old(rows)[(me, from)].createdAt else now
      ensures OnlyPair(old(rows), rows, from, me)
    {
      if (from, me) !in rows || rows[(from, me)].status != Pending {
        return RequestNotFound;
      }
      rows := rows[(from, me) := rows[(from, me)].(status := Accepted)];
      if (me, from) in rows {
        rows := rows[(me, from) := rows[(me, from)].(status := Accepted)];
      } else {
        rows := rows[(me, from) := Row(Accepted, now)];
      }
      outcome := Ok;
    }

    method RejectRequest(me: UserId, from: UserId, now: Time) returns (outcome: Outcome)
      modifies this
      ensures outcome == if Has(old(rows), from, me, Pending) then Ok else RequestNotFound
      ensures rows == if outcome == Ok then old(rows)[(from, me) := Row(Rejected, now)] else old(rows)
    {
      if (from, me) !in rows || rows[(from, me)].status != Pending {
        return RequestNotFound;
      }
      rows := rows[(from, me) := Row(Rejected, now)];
      outcome := Ok;
    }

    method CancelOutgoing(me: UserId, to: UserId) returns (outcome: Outcome)
      modifies this
      ensures outcome == if Has(old(rows), me, to, Pending) then Ok else RequestNotFound
      ensures rows == if outcome == Ok then old(rows) - {(me, to)} else old(rows)
    {
      if (me, to) !in rows || rows[(me, to)].status != Pending {
        return RequestNotFound;
      }
      rows := rows - {(me, to)};
      outcome := Ok;
    }

    method HandleRejectOrCancel(me: UserId, other: UserId, now: Time) returns (outcome: Outcome)
      modifies this
      ensures rows == RejectOrCancel(old(rows), me, other, now)
      ensures outcome == Ok <==> Has(old(rows), other, me, Pending) || Has(old(rows), me, other, Pending)
    {
      outcome := RejectRequest(me, other, now);
      if outcome != Ok {
        outcome := CancelOutgoing(me, other);
      }
    }

    method RemoveFriend(a: UserId, b: UserId)
      modifies this
      ensures rows == Remove(old(rows), a, b)
    {
      rows := rows - {(a, b)};
      rows := rows - {(b, a)};
    }

    method BlockUser(me: UserId, other: UserId, now: Time) returns (outcome: Outcome)
      modifies this
      ensures outcome == if me == other then Yourself else Ok
      ensures rows == Block(old(rows), me, other, now)
    {
      if me == other {
        return Yourself;
      }
      if (me, other) in rows {
        rows := rows[(me, other) := rows[(me, other)].(status := Blocked)];
      } else {
        rows := rows[(me, other) := Row(Blocked, now)];
      }
      rows := rows - {(other, me)};
      outcome := Ok;
    }

    method UnblockUser(me: UserId, other: UserId)
      modifies this
      ensures rows == Unblock(old(rows), me, other)
    {
      if (me, other) in rows && rows[(me, other)].status == Blocked {
        rows := rows - {(me, other)};
      }
    }
  }
}
