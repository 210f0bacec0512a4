/** Exactly what each event of the allocator changes: who owns which number, which selections there
    are, and what is reserved until when. */
module AccountChanges {
  import opened Common
  import opened PremiumNumbers
  import opened AccountPool
  import opened AccountPoolRuns
  import opened AccountPremiums
  import opened AccountReservations

  // ---- which requests go through ------------------------------------------------------------

  /** Registering succeeds exactly for the numbers of an unexpired selection made from the same address. */
  lemma RegisterSucceedsIff(t: Tables, now: Time, ip: string, token: Token, chosen: int)
    requires ClaimsAgree(t) && LiveSound(t, now)
    ensures RegisterOutcome(t, now, ip, token, chosen) == Done <==>
      token in t.selections && now <= t.selections[token].expiresAt && t.selections[token].ip == ip &&
      chosen in t.selections[token].numbers
  {
    if Usable(t, now, ip, token) && chosen in t.selections[token].numbers {
      HolderCanRegister(t, now, ip, token, chosen);
    }
  }

  predicate Unlocked(t: Tables, n: int) {
    n in t.pool && !t.pool[n].locked
  }

  ghost predicate AllUnlocked(t: Tables, numbers: seq<int>) {
    forall n :: n in numbers ==> Unlocked(t, n)
  }

  /** Listed numbers have unlocked rows, and so do claimed ones. */
  ghost predicate ListedUnlocked(t: Tables) {
    (forall k :: k in t.selections ==> AllUnlocked(t, t.selections[k].numbers)) &&
    (forall n :: n in t.pool && t.pool[n].claimedBy.Some? ==> Unlocked(t, n))
  }

  /** No unlocked row goes or gets locked, a new claim is on an unlocked row, and a new batch lists
      unlocked rows. */
  ghost predicate LocksOnlyFall(t: Tables, s: Tables) {
    (forall n :: Unlocked(t, n) ==> Unlocked(s, n)) &&
    (forall n :: n in s.pool && s.pool[n].claimedBy.Some? ==> Unlocked(s, n) || (n in t.pool && t.pool[n].claimedBy.Some?)) &&
    (forall k :: k in s.selections ==>
      (k in t.selections && s.selections[k].numbers == t.selections[k].numbers) || AllUnlocked(s, s.selections[k].numbers))
  }

  lemma LocksFallListed(t: Tables, s: Tables)
    requires ListedUnlocked(t) && LocksOnlyFall(t, s)
    ensures ListedUnlocked(s)
  {
  }

  lemma PicksUnlocked(t: Tables, now: Time, exclude: set<int>, picks: seq<int>)
    requires IsDraw(t, now, DRAW_SIZE, exclude, picks)
    ensures AllUnlocked(t, picks)
  {
    forall n | n in picks ensures Unlocked(t, n) {
      assert Candidate(t, now, exclude, n);
    }
  }

  lemma BatchLocksFall(t: Tables, e: Event)
    requires Possible(t, e) && (e.DrawNumbers? || e.RefreshNumbers?)
    ensures LocksOnlyFall(t, Apply(t, e))
  {
    var s := Apply(t, e);
    if e.DrawNumbers? {
      PicksUnlocked(t, e.now, {}, e.picks);
    } else if MayRefresh(t, e.now, e.ip, e.token) {
      PicksUnlocked(Returned(t, e.token), e.now, Listed(t, e.token), e.picks);
    }
    assert forall n :: Unlocked(t, n) <==> Unlocked(s, n);
  }

  lemma RegisterLocksFall(t: Tables, e: Event)
    requires Possible(t, e) && e.RegisterUser? && ListedUnlocked(t)
    ensures LocksOnlyFall(t, Apply(t, e))
  {
    var s := Apply(t, e);
    assert forall n :: Unlocked(t, n) <==> Unlocked(s, n);
    if RegisterOutcome(t, e.now, e.ip, e.token, e.chosen) == Done {
      assert AllUnlocked(t, t.selections[e.token].numbers) && Unlocked(t, e.chosen);
    }
  }

  lemma FillLocksFall(t: Tables, k: nat, lo: int, hi: int)
    ensures LocksOnlyFall(t, Populate(t, k, lo, hi))
  {
    var s := Populate(t, k, lo, hi);
    forall n | n in s.pool ensures s.pool[n] == if n in t.pool then t.pool[n] else NewRow(k, n) {
    }
    forall n | n in t.pool ensures n in s.pool {
    }
  }

  lemma OpenLocksFall(t: Tables, now: Time, top: nat)
    ensures LocksOnlyFall(t, EnsureCapacity(t, now, top))
  {
    var w := WithSegment(t, top + 1);
    FillLocksFall(w, top + 1, SegmentStart(top + 1), SegmentEnd(top + 1));
    assert forall n :: Unlocked(t, n) <==> Unlocked(w, n);
  }

  lemma ListedStep(t: Tables, e: Event)
    requires ListedUnlocked(t) && Possible(t, e)
    ensures ListedUnlocked(Apply(t, e))
  {
    match e {
    case DrawNumbers(_, _, _, _) => BatchLocksFall(t, e);
    case RefreshNumbers(_, _, _, _) => BatchLocksFall(t, e);
    case RegisterUser(_, _, _, _, _) => RegisterLocksFall(t, e);
    case OpenSegment(now) => OpenLocksFall(t, now, MaxKey(t.segments.Keys));
    case RepopulateSegment(k) => FillLocksFall(t, k, t.segments[k].start, t.segments[k].end);
    case _ => assert LocksOnlyFall(t, Apply(t, e));
    }
    LocksFallListed(t, Apply(t, e));
  }

  lemma {:induction false} AlwaysListed(t: Tables, clock: Time, run: seq<Event>)
    requires ListedUnlocked(t) && IsRun(t, clock, run)
    ensures ListedUnlocked(After(t, clock, run))
    decreases |run|
  {
    if run != [] {
      ListedStep(t, run[0]);
      AlwaysListed(Apply(t, run[0]), Tick(clock, run[0]), run[1..]);
    }
  }

  /** In every reachable state a premium number can be granted exactly while it is locked, to any
      user with a positive number. */
  lemma GrantSucceedsIff(t: Tables, clock: Time, run: seq<Event>, premium: int, recipient: int)
    requires Initial(t) && IsRun(t, clock, run)
    ensures var s := After(t, clock, run);
      GrantOutcome(s, premium, recipient) == Done <==>
        premium in s.pool && s.pool[premium].locked && recipient > 0 && exists u :: u in s.users && s.users[u] == recipient
  {
    var s := After(t, clock, run);
    ClaimsAlwaysAgree(t, clock, run);
    AlwaysListed(t, clock, run);
    assert LockExact(t, {});
    LockExactAlong(t, clock, run, {});
    GrantGuards(s, premium, recipient);
  }

  lemma GrantGuards(t: Tables, premium: int, recipient: int)
    requires ClaimsAgree(t) && ListedUnlocked(t) && Placed(t)
    ensures GrantOutcome(t, premium, recipient) == Done <==>
      premium in t.pool && t.pool[premium].locked && recipient > 0 && exists u :: u in t.users && t.users[u] == recipient
  {
    assert InUse(t, recipient) <==> exists u :: u in t.users && t.users[u] == recipient by {
      assert forall u :: Owns(t, u, recipient) <==> u in t.users && t.users[u] == recipient;
    }
    if premium in t.pool && t.pool[premium].locked {
      assert t.pool[premium].claimedBy.None?;
      assert !InUse(t, premium);
    }
  }

  // ---- owners ---------------------------------------------------------------------------------

  ghost predicate Registers(t: Tables, e: Event) {
    e.RegisterUser? && RegisterOutcome(t, e.now, e.ip, e.token, e.chosen) == Done
  }

  ghost predicate Grants(t: Tables, e: Event) {
    e.GrantPremium? && e.owner in t.users && GrantOutcome(t, e.premium, t.users[e.owner]) == Done
  }

  /** A user has a number after an event exactly if the event gave it, or the user had it and was
      neither purged nor given another. */
  lemma OwnersChangeExactly(t: Tables, e: Event, u: UserId, n: int)
    requires Possible(t, e)
    ensures Owns(Apply(t, e), u, n) <==>
      (Registers(t, e) && e.user == u && e.chosen == n) ||
      (Grants(t, e) && e.owner == u && e.premium == n) ||
      (Owns(t, u, n) && !(e.SweepUsers? && u in e.doomed) && !(Grants(t, e) && e.owner == u))
  {
  }

  // ---- selections -----------------------------------------------------------------------------

  /** The selection's own address asks in time and for at most the third new batch. */
  ghost predicate Renews(t: Tables, e: Event) {
    e.RefreshNumbers? && e.picks != [] && e.token in t.selections &&
    var sel := t.selections[e.token];
    e.now <= sel.expiresAt && sel.ip == e.ip && sel.refreshesUsed < 3
  }

  /** A selection is there after an event exactly if the event drew or renewed it so, or it was there
      and was not renewed, used to register, or swept as expired. */
  lemma SelectionsChangeExactly(t: Tables, e: Event, k: Token, sel: Selection)
    requires Possible(t, e)
    ensures k in Apply(t, e).selections && Apply(t, e).selections[k] == sel <==>
      (e.DrawNumbers? && e.token == k && k !in t.selections && e.picks != [] &&
       sel == Selection(e.ip, 0, e.picks, e.now + 600)) ||
      (Renews(t, e) && e.token == k &&
       sel == Selection(e.ip, t.selections[k].refreshesUsed + 1, e.picks, e.now + 600)) ||
      (k in t.selections && sel == t.selections[k] && !(Renews(t, e) && e.token == k) &&
       !(Registers(t, e) && e.token == k) && !(e.SweepSelections? && sel.expiresAt < e.now))
  {
  }

  // ---- reservations ---------------------------------------------------------------------------

  ghost predicate Draws(t: Tables, e: Event) {
    e.DrawNumbers? && e.token !in t.selections
  }

  /** The event gives n back: as one of a batch returned or used up, as a number changing hands, or
      because its reservation or the selection listing it has run out. */
  ghost predicate GivesBack(t: Tables, e: Event, n: int)
    requires n in t.pool
  {
    (Renews(t, e) && n in t.selections[e.token].numbers) ||
    (Registers(t, e) && n in t.selections[e.token].numbers) ||
    (Grants(t, e) && (n == e.premium || n == t.users[e.owner])) ||
    (e.SweepSelections? && t.pool[n].claimedBy.None? &&
     exists k :: k in t.selections && t.selections[k].expiresAt < e.now && n in t.selections[k].numbers) ||
    (e.SweepStale? && t.pool[n].claimedBy.None? && t.pool[n].reservedUntil.Some? && t.pool[n].reservedUntil.value < e.now)
  }

  /** A number drawn is reserved for ten minutes, one given back is not, any other keeps what it had. */
  ghost function ReservedNext(t: Tables, e: Event, n: int): Option<Time>
    requires n in t.pool
  {
    if (Draws(t, e) || Renews(t, e)) && n in e.picks then Some(e.now + 600)
    else if GivesBack(t, e, n) then None
    else t.pool[n].reservedUntil
  }

  ghost predicate ReservedAsSaid(t: Tables, s: Tables, e: Event, n: int)
    requires n in t.pool
  {
    n in s.pool && s.pool[n].reservedUntil == ReservedNext(t, e, n)
  }

  lemma SweepReservations(t: Tables, e: Event, n: int)
    requires n in t.pool && e.SweepSelections?
    ensures ReservedAsSaid(t, GcSelections(t, e.now), e, n)
  {
    assert forall k :: k in t.selections ==> (Expired(t.selections[k], e.now) <==> t.selections[k].expiresAt < e.now);
    assert ListedInExpired(t, e.now, n) <==>
      exists k :: k in t.selections && t.selections[k].expiresAt < e.now && n in t.selections[k].numbers;
  }

  lemma FillReservations(t: Tables, k: nat, lo: int, hi: int, n: int)
    requires n in t.pool
    ensures n in Populate(t, k, lo, hi).pool && Populate(t, k, lo, hi).pool[n] == t.pool[n]
  {
  }

  lemma OpenReservations(t: Tables, now: Time, top: nat, n: int)
    requires n in t.pool
    ensures n in EnsureCapacity(t, now, top).pool && EnsureCapacity(t, now, top).pool[n] == t.pool[n]
  {
    FillReservations(WithSegment(t, top + 1), top + 1, SegmentStart(top + 1), SegmentEnd(top + 1), n);
  }

  lemma RefreshReservations(t: Tables, e: Event, n: int)
    requires n in t.pool && e.RefreshNumbers?
    ensures ReservedAsSaid(t, Refresh(t, e.now, e.ip, e.token, e.picks), e, n)
  {
  }

  lemma OwnerReservations(t: Tables, e: Event, n: int)
    requires Possible(t, e) && n in t.pool && (e.RegisterUser? || e.GrantPremium?)
    ensures ReservedAsSaid(t, Apply(t, e), e, n)
  {
  }

  lemma FillKeepsReservations(t: Tables, s: Tables, e: Event, n: int)
    requires n in t.pool && n in s.pool && s.pool[n] == t.pool[n] && (e.OpenSegment? || e.RepopulateSegment?)
    ensures ReservedAsSaid(t, s, e, n)
  {
  }

  lemma OtherReservations(t: Tables, e: Event, n: int)
    requires Possible(t, e) && n in t.pool
    requires e.DrawNumbers? || e.ReleasePremium? || e.SweepUsers? || e.SweepStale?
    ensures ReservedAsSaid(t, Apply(t, e), e, n)
  {
  }

  /** What is reserved after any event, and until when. */
  lemma ReservationsChangeExactly(t: Tables, e: Event, n: int)
    requires Possible(t, e) && n in t.pool
    ensures ReservedAsSaid(t, Apply(t, e), e, n)
  {
    match e
    case RefreshNumbers(_, _, _, _) => RefreshReservations(t, e, n);
    case RegisterUser(_, _, _, _, _) => OwnerReservations(t, e, n);
    case GrantPremium(_, _) => OwnerReservations(t, e, n);
    case SweepSelections(_) => SweepReservations(t, e, n);
    case OpenSegment(now) =>
      OpenReservations(t, now, MaxKey(t.segments.Keys), n);
      FillKeepsReservations(t, Apply(t, e), e, n);
    case RepopulateSegment(k) =>
      FillReservations(t, k, t.segments[k].start, t.segments[k].end, n);
      FillKeepsReservations(t, Apply(t, e), e, n);
    case _ => OtherReservations(t, e, n);
  }
}
