/** Premium numbers: in every reachable state a pool row is locked exactly when its number is
    premium and no administrator has granted or released it yet. */
module AccountPremiums {
  import opened Common
  import opened PremiumNumbers
  import opened AccountPool
  import opened AccountPoolRuns

  /** The number an administrator's event takes out of the locked set, if it succeeds. */
  ghost function EventFrees(t: Tables, e: Event): set<int> {
    match e
    case GrantPremium(premium, owner) =>
      if owner in t.users && GrantOutcome(t, premium, t.users[owner]) == Done then {premium} else {}
    case ReleasePremium(number) => if Releasable(t, number) then {number} else {}
    case _ => {}
  }

  ghost function Freed(t: Tables, clock: Time, run: seq<Event>): set<int>
    requires IsRun(t, clock, run)
    decreases |run|
  {
    if run == [] then {} else
      EventFrees(t, run[0]) + Freed(Apply(t, run[0]), Tick(clock, run[0]), run[1..])
  }

  /** Rows sit in a known segment, at their place. */
  ghost predicate Placed(t: Tables) {
    (forall k :: k in t.segments ==> k >= 1 && t.segments[k].start == SegmentStart(k) && t.segments[k].end == SegmentEnd(k)) &&
    (forall n :: n in t.pool ==> t.pool[n].segment in t.segments && n >= FIRST_NUMBER && t.pool[n].segment == SegmentOf(n))
  }

  ghost predicate LockExact(t: Tables, freed: set<int>) {
    Placed(t) &&
    (forall n :: n in freed ==> n in t.pool) &&
    (forall n :: n in t.pool ==> (t.pool[n].locked <==> LockedPattern(n) && n !in freed))
  }

  /** Same segments and rows, no lock changed. */
  ghost predicate SameLocks(t: Tables, s: Tables) {
    s.segments == t.segments && s.pool.Keys == t.pool.Keys &&
    forall n :: n in t.pool ==> s.pool[n].locked == t.pool[n].locked && s.pool[n].segment == t.pool[n].segment
  }

  lemma SameLocksExact(t: Tables, s: Tables, freed: set<int>)
    requires LockExact(t, freed) && SameLocks(t, s)
    ensures LockExact(s, freed + {})
  {
    assert freed + {} == freed;
  }

  lemma PopulateLocksExactly(t: Tables, k: nat, freed: set<int>)
    requires LockExact(t, freed) && k in t.segments
    ensures LockExact(Populate(t, k, SegmentStart(k), SegmentEnd(k)), freed + {})
  {
    var s := Populate(t, k, SegmentStart(k), SegmentEnd(k));
    assert freed + {} == freed;
    forall n | n in s.pool && n !in t.pool
      ensures n >= FIRST_NUMBER && s.pool[n].segment == SegmentOf(n) && s.pool[n].locked == LockedPattern(n)
    {
      assert Missing(t, SegmentStart(k), SegmentEnd(k), n);
      SegmentsPartition(n, k);
      TriggerMatchesRule(n);
    }
  }

  lemma OpenLocksExactly(t: Tables, k: nat, freed: set<int>)
    requires LockExact(t, freed) && k >= 1
    ensures LockExact(OpenSegmentNo(t, k), freed + {})
  {
    var w := WithSegment(t, k);
    assert LockExact(w, freed);
    PopulateLocksExactly(w, k, freed);
  }

  lemma SegmentLocksExactly(t: Tables, s: Tables, top: nat, freed: set<int>)
    requires LockExact(t, freed) && (s == t || s == OpenSegmentNo(t, top + 1))
    ensures LockExact(s, freed + {})
  {
    if s == t {
      SameLocksExact(t, t, freed);
    } else {
      OpenLocksExactly(t, top + 1, freed);
    }
  }

  lemma CapacityLocksExactly(t: Tables, now: Time, top: nat, freed: set<int>)
    requires LockExact(t, freed)
    ensures LockExact(EnsureCapacity(t, now, top), freed + {})
  {
    SegmentLocksExactly(t, EnsureCapacity(t, now, top), top, freed);
  }

  lemma ReleaseFreesOne(t: Tables, number: int, freed: set<int>)
    requires LockExact(t, freed)
    ensures LockExact(Release(t, number), freed + EventFrees(t, ReleasePremium(number)))
  {
  }

  lemma GrantFreesOne(t: Tables, premium: int, owner: UserId, freed: set<int>)
    requires LockExact(t, freed) && owner in t.users
    ensures LockExact(Grant(t, premium, owner), freed + EventFrees(t, GrantPremium(premium, owner)))
  {
    var s := Grant(t, premium, owner);
    if GrantOutcome(t, premium, t.users[owner]) == Done {
      assert s.pool.Keys == t.pool.Keys;
      assert forall n :: n in t.pool && n != premium ==> s.pool[n].locked == t.pool[n].locked;
    } else {
      SameLocksExact(t, s, freed);
    }
  }

  lemma LockExactStep(t: Tables, e: Event, freed: set<int>)
    requires LockExact(t, freed) && Possible(t, e)
    ensures LockExact(Apply(t, e), freed + EventFrees(t, e))
  {
    match e
    case GrantPremium(premium, owner) => GrantFreesOne(t, premium, owner, freed);
    case ReleasePremium(number) => ReleaseFreesOne(t, number, freed);
    case OpenSegment(now) =>
      CapacityLocksExactly(t, now, MaxKey(t.segments.Keys), freed);
    case RepopulateSegment(k) => PopulateLocksExactly(t, k, freed);
    case DrawNumbers(now, ip, token, picks) => SameLocksExact(t, Draw(t, now, ip, token, picks), freed);
    case RefreshNumbers(now, ip, token, picks) => SameLocksExact(t, Refresh(t, now, ip, token, picks), freed);
    case RegisterUser(now, ip, token, chosen, user) => SameLocksExact(t, Register(t, now, ip, token, chosen, user), freed);
    case SweepUsers(doomed) => SameLocksExact(t, PurgeUsers(t, doomed), freed);
    case SweepSelections(now) => SameLocksExact(t, GcSelections(t, now), freed);
    case SweepStale(now) => SameLocksExact(t, ClearStale(t, now), freed);
  }

  lemma {:induction false} LockExactAlong(t: Tables, clock: Time, run: seq<Event>, freed: set<int>)
    requires LockExact(t, freed) && IsRun(t, clock, run)
    ensures LockExact(After(t, clock, run), freed + Freed(t, clock, run))
    decreases |run|
  {
    if run == [] {
      assert freed + {} == freed;
    } else {
      LockExactStep(t, run[0], freed);
      var more := EventFrees(t, run[0]);
      LockExactAlong(Apply(t, run[0]), Tick(clock, run[0]), run[1..], freed + more);
      var rest := Freed(Apply(t, run[0]), Tick(clock, run[0]), run[1..]);
      assert freed + more + rest == freed + (more + rest);
    }
  }

  /** Whatever happened since the seeded database, a row is locked exactly when its number is
      premium and was never granted or released. */
  lemma LockedExactly(t: Tables, clock: Time, run: seq<Event>, n: int)
    requires Initial(t) && IsRun(t, clock, run) && n in After(t, clock, run).pool
    ensures After(t, clock, run).pool[n].locked <==> LockedPattern(n) && n !in Freed(t, clock, run)
  {
    assert LockExact(t, {});
    LockExactAlong(t, clock, run, {});
    assert {} + Freed(t, clock, run) == Freed(t, clock, run);
  }

  /** Every number a draw can hand out is a six-digit-or-longer number nobody uses, and if it is
      premium then an administrator had granted or released it before. */
  lemma DrawnNumbers(t: Tables, clock: Time, run: seq<Event>, now: Time, exclude: set<int>, picks: seq<int>, n: int)
    requires Initial(t) && IsRun(t, clock, run)
    requires IsDraw(After(t, clock, run), now, DRAW_SIZE, exclude, picks) && n in picks
    ensures n >= FIRST_NUMBER && !InUse(After(t, clock, run), n)
    ensures LockedPattern(n) ==> n in Freed(t, clock, run)
  {
    var s := After(t, clock, run);
    assert Candidate(s, now, exclude, n);
    LockedExactly(t, clock, run, n);
    assert LockExact(t, {});
    LockExactAlong(t, clock, run, {});
    ClaimsAlwaysAgree(t, clock, run);
    assert forall u :: u in s.users ==> s.users[u] != n;
  }

  /** A granted premium number does not go back under lock when its owner is granted another one:
      it returns free for any draw (the comment on the grant handler says otherwise). */
  lemma RegrantFreesThePremium(t: Tables, p: int, q: int, owner: UserId, now: Time)
    requires owner in t.users && GrantOutcome(t, p, t.users[owner]) == Done
    requires GrantOutcome(Grant(t, p, owner), q, p) == Done
    ensures var s := Grant(Grant(t, p, owner), q, owner);
      p in s.pool && Free(s.pool[p], now)
  {
  }

  // ---- filling a segment --------------------------------------------------------------

  /** After filling a segment every number of it is in the pool or in use, each new row is
      unclaimed, in nobody's use and locked by the rule; filling again changes nothing. */
  lemma PopulateCovers(t: Tables, k: nat)
    requires k >= 1
    ensures var s := Populate(t, k, SegmentStart(k), SegmentEnd(k));
      && (forall n :: SegmentStart(k) <= n <= SegmentEnd(k) ==> n in s.pool || InUse(s, n))
      && (forall n :: n in s.pool && n !in t.pool ==>
           !InUse(s, n) && SegmentStart(k) <= n <= SegmentEnd(k) && s.pool[n] == PoolRow(k, LockedPattern(n), None, None))
      && (forall n :: n in t.pool ==> n in s.pool && s.pool[n] == t.pool[n])
      && Populate(s, k, SegmentStart(k), SegmentEnd(k)) == s
  {
    var s := Populate(t, k, SegmentStart(k), SegmentEnd(k));
    forall n | SegmentStart(k) <= n <= SegmentEnd(k) ensures n in s.pool || InUse(s, n) {
      assert n in t.pool || InUse(t, n) || Missing(t, SegmentStart(k), SegmentEnd(k), n);
    }
    forall n | n in s.pool && n !in t.pool ensures s.pool[n] == PoolRow(k, LockedPattern(n), None, None) {
      assert Missing(t, SegmentStart(k), SegmentEnd(k), n);
      TriggerMatchesRule(n);
    }
    assert forall n :: !Missing(s, SegmentStart(k), SegmentEnd(k), n);
    assert Populate(s, k, SegmentStart(k), SegmentEnd(k)).pool == s.pool;
  }
}
