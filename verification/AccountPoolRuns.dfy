/** What every run of the allocator keeps: one owner a number, sound reservations, and premium
    numbers that stay locked until an administrator lets them go. */
module AccountPoolRuns {
  import opened Common
  import opened PremiumNumbers
  import opened AccountPool

  datatype Event =
    | DrawNumbers(now: Time, ip: string, token: Token, picks: seq<int>)
    | RefreshNumbers(now: Time, ip: string, token: Token, picks: seq<int>)
    | RegisterUser(now: Time, ip: string, token: Token, chosen: int, user: UserId)
    | GrantPremium(premium: int, owner: UserId)
    | ReleasePremium(number: int)
    | SweepUsers(doomed: set<UserId>)
    | SweepSelections(now: Time)
    | SweepStale(now: Time)
    | OpenSegment(now: Time)
    | RepopulateSegment(segment: nat)

  /** What the environment guarantees: random picks are candidates, a new user id is fresh, the
      recipient of a grant exists, only known segments are repopulated. */
  ghost predicate Possible(t: Tables, e: Event) {
    match e
    case DrawNumbers(now, _, _, picks) => IsDraw(t, now, DRAW_SIZE, {}, picks)
    case RefreshNumbers(now, ip, token, picks) =>
      MayRefresh(t, now, ip, token) ==>
        IsDraw(Returned(t, token), now, DRAW_SIZE, Listed(t, token), picks)
    case RegisterUser(_, _, _, _, user) => user !in t.users
    case GrantPremium(_, owner) => owner in t.users
    case RepopulateSegment(k) => k in t.segments
    case _ => true
  }

  ghost function Apply(t: Tables, e: Event): Tables
    requires Possible(t, e)
  {
    match e
    case DrawNumbers(now, ip, token, picks) => Draw(t, now, ip, token, picks)
    case RefreshNumbers(now, ip, token, picks) => Refresh(t, now, ip, token, picks)
    case RegisterUser(now, ip, token, chosen, user) => Register(t, now, ip, token, chosen, user)
    case GrantPremium(premium, owner) => Grant(t, premium, owner)
    case ReleasePremium(number) => Release(t, number)
    case SweepUsers(doomed) => PurgeUsers(t, doomed)
    case SweepSelections(now) => GcSelections(t, now)
    case SweepStale(now) => ClearStale(t, now)
    case OpenSegment(now) => EnsureCapacity(t, now, MaxKey(t.segments.Keys))
    case RepopulateSegment(k) => Populate(t, k, t.segments[k].start, t.segments[k].end)
  }

  /** The clock after an event: it never runs backwards. */
  function Tick(clock: Time, e: Event): Time {
    match e
    case DrawNumbers(now, _, _, _) => now
    case RefreshNumbers(now, _, _, _) => now
    case RegisterUser(now, _, _, _, _) => now
    case SweepSelections(now) => now
    case SweepStale(now) => now
    case OpenSegment(now) => now
    case _ => clock
  }

  ghost predicate IsRun(t: Tables, clock: Time, run: seq<Event>)
    decreases |run|
  {
    run == [] || (Possible(t, run[0]) && clock <= Tick(clock, run[0]) &&
                  IsRun(Apply(t, run[0]), Tick(clock, run[0]), run[1..]))
  }

  ghost function After(t: Tables, clock: Time, run: seq<Event>): Tables
    requires IsRun(t, clock, run)
    decreases |run|
  {
    if run == [] then t else After(Apply(t, run[0]), Tick(clock, run[0]), run[1..])
  }

  function EndClock(clock: Time, run: seq<Event>): Time
    decreases |run|
  {
    if run == [] then clock else EndClock(Tick(clock, run[0]), run[1..])
  }

  /** The seeded database: segment 1 open, nothing in the pool, some earlier users. */
  ghost predicate Initial(t: Tables) {
    t.segments == map[1 := Segment(SegmentStart(1), SegmentEnd(1), true)] &&
    t.pool == map[] && t.selections == map[] &&
    UniqueNumbers(t.users)
  }

  // ---- claims agree with users ------------------------------------------------------------

  /** A claim in the pool and the number on the user are the same fact, and numbers are unique. */
  ghost predicate ClaimsAgree(t: Tables) {
    (forall n, u :: n in t.pool && t.pool[n].claimedBy == Some(u) ==> Owns(t, u, n)) &&
    (forall u :: u in t.users && t.users[u] in t.pool ==> t.pool[t.users[u]].claimedBy == Some(u)) &&
    UniqueNumbers(t.users)
  }

  /** The event changed no claim, no user and no pool key. */
  ghost predicate SameClaims(t: Tables, s: Tables) {
    s.users == t.users && s.pool.Keys == t.pool.Keys &&
    forall n :: n in t.pool ==> s.pool[n].claimedBy == t.pool[n].claimedBy
  }

  lemma SameClaimsAgree(t: Tables, s: Tables)
    requires ClaimsAgree(t) && SameClaims(t, s)
    ensures ClaimsAgree(s)
  {
    assert forall n, u :: n in s.pool && s.pool[n].claimedBy == Some(u) ==> t.pool[n].claimedBy == Some(u);
    forall u | u in s.users && s.users[u] in s.pool ensures s.pool[s.users[u]].claimedBy == Some(u) {
      var n := t.users[u];
      assert u in t.users && n in t.pool && t.pool[n].claimedBy == Some(u);
    }
  }

  lemma RegisterKeepsClaims(t: Tables, now: Time, ip: string, token: Token, chosen: int, user: UserId)
    requires ClaimsAgree(t) && user !in t.users
    ensures ClaimsAgree(Register(t, now, ip, token, chosen, user))
  {
    var s := Register(t, now, ip, token, chosen, user);
    if RegisterOutcome(t, now, ip, token, chosen) == Done {
      assert forall n :: n in t.pool && n != chosen ==> s.pool[n].claimedBy == t.pool[n].claimedBy;
      assert forall u :: u in s.users ==> u == user || (u in t.users && t.users[u] != chosen);
    }
  }

  lemma GrantKeepsClaims(t: Tables, premium: int, owner: UserId)
    requires ClaimsAgree(t) && owner in t.users
    ensures ClaimsAgree(Grant(t, premium, owner))
  {
    var s := Grant(t, premium, owner);
    if GrantOutcome(t, premium, t.users[owner]) == Done {
      assert forall n :: n in t.pool && n != premium && n != t.users[owner] ==> s.pool[n] == t.pool[n];
    }
  }

  lemma PurgeKeepsClaims(t: Tables, doomed: set<UserId>)
    requires ClaimsAgree(t)
    ensures ClaimsAgree(PurgeUsers(t, doomed))
  {
  }

  lemma PopulateKeepsClaims(t: Tables, k: nat, lo: int, hi: int)
    requires ClaimsAgree(t)
    ensures ClaimsAgree(Populate(t, k, lo, hi))
  {
    var s := Populate(t, k, lo, hi);
    assert forall n :: n in s.pool ==> n in t.pool || (Missing(t, lo, hi, n) && s.pool[n] == NewRow(k, n));
  }

  lemma OpenKeepsClaims(t: Tables, k: nat)
    requires ClaimsAgree(t)
    ensures ClaimsAgree(OpenSegmentNo(t, k))
  {
    var w := WithSegment(t, k);
    SameClaimsAgree(t, w);
    PopulateKeepsClaims(w, k, SegmentStart(k), SegmentEnd(k));
  }

  lemma CapacityKeepsClaims(t: Tables, now: Time, top: nat)
    requires ClaimsAgree(t)
    ensures ClaimsAgree(EnsureCapacity(t, now, top))
  {
    OpenKeepsClaims(t, top + 1);
  }

  lemma ClaimsAgreeStep(t: Tables, e: Event)
    requires ClaimsAgree(t) && Possible(t, e)
    ensures ClaimsAgree(Apply(t, e))
  {
    match e
    case RegisterUser(now, ip, token, chosen, user) => RegisterKeepsClaims(t, now, ip, token, chosen, user);
    case GrantPremium(premium, owner) => GrantKeepsClaims(t, premium, owner);
    case SweepUsers(doomed) => PurgeKeepsClaims(t, doomed);
    case OpenSegment(now) => CapacityKeepsClaims(t, now, MaxKey(t.segments.Keys));
    case RepopulateSegment(k) => PopulateKeepsClaims(t, k, t.segments[k].start, t.segments[k].end);
    case DrawNumbers(now, ip, token, picks) => SameClaimsAgree(t, Draw(t, now, ip, token, picks));
    case RefreshNumbers(now, ip, token, picks) => SameClaimsAgree(t, Refresh(t, now, ip, token, picks));
    case ReleasePremium(number) => SameClaimsAgree(t, Release(t, number));
    case SweepSelections(now) => SameClaimsAgree(t, GcSelections(t, now));
    case SweepStale(now) => SameClaimsAgree(t, ClearStale(t, now));
  }

  /** In every reachable state claims and users agree, whatever the interleaving, sweep included. */
  lemma {:induction false} ClaimsAlwaysAgree(t: Tables, clock: Time, run: seq<Event>)
    requires ClaimsAgree(t) && IsRun(t, clock, run)
    ensures ClaimsAgree(After(t, clock, run))
    decreases |run|
  {
    if run != [] {
      ClaimsAgreeStep(t, run[0]);
      ClaimsAlwaysAgree(Apply(t, run[0]), Tick(clock, run[0]), run[1..]);
    }
  }

  /** So from the seeded database no number ever has two owners and no user two numbers. */
  lemma OneOwnerOneNumber(t: Tables, clock: Time, run: seq<Event>, n: int, m: int, u: UserId, v: UserId)
    requires Initial(t) && IsRun(t, clock, run)
    requires var s := After(t, clock, run);
      n in s.pool && m in s.pool && s.pool[n].claimedBy == Some(u) && s.pool[m].claimedBy == Some(v)
    ensures n == m <==> u == v
    ensures Owns(After(t, clock, run), u, n)
  {
    ClaimsAlwaysAgree(t, clock, run);
  }
}
