/** Live draw selections: no number is promised twice, as long as the sweep of expired selections
    meets no overlap; and exactly when it does not. */
module AccountReservations {
  import opened Common
  import opened PremiumNumbers
  import opened AccountPool
  import opened AccountPoolRuns

  predicate Live(t: Tables, now: Time, k: Token) {
    k in t.selections && !Expired(t.selections[k], now)
  }

  /** Every number of selection k is still set aside for it. */
  ghost predicate Held(t: Tables, k: Token)
    requires k in t.selections
  {
    forall n :: n in t.selections[k].numbers ==>
      n in t.pool && !t.pool[n].locked && t.pool[n].claimedBy.None? &&
      t.pool[n].reservedUntil == Some(t.selections[k].expiresAt)
  }

  ghost predicate Disjoint(t: Tables, j: Token, k: Token)
    requires j in t.selections && k in t.selections
  {
    forall n :: n in t.selections[j].numbers ==> n !in t.selections[k].numbers
  }

  ghost predicate WellDrawn(t: Tables, k: Token)
    requires k in t.selections
  {
    Distinct(t.selections[k].numbers) && |t.selections[k].numbers| <= DRAW_SIZE && t.selections[k].refreshesUsed <= MAX_REFRESHES
  }

  ghost predicate LiveSound(t: Tables, now: Time) {
    (forall k :: Live(t, now, k) ==> Held(t, k) && WellDrawn(t, k)) &&
    (forall j, k :: Live(t, now, j) && Live(t, now, k) && j != k ==> Disjoint(t, j, k))
  }

  lemma LiveSoundLater(t: Tables, clock: Time, now: Time)
    requires LiveSound(t, clock) && clock <= now
    ensures LiveSound(t, now)
  {
    assert forall k :: Live(t, now, k) ==> Live(t, clock, k);
  }

  /** The number of a live selection is not free, so no draw can pick it. */
  lemma HeldIsNotDrawn(t: Tables, now: Time, limit: nat, exclude: set<int>, picks: seq<int>, k: Token, n: int)
    requires LiveSound(t, now) && Live(t, now, k) && n in t.selections[k].numbers
    requires IsDraw(t, now, limit, exclude, picks)
    ensures n !in picks
  {
    assert Held(t, k);
  }

  lemma DrawKeepsLive(t: Tables, now: Time, ip: string, token: Token, picks: seq<int>)
    requires LiveSound(t, now) && IsDraw(t, now, DRAW_SIZE, {}, picks)
    ensures LiveSound(Draw(t, now, ip, token, picks), now)
  {
    var s := Draw(t, now, ip, token, picks);
    if s != t {
      forall k | Live(s, now, k) && k != token
        ensures Live(t, now, k) && Held(s, k) && WellDrawn(s, k) && Disjoint(s, k, token) && Disjoint(s, token, k)
      {
        assert Live(t, now, k) && Held(t, k);
        forall n | n in t.selections[k].numbers ensures n !in picks {
          HeldIsNotDrawn(t, now, DRAW_SIZE, {}, picks, k, n);
        }
      }
      forall n | n in picks ensures n in t.pool && Free(t.pool[n], now) {
        assert Candidate(t, now, {}, n);
      }
      assert Held(s, token) && WellDrawn(s, token);
      forall j, k | Live(s, now, j) && Live(s, now, k) && j != k ensures Disjoint(s, j, k) {
        if j != token && k != token {
          assert Disjoint(t, j, k);
        }
      }
    }
  }

  /** Giving back the batch of one live selection touches no other live selection. */
  lemma ReturnTouchesOne(t: Tables, now: Time, token: Token, k: Token)
    requires LiveSound(t, now) && Live(t, now, token) && Live(t, now, k) && k != token
    ensures forall n :: n in t.selections[k].numbers ==>
      n in t.pool && Returned(t, token).pool[n] == t.pool[n] && n !in t.selections[token].numbers
  {
    assert Held(t, k) && Disjoint(t, token, k) && Disjoint(t, k, token);
  }

  lemma RefreshKeepsLive(t: Tables, now: Time, ip: string, token: Token, picks: seq<int>)
    requires LiveSound(t, now) && MayRefresh(t, now, ip, token)
    requires IsDraw(Returned(t, token), now, DRAW_SIZE, Listed(t, token), picks)
    ensures LiveSound(Refresh(t, now, ip, token, picks), now)
  {
    var s := Refresh(t, now, ip, token, picks);
    if picks != [] {
      var r := Returned(t, token);
      forall n | n in picks ensures n in t.pool && Free(r.pool[n], now) {
        assert Candidate(r, now, Listed(t, token), n);
      }
      forall k | Live(s, now, k) && k != token
        ensures Live(t, now, k) && Held(s, k) && WellDrawn(s, k) && Disjoint(s, k, token) && Disjoint(s, token, k)
      {
        assert Live(t, now, k) && Held(t, k) && WellDrawn(t, k);
        ReturnTouchesOne(t, now, token, k);
        assert forall n :: n in t.selections[k].numbers ==> !Free(r.pool[n], now);
      }
      assert Held(s, token) && WellDrawn(s, token);
      forall j, k | Live(s, now, j) && Live(s, now, k) && j != k ensures Disjoint(s, j, k) {
        if j != token && k != token {
          assert Disjoint(t, j, k);
        }
      }
    }
  }

  lemma RegisterKeepsLive(t: Tables, now: Time, ip: string, token: Token, chosen: int, user: UserId)
    requires LiveSound(t, now)
    ensures LiveSound(Register(t, now, ip, token, chosen, user), now)
  {
    var s := Register(t, now, ip, token, chosen, user);
    if RegisterOutcome(t, now, ip, token, chosen) == Done {
      forall k | Live(s, now, k) ensures Live(t, now, k) && Held(s, k) && WellDrawn(s, k) {
        assert Live(t, now, k) && k != token && WellDrawn(t, k);
        ReturnTouchesOne(t, now, token, k);
        assert Held(t, k);
      }
      forall j, k | Live(s, now, j) && Live(s, now, k) && j != k ensures Disjoint(s, j, k) {
        assert Disjoint(t, j, k);
      }
    }
  }

  /** Rows of unlocked, unclaimed numbers are left alone, and so are the selections. */
  ghost predicate KeepsHeldRows(t: Tables, s: Tables) {
    s.selections == t.selections &&
    forall n :: n in t.pool && !t.pool[n].locked && t.pool[n].claimedBy.None? ==> n in s.pool && s.pool[n] == t.pool[n]
  }

  lemma KeepsHeldRowsKeepsLive(t: Tables, s: Tables, now: Time)
    requires LiveSound(t, now) && KeepsHeldRows(t, s)
    ensures LiveSound(s, now)
  {
    forall k | Live(s, now, k) ensures Held(s, k) && WellDrawn(s, k) {
      assert Live(t, now, k) && Held(t, k) && WellDrawn(t, k);
    }
    forall j, k | Live(s, now, j) && Live(s, now, k) && j != k ensures Disjoint(s, j, k) {
      assert Live(t, now, j) && Live(t, now, k) && Disjoint(t, j, k);
    }
  }

  lemma ClearStaleKeepsLive(t: Tables, now: Time)
    requires LiveSound(t, now)
    ensures LiveSound(ClearStale(t, now), now)
  {
    var s := ClearStale(t, now);
    forall k | Live(s, now, k) ensures Held(s, k) && WellDrawn(s, k) {
      assert Live(t, now, k) && Held(t, k) && WellDrawn(t, k);
    }
    forall j, k | Live(s, now, j) && Live(s, now, k) && j != k ensures Disjoint(s, j, k) {
      assert Live(t, now, j) && Live(t, now, k) && Disjoint(t, j, k);
    }
  }

  // ---- the sweep of expired selections ----------------------------------------------------

  /** No number of an expired selection has been promised again. */
  ghost predicate NoStaleOverlap(t: Tables, now: Time) {
    forall j, k :: j in t.selections && Expired(t.selections[j], now) && Live(t, now, k) ==> Disjoint(t, j, k)
  }

  /** The sweep keeps live selections sound exactly when no expired selection overlaps a live one. */
  lemma SweepKeepsLiveIff(t: Tables, now: Time)
    requires LiveSound(t, now)
    ensures LiveSound(GcSelections(t, now), now) <==> NoStaleOverlap(t, now)
  {
    var s := GcSelections(t, now);
    assert forall k :: Live(t, now, k) <==> Live(s, now, k);
    forall k | Live(s, now, k)
      ensures WellDrawn(s, k) && Held(t, k) && s.selections[k] == t.selections[k]
      ensures Held(s, k) <==> forall n :: n in t.selections[k].numbers ==> !ListedInExpired(t, now, n)
    {
      assert Live(t, now, k) && Held(t, k) && WellDrawn(t, k);
    }
    forall j, k | Live(s, now, j) && Live(s, now, k) && j != k ensures Disjoint(s, j, k) {
      assert Live(t, now, j) && Live(t, now, k) && Disjoint(t, j, k);
    }
    if NoStaleOverlap(t, now) {
      forall j, k, n | j in t.selections && Expired(t.selections[j], now) && Live(t, now, k) && n in t.selections[k].numbers
        ensures n !in t.selections[j].numbers
      {
        assert Disjoint(t, j, k);
      }
    }
    if LiveSound(s, now) {
      forall j, k | j in t.selections && Expired(t.selections[j], now) && Live(t, now, k) ensures Disjoint(t, j, k) {
        assert Held(s, k);
      }
    }
  }

  // ---- runs -------------------------------------------------------------------------------

  /** Sweeps of expired selections happen only while they overlap no live one. */
  ghost predicate SafeSweeps(t: Tables, clock: Time, run: seq<Event>)
    requires IsRun(t, clock, run)
    decreases |run|
  {
    run == [] ||
    ((run[0].SweepSelections? ==> NoStaleOverlap(t, run[0].now)) &&
     SafeSweeps(Apply(t, run[0]), Tick(clock, run[0]), run[1..]))
  }

  lemma GrantKeepsHeldRows(t: Tables, premium: int, owner: UserId)
    requires ClaimsAgree(t) && owner in t.users
    ensures KeepsHeldRows(t, Grant(t, premium, owner))
  {
  }

  lemma LiveSoundStep(t: Tables, clock: Time, e: Event)
    requires ClaimsAgree(t) && LiveSound(t, clock) && Possible(t, e) && clock <= Tick(clock, e)
    requires e.SweepSelections? ==> NoStaleOverlap(t, e.now)
    ensures LiveSound(Apply(t, e), Tick(clock, e))
  {
    LiveSoundLater(t, clock, Tick(clock, e));
    match e
    case DrawNumbers(now, ip, token, picks) => DrawKeepsLive(t, now, ip, token, picks);
    case RefreshNumbers(now, ip, token, picks) =>
      if MayRefresh(t, now, ip, token) {
        RefreshKeepsLive(t, now, ip, token, picks);
      }
    case RegisterUser(now, ip, token, chosen, user) => RegisterKeepsLive(t, now, ip, token, chosen, user);
    case GrantPremium(premium, owner) =>
      GrantKeepsHeldRows(t, premium, owner);
      KeepsHeldRowsKeepsLive(t, Grant(t, premium, owner), clock);
    case ReleasePremium(number) => KeepsHeldRowsKeepsLive(t, Release(t, number), clock);
    case SweepUsers(doomed) => KeepsHeldRowsKeepsLive(t, PurgeUsers(t, doomed), clock);
    case SweepSelections(now) => SweepKeepsLiveIff(t, now);
    case SweepStale(now) => ClearStaleKeepsLive(t, now);
    case OpenSegment(now) =>
      CapacityKeepsHeldRows(t, now, MaxKey(t.segments.Keys));
      KeepsHeldRowsKeepsLive(t, Apply(t, e), now);
    case RepopulateSegment(k) =>
      KeepsHeldRowsKeepsLive(t, Populate(t, k, t.segments[k].start, t.segments[k].end), clock);
  }

  lemma CapacityKeepsHeldRows(t: Tables, now: Time, top: nat)
    ensures KeepsHeldRows(t, EnsureCapacity(t, now, top))
  {
    assert KeepsHeldRows(t, OpenSegmentNo(t, top + 1));
  }

  /** Over every run whose selection sweeps meet no overlap (runs without such sweeps included),
      unexpired selections never share a number and all their numbers stay set aside for them. */
  lemma {:induction false} LiveAlwaysSound(t: Tables, clock: Time, run: seq<Event>)
    requires ClaimsAgree(t) && LiveSound(t, clock) && IsRun(t, clock, run) && SafeSweeps(t, clock, run)
    ensures LiveSound(After(t, clock, run), EndClock(clock, run))
    decreases |run|
  {
    if run != [] {
      ClaimsAgreeStep(t, run[0]);
      LiveSoundStep(t, clock, run[0]);
      LiveAlwaysSound(Apply(t, run[0]), Tick(clock, run[0]), run[1..]);
    }
  }

  /** Then whoever holds a live selection can register with any number it lists. */
  lemma HolderCanRegister(t: Tables, now: Time, ip: string, token: Token, chosen: int)
    requires ClaimsAgree(t) && LiveSound(t, now) && Usable(t, now, ip, token)
    requires chosen in t.selections[token].numbers
    ensures RegisterOutcome(t, now, ip, token, chosen) == Done
  {
    assert Live(t, now, token) && Held(t, token);
    forall u | u in t.users ensures t.users[u] != chosen {
      assert t.pool[chosen].claimedBy.None?;
    }
  }

  /** A full batch of ordinary unused numbers of segment 1. */
  ghost predicate OrdinaryBatch(t: Tables, picks: seq<int>) {
    |picks| == DRAW_SIZE && Distinct(picks) &&
    forall m :: m in picks ==> SegmentStart(1) <= m <= SegmentEnd(1) && !LockedPattern(m) && !InUse(t, m)
  }

  /** With an unguarded sweep it goes wrong: whenever three full draws share numbers, and the third
      meets the second only in the first's, those numbers end up promised to two unexpired
      selections at once. The draws may be one and the same batch, or share a single number. */
  lemma SweepCanPromiseTwice(t: Tables, p: seq<int>, q: seq<int>, r: seq<int>,
      start: Time, ip: string, a: Token, b: Token, c: Token) returns (run: seq<Event>)
    requires Initial(t) && OrdinaryBatch(t, p) && OrdinaryBatch(t, q) && OrdinaryBatch(t, r)
    requires forall m :: m in q && m in r ==> m in p
    requires a != b && b != c && a != c
    ensures IsRun(t, start, run) && EndClock(start, run) == start + 602
    ensures var s := After(t, start, run);
      Live(s, start + 602, b) && Live(s, start + 602, c) && s.selections[b].numbers == q && s.selections[c].numbers == r
  {
    SegmentOneFilled(t);
    var filled := Apply(t, RepopulateSegment(1));
    forall m | m in p || m in q || m in r ensures Fresh(filled, m) {
      TriggerMatchesRule(m);
    }
    var t1, t2, t3, t4 := PromisedTwice(filled, p, q, r, start, ip, a, b, c);
    run := PromiseRun(filled, t1, t2, t3, t4, p, q, r, start, ip, a, b, c);
    RunCons(t, start, RepopulateSegment(1), run);
    run := [RepopulateSegment(1)] + run;
  }

  lemma PromiseRun(t: Tables, t1: Tables, t2: Tables, t3: Tables, t4: Tables, p: seq<int>, q: seq<int>, r: seq<int>,
      start: Time, ip: string, a: Token, b: Token, c: Token) returns (run: seq<Event>)
    requires t1 == Draw(t, start, ip, a, p) && IsDraw(t, start, DRAW_SIZE, {}, p)
    requires t2 == Draw(t1, start + 601, ip, b, q) && IsDraw(t1, start + 601, DRAW_SIZE, {}, q)
    requires t3 == GcSelections(t2, start + 601)
    requires t4 == Draw(t3, start + 602, ip, c, r) && IsDraw(t3, start + 602, DRAW_SIZE, {}, r)
    ensures IsRun(t, start, run) && After(t, start, run) == t4 && EndClock(start, run) == start + 602
  {
    var e4 := DrawNumbers(start + 602, ip, c, r);
    RunCons(t3, start + 601, e4, []);
    RunCons(t2, start + 601, SweepSelections(start + 601), [e4] + []);
    var tail := [SweepSelections(start + 601)] + ([e4] + []);
    RunCons(t1, start, DrawNumbers(start + 601, ip, b, q), tail);
    tail := [DrawNumbers(start + 601, ip, b, q)] + tail;
    RunCons(t, start, DrawNumbers(start, ip, a, p), tail);
    run := [DrawNumbers(start, ip, a, p)] + tail;
  }

  lemma RunCons(t: Tables, clock: Time, e: Event, rest: seq<Event>)
    requires Possible(t, e) && clock <= Tick(clock, e) && IsRun(Apply(t, e), Tick(clock, e), rest)
    ensures IsRun(t, clock, [e] + rest)
    ensures After(t, clock, [e] + rest) == After(Apply(t, e), Tick(clock, e), rest)
    ensures EndClock(clock, [e] + rest) == EndClock(Tick(clock, e), rest)
  {
    assert ([e] + rest)[1..] == rest;
  }

  ghost predicate Fresh(t: Tables, m: int) {
    m in t.pool && t.pool[m] == PoolRow(1, false, None, None)
  }

  /** A full batch of numbers free at the time is a possible draw. */
  lemma BatchIsDraw(t: Tables, now: Time, picks: seq<int>)
    requires AllInSegmentOne(t) && |picks| == DRAW_SIZE && Distinct(picks)
    requires forall m :: m in picks ==> m in t.pool && Free(t.pool[m], now)
    ensures IsDraw(t, now, DRAW_SIZE, {}, picks)
  {
    forall m | m in picks ensures Candidate(t, now, {}, m) {
      assert OpenAndFree(t, now, m);
    }
  }

  lemma PromisedTwice(t: Tables, p: seq<int>, q: seq<int>, r: seq<int>,
      start: Time, ip: string, a: Token, b: Token, c: Token)
    returns (t1: Tables, t2: Tables, t3: Tables, t4: Tables)
    requires AllInSegmentOne(t) && t.selections == map[]
    requires |p| == |q| == |r| == DRAW_SIZE && Distinct(p) && Distinct(q) && Distinct(r)
    requires forall m :: m in p || m in q || m in r ==> Fresh(t, m)
    requires forall m :: m in q && m in r ==> m in p
    requires a != b && b != c && a != c
    ensures t1 == Draw(t, start, ip, a, p) && IsDraw(t, start, DRAW_SIZE, {}, p)
    ensures t2 == Draw(t1, start + 601, ip, b, q) && IsDraw(t1, start + 601, DRAW_SIZE, {}, q)
    ensures t3 == GcSelections(t2, start + 601)
    ensures t4 == Draw(t3, start + 602, ip, c, r) && IsDraw(t3, start + 602, DRAW_SIZE, {}, r)
    ensures Live(t4, start + 602, b) && Live(t4, start + 602, c)
    ensures t4.selections[b].numbers == q && t4.selections[c].numbers == r
  {
    BatchIsDraw(t, start, p);
    t1 := Draw(t, start, ip, a, p);
    assert t1.selections == map[a := Selection(ip, 0, p, start + 600)];
    BatchIsDraw(t1, start + 601, q);
    t2 := Draw(t1, start + 601, ip, b, q);
    assert t2.selections[a] == Selection(ip, 0, p, start + 600) && t2.selections[b] == Selection(ip, 0, q, start + 1201);
    t3 := GcSelections(t2, start + 601);
    assert t3.selections[b] == t2.selections[b] && c !in t3.selections;
    forall m | m in r ensures m in t3.pool && Free(t3.pool[m], start + 602) {
      ThirdDrawFree(t, t1, t2, m, p, q, start, ip, a, b);
    }
    BatchIsDraw(t3, start + 602, r);
    t4 := Draw(t3, start + 602, ip, c, r);
    assert t4.selections[b] == t2.selections[b];
  }

  /** After the sweep a number is free again unless only the second draw holds it. */
  lemma ThirdDrawFree(t: Tables, t1: Tables, t2: Tables, m: int, p: seq<int>, q: seq<int>,
      start: Time, ip: string, a: Token, b: Token)
    requires Fresh(t, m) && t.selections == map[] && a != b && p != [] && q != [] && (m in q ==> m in p)
    requires t1 == Draw(t, start, ip, a, p) && t2 == Draw(t1, start + 601, ip, b, q)
    ensures var t3 := GcSelections(t2, start + 601); m in t3.pool && Free(t3.pool[m], start + 602)
  {
    if m in p {
      assert a in t2.selections && Expired(t2.selections[a], start + 601) && m in t2.selections[a].numbers;
      assert ListedInExpired(t2, start + 601, m);
    } else {
      assert t2.pool[m] == t.pool[m];
    }
  }

  ghost predicate AllInSegmentOne(t: Tables) {
    1 in t.segments && t.segments[1].open && forall m :: m in t.pool ==> t.pool[m].segment == 1
  }

  lemma SegmentOneFilled(t: Tables)
    requires Initial(t)
    ensures var s := Populate(t, 1, SegmentStart(1), SegmentEnd(1));
      && AllInSegmentOne(s) && s.selections == map[]
      && forall m :: SegmentStart(1) <= m <= SegmentEnd(1) && !InUse(t, m) ==> m in s.pool && s.pool[m] == NewRow(1, m)
  {
    forall m | SegmentStart(1) <= m <= SegmentEnd(1) && !InUse(t, m)
      ensures Missing(t, SegmentStart(1), SegmentEnd(1), m)
    {
    }
  }
}
