/** The transactions of the allocator, statement by statement, on tables held in fields. */
module AccountStore {
  import opened Common
  import opened PremiumNumbers
  import opened AccountPool
  import opened AccountPoolRuns

  /** The numbers queued in a batch of rows. */
  function Numbers(batch: seq<(int, bool)>): set<int> {
    set r | r in batch :: r.0
  }

  lemma NumbersAppend(batch: seq<(int, bool)>, row: (int, bool))
    ensures Numbers(batch + [row]) == Numbers(batch) + {row.0}
  {
    assert forall r :: r in batch + [row] <==> r in batch || r == row;
  }

  /** The old rows as they were and new ones as the rule makes them. */
  ghost predicate Extended(before: map<int, PoolRow>, pool: map<int, PoolRow>, k: nat) {
    forall n :: n in pool ==> pool[n] == if n in before then before[n] else NewRow(k, n)
  }

  /** Every missing number below `flushed` is in the pool, and nothing else was added. */
  ghost predicate FilledTo(t: Tables, pool: map<int, PoolRow>, k: nat, lo: int, hi: int, flushed: int) {
    Extended(t.pool, pool, k) && forall m :: m in pool <==> m in t.pool || (m < flushed && Missing(t, lo, hi, m))
  }

  /** The batch holds the missing numbers from `flushed` up to n, correctly flagged. */
  ghost predicate Batched(t: Tables, batch: seq<(int, bool)>, lo: int, hi: int, flushed: int, n: int) {
    (forall r :: r in batch ==> r.1 == LockedPattern(r.0)) &&
    (forall m :: m in Numbers(batch) ==> m in t.pool || (m < n && Missing(t, lo, hi, m))) &&
    (forall m :: flushed <= m < n && Missing(t, lo, hi, m) ==> m in Numbers(batch))
  }

  lemma BatchMore(t: Tables, batch: seq<(int, bool)>, lo: int, hi: int, flushed: int, n: int)
    requires Batched(t, batch, lo, hi, flushed, n) && lo <= n <= hi && !InUse(t, n)
    ensures Batched(t, batch + [(n, LockedPattern(n))], lo, hi, flushed, n + 1)
  {
    NumbersAppend(batch, (n, LockedPattern(n)));
  }

  lemma FlushFills(t: Tables, before: map<int, PoolRow>, pool: map<int, PoolRow>, batch: seq<(int, bool)>,
      k: nat, lo: int, hi: int, flushed: int, n: int)
    requires FilledTo(t, before, k, lo, hi, flushed) && Batched(t, batch, lo, hi, flushed, n) && flushed <= n
    requires pool.Keys == before.Keys + Numbers(batch) && Extended(before, pool, k)
    ensures FilledTo(t, pool, k, lo, hi, n)
  {
    assert forall m :: m in pool <==> m in before || m in Numbers(batch);
  }

  lemma FilledPool(t: Tables, pool: map<int, PoolRow>, k: nat, lo: int, hi: int)
    requires forall m :: m in pool <==> m in t.pool || Missing(t, lo, hi, m)
    requires forall m :: m in pool ==> pool[m] == if m in t.pool then t.pool[m] else NewRow(k, m)
    ensures pool == Populate(t, k, lo, hi).pool
  {
    var added := map m | lo <= m <= hi && Missing(t, lo, hi, m) :: NewRow(k, m);
    assert pool.Keys == (t.pool + added).Keys;
  }

  lemma NothingSkipped(t: Tables, now: Time, exclude: set<int>, skipped: set<int>)
    ensures skipped == {} ==> Candidates(t, now, exclude) - skipped == Candidates(t, now, exclude)
  {
  }

  lemma DrawnArePooled(t: Tables, now: Time, exclude: set<int>, picks: seq<int>)
    requires IsDraw(t, now, DRAW_SIZE, exclude, picks)
    ensures forall n :: n in picks ==> n in t.pool && n !in exclude
  {
    forall n | n in picks ensures n in t.pool && n !in exclude {
      assert Candidate(t, now, exclude, n);
    }
  }

  /** A permitted refresh that finds numbers: the new batch is reserved, the old one is not. */
  lemma RefreshedRows(t: Tables, now: Time, ip: string, token: Token, picks: seq<int>)
    requires MayRefresh(t, now, ip, token) && picks != []
    requires IsDraw(Returned(t, token), now, DRAW_SIZE, Listed(t, token), picks)
    ensures var s, sel := Refresh(t, now, ip, token, picks), t.selections[token];
      && (forall n :: n in picks ==> n !in sel.numbers && n in s.pool && s.pool[n].reservedUntil == Some(now + RESERVATION_TTL))
      && (forall n :: n in sel.numbers && n in s.pool ==> s.pool[n].reservedUntil == None)
  {
    DrawnArePooled(Returned(t, token), now, Listed(t, token), picks);
  }

  class Store {
    var segments: map<nat, Segment>
    var pool: map<int, PoolRow>
    var selections: map<Token, Selection>
    var users: map<UserId, int>

    function View(): Tables
      reads this
    {
      Tables(segments, pool, selections, users)
    }

    /** The seeded database around some existing users with distinct numbers. */
    constructor (existing: map<UserId, int>)
      requires UniqueNumbers(existing)
      ensures Initial(View()) && View().users == existing
    {
      segments := map[1 := Segment(SegmentStart(1), SegmentEnd(1), true)];
      pool := map[];
      selections := map[];
      users := existing;
    }

    /** Sets or clears the reservation of the listed rows. */
    method UpdateReserved(numbers: seq<int>, until: Option<Time>)
      modifies this`pool
      ensures View() == old(View()).(pool := SetReserved(old(pool), numbers, until))
    {
      ghost var before := pool;
      for i := 0 to |numbers|
        invariant pool == SetReserved(before, numbers[..i], until)
      {
        assert numbers[..i + 1] == numbers[..i] + [numbers[i]];
        if numbers[i] in pool {
          pool := pool[numbers[i] := pool[numbers[i]].(reservedUntil := until)];
        }
      }
      assert numbers[..|numbers|] == numbers;
    }

    /** Picks `limit` candidates at random, or all there are, past the rows in `skipped` that other
        transactions have locked, and reserves them. */
    method ReserveRandomFromPool(now: Time, limit: nat, exclude: set<int>, skipped: set<int>) returns (numbers: seq<int>)
      modifies this`pool
      ensures IsDraw(old(View()), now, limit, exclude, numbers)
      ensures forall n :: n in numbers ==> n !in skipped
      ensures |numbers| == Least(limit, |Candidates(old(View()), now, exclude) - skipped|)
      ensures View() == old(View()).(pool := SetReserved(old(pool), numbers, Some(now + RESERVATION_TTL)))
    {
      var todo := Candidates(View(), now, exclude) - skipped;
      numbers := [];
      while |numbers| < limit && todo != {}
        invariant IsDraw(old(View()), now, limit, exclude, numbers)
        invariant forall n :: n in numbers ==> n !in skipped
        invariant todo <= Candidates(old(View()), now, exclude) - skipped
        invariant forall n :: n in todo ==> n !in numbers
        invariant |numbers| + |todo| == |Candidates(old(View()), now, exclude) - skipped|
        invariant View() == old(View())
        decreases todo
      {
        var n :| n in todo;
        numbers := numbers + [n];
        todo := todo - {n};
      }
      UpdateReserved(numbers, Some(now + RESERVATION_TTL));
    }

    method DrawAccountNumbers(now: Time, ip: string, token: Token, skipped: set<int>)
      returns (numbers: seq<int>, outcome: Outcome)
      modifies this
      ensures IsDrawPast(EnsureCapacity(old(View()), now, MaxKey(old(segments).Keys)), now, DRAW_SIZE, {}, skipped, numbers)
      ensures View() == Draw(EnsureCapacity(old(View()), now, MaxKey(old(segments).Keys)), now, ip, token, numbers)
      ensures outcome == if numbers == [] then NoStock else if token in old(selections) then TokenClash else Done
      ensures outcome == Done ==> token in selections && selections[token] == Selection(ip, 0, numbers, now + SELECTION_TTL)
      ensures outcome == Done ==>
        forall n :: n in numbers ==> n in pool && pool[n].reservedUntil == Some(now + RESERVATION_TTL)
      ensures
        var stocked := EnsureCapacity(old(View()), now, MaxKey(old(segments).Keys));
        var full := |Candidates(stocked, now, {})| >= DRAW_SIZE;
        skipped == {} && token !in old(selections) && full ==> outcome == Done && |numbers| == DRAW_SIZE
    {
      EnsureSegmentCapacity(now);
      ghost var stocked := View();
      var rollback := pool;
      numbers := ReserveRandomFromPool(now, DRAW_SIZE, {}, skipped);
      NothingSkipped(stocked, now, {}, skipped);
      if numbers == [] {
        pool := rollback;
        return numbers, NoStock;
      }
      if token in selections {
        pool := rollback;
        return numbers, TokenClash;
      }
      selections := selections[token := Selection(ip, 0, numbers, now + SELECTION_TTL)];
      outcome := Done;
      DrawnArePooled(stocked, now, {}, numbers);
    }

    method RefreshAccountNumbers(now: Time, ip: string, token: Token, skipped: set<int>)
      returns (numbers: seq<int>, outcome: Outcome)
      modifies this
      ensures MayRefresh(old(View()), now, ip, token) ==>
        IsDrawPast(Returned(old(View()), token), now, DRAW_SIZE, Listed(old(View()), token), skipped, numbers)
      ensures View() == Refresh(old(View()), now, ip, token, numbers)
      ensures outcome == if !Usable(old(View()), now, ip, token) then SelectionInvalid
                         else if !MayRefresh(old(View()), now, ip, token) then RefreshesUsedUp
                         else if numbers == [] then NoStock else Done
      ensures outcome == Done ==> token in old(selections) && token in selections
      ensures outcome == Done ==>
        var sel := old(selections)[token];
        selections[token] == Selection(sel.ip, sel.refreshesUsed + 1, numbers, now + SELECTION_TTL)
      ensures outcome == Done ==>
        forall n :: n in numbers ==>
          n !in old(selections)[token].numbers && n in pool && pool[n].reservedUntil == Some(now + RESERVATION_TTL)
      ensures outcome == Done ==>
        forall n :: n in old(selections)[token].numbers && n in pool ==> pool[n].reservedUntil == None
      ensures skipped == {} && MayRefresh(old(View()), now, ip, token) ==>
        var full := |Candidates(Returned(old(View()), token), now, Listed(old(View()), token))| >= DRAW_SIZE;
        full ==> outcome == Done && |numbers| == DRAW_SIZE
    {
      numbers := [];
      if token !in selections {
        return numbers, SelectionInvalid;
      }
      var sel := selections[token];
      if now > sel.expiresAt {
        return numbers, SelectionInvalid;
      }
      if sel.ip != ip {
        return numbers, SelectionInvalid;
      }
      if sel.refreshesUsed >= MAX_REFRESHES {
        return numbers, RefreshesUsedUp;
      }
      var rollback := pool;
      var listed := set n | n in sel.numbers;
      UpdateReserved(sel.numbers, None);
      ghost var returned := View();
      numbers := ReserveRandomFromPool(now, DRAW_SIZE, listed, skipped);
      NothingSkipped(returned, now, listed, skipped);
      if numbers == [] {
        pool := rollback;
        return numbers, NoStock;
      }
      selections := selections[token := sel.(numbers := numbers, refreshesUsed := sel.refreshesUsed + 1,
                                             expiresAt := now + SELECTION_TTL)];
      outcome := Done;
      RefreshedRows(old(View()), now, ip, token, numbers);
    }

    method ValidateAndConsumeSelection(now: Time, ip: string, token: Token, chosen: int, user: UserId) returns (outcome: Outcome)
      modifies this`pool, this`selections
      ensures outcome == if !Usable(old(View()), now, ip, token) then SelectionInvalid
                         else if chosen !in old(selections)[token].numbers then NotInSelection
                         else if chosen !in old(pool) || old(pool)[chosen].claimedBy.Some? then AlreadyClaimed
                         else Done
      ensures outcome != Done ==> View() == old(View())
      ensures outcome == Done ==>
        pool == SetReserved(old(pool), old(selections)[token].numbers, None)
                  [chosen := old(pool)[chosen].(claimedBy := Some(user), reservedUntil := None)] &&
        selections == old(selections) - {token}
    {
      if token !in selections {
        return SelectionInvalid;
      }
      var sel := selections[token];
      if now > sel.expiresAt || sel.ip != ip {
        return SelectionInvalid;
      }
      var found := false;
      for i := 0 to |sel.numbers|
        invariant !found && chosen !in sel.numbers[..i]
      {
        if sel.numbers[i] == chosen {
          found := true;
          break;
        }
      }
      assert found <==> chosen in sel.numbers;
      if !found {
        return NotInSelection;
      }
      if chosen !in pool || pool[chosen].claimedBy.Some? {
        return AlreadyClaimed;
      }
      pool := pool[chosen := pool[chosen].(claimedBy := Some(user), reservedUntil := None)];
      var siblings := [];
      for i := 0 to |sel.numbers|
        invariant forall n :: n in siblings <==> n in sel.numbers[..i] && n != chosen
      {
        assert sel.numbers[..i + 1] == sel.numbers[..i] + [sel.numbers[i]];
        if sel.numbers[i] != chosen {
          siblings := siblings + [sel.numbers[i]];
        }
      }
      assert sel.numbers[..|sel.numbers|] == sel.numbers;
      ghost var claimed := pool;
      UpdateReserved(siblings, None);
      assert forall n :: n in pool && n != chosen ==> pool[n] == SetReserved(old(pool), sel.numbers, None)[n];
      assert pool[chosen] == claimed[chosen];
      selections := selections - {token};
      outcome := Done;
    }

    /** The register transaction: insert the user, then claim the number; roll back on failure. */
    method RegisterAccount(now: Time, ip: string, token: Token, chosen: int, user: UserId) returns (outcome: Outcome)
      requires user !in users
      modifies this
      ensures outcome == RegisterOutcome(old(View()), now, ip, token, chosen)
      ensures View() == Register(old(View()), now, ip, token, chosen, user)
    {
      if InUse(View(), chosen) {
        return NumberTaken;
      }
      var rollback := users;
      users := users[user := chosen];
      outcome := ValidateAndConsumeSelection(now, ip, token, chosen, user);
      if outcome != Done {
        users := rollback;
      }
    }

    method GrantPremiumNumber(premium: int, recipient: int) returns (outcome: Outcome)
      requires UniqueNumbers(users)
      modifies this
      ensures outcome == GrantOutcome(old(View()), premium, recipient)
      ensures outcome != Done ==> View() == old(View())
      ensures forall u :: outcome == Done && Owns(old(View()), u, recipient) ==> View() == Grant(old(View()), premium, u)
    {
      if premium <= 0 || recipient <= 0 {
        return BadRequest;
      }
      if !InUse(View(), recipient) {
        return NoSuchUser;
      }
      var user :| user in users && Owns(View(), user, recipient);
      var oldNo := users[user];
      if oldNo == premium {
        return AlreadyOwned;
      }
      if premium !in pool || !pool[premium].locked {
        return NotLocked;
      }
      if pool[premium].claimedBy.Some? {
        return PremiumClaimed;
      }
      var rollback := pool;
      pool := pool[premium := pool[premium].(claimedBy := Some(user), locked := false, reservedUntil := None)];
      if oldNo in pool {
        pool := pool[oldNo := pool[oldNo].(claimedBy := None, reservedUntil := None)];
      }
      if InUse(View(), premium) {
        pool := rollback;
        return NumberTaken;
      }
      users := users[user := premium];
      outcome := Done;
    }

    method ReleasePremiumNumber(number: int) returns (ok: bool)
      modifies this`pool
      ensures ok == Releasable(old(View()), number)
      ensures View() == Release(old(View()), number)
    {
      if number <= 0 {
        return false;
      }
      ok := number in pool && pool[number].locked && pool[number].claimedBy.None?;
      if ok {
        pool := pool[number := pool[number].(locked := false)];
      }
    }

    method PurgeUnverified(doomed: set<UserId>)
      modifies this`users, this`pool
      ensures View() == PurgeUsers(old(View()), doomed)
    {
      users := users - doomed;
      pool := map n | n in pool ::
        if pool[n].claimedBy.Some? && pool[n].claimedBy.value in doomed then pool[n].(claimedBy := None) else pool[n];
    }

    method GcDrawSessions(now: Time)
      modifies this`selections, this`pool
      ensures View() == GcSelections(old(View()), now)
    {
      var listed := set k, n | k in selections && Expired(selections[k], now) && n in selections[k].numbers :: n;
      assert forall n :: n in listed <==> ListedInExpired(old(View()), now, n);
      selections := map k | k in selections && !Expired(selections[k], now) :: selections[k];
      pool := map n | n in pool ::
        if n in listed && pool[n].claimedBy.None? then pool[n].(reservedUntil := None) else pool[n];
    }

    method ClearStaleReservations(now: Time)
      modifies this`pool
      ensures View() == ClearStale(old(View()), now)
    {
      pool := map n | n in pool ::
        if pool[n].reservedUntil.Some? && pool[n].reservedUntil.value < now && pool[n].claimedBy.None?
        then pool[n].(reservedUntil := None) else pool[n];
    }

    /** The statements of the hourly sweep that touch these tables, one after the other. */
    method Sweep(now: Time, doomed: set<UserId>)
      modifies this
      ensures View() == ClearStale(GcSelections(PurgeUsers(old(View()), doomed), now), now)
    {
      PurgeUnverified(doomed);
      GcDrawSessions(now);
      ClearStaleReservations(now);
    }

    // ---- segments ---------------------------------------------------------------------

    /** Inserts a batch of rows, skipping numbers the pool already has; the insert trigger may lock
        a row the batch did not. */
    method Flush(k: nat, batch: seq<(int, bool)>)
      requires forall r :: r in batch ==> r.1 == LockedPattern(r.0)
      modifies this`pool
      ensures pool.Keys == old(pool).Keys + Numbers(batch)
      ensures Extended(old(pool), pool, k)
    {
      for i := 0 to |batch|
        invariant pool.Keys == old(pool).Keys + Numbers(batch[..i])
        invariant Extended(old(pool), pool, k)
      {
        var (n, locked) := batch[i];
        assert batch[i] in batch;
        NumbersAppend(batch[..i], batch[i]);
        assert batch[..i + 1] == batch[..i] + [batch[i]];
        if n !in pool {
          pool := pool[n := PoolRow(k, locked || TriggerLocks(n), None, None)];
        }
      }
      assert batch[..|batch|] == batch;
    }

    method PopulateSegment(k: nat, lo: int, hi: int)
      modifies this`pool
      ensures View() == Populate(old(View()), k, lo, hi)
    {
      var used := set u | u in users && lo <= users[u] <= hi :: users[u];
      var inPool := set n | n in pool && pool[n].segment == k;
      var batch: seq<(int, bool)> := [];
      ghost var t := View();
      ghost var flushed := lo;  // every missing number below this one is in the pool
      var n := lo;
      while n <= hi
        invariant lo <= flushed <= n && (n <= hi + 1 || n == lo)
        invariant FilledTo(t, pool, k, lo, hi, flushed) && Batched(t, batch, lo, hi, flushed, n)
        invariant |batch| < BATCH_SIZE
      {
        assert InUse(t, n) <==> n in used;
        if n !in used && n !in inPool {
          var locked := IsLockedPattern(n);
          BatchMore(t, batch, lo, hi, flushed, n);
          batch := batch + [(n, locked)];
          if |batch| >= BATCH_SIZE {
            ghost var before := pool;
            Flush(k, batch);
            FlushFills(t, before, pool, batch, k, lo, hi, flushed, n + 1);
            batch := [];
            flushed := n + 1;
          }
        }
        n := n + 1;
      }
      ghost var before := pool;
      Flush(k, batch);
      FlushFills(t, before, pool, batch, k, lo, hi, flushed, n);
      FilledPool(t, pool, k, lo, hi);
    }

    /** The highest segment opened so far, 0 if there is none. */
    method MaxSegmentNo() returns (top: nat)
      ensures top == MaxKey(segments.Keys)
    {
      top := 0;
      var left := segments.Keys;
      while left != {}
        invariant IsMaxKey(segments.Keys - left, top) && left <= segments.Keys
      {
        var k :| k in left;
        assert forall x :: x in segments.Keys - (left - {k}) ==> x == k || x in segments.Keys - left;
        if k > top {
          top := k;
        }
        left := left - {k};
      }
      assert segments.Keys - {} == segments.Keys;
    }

    method EnsureSegmentCapacity(now: Time)
      modifies this`segments, this`pool
      ensures View() == EnsureCapacity(old(View()), now, MaxKey(old(segments).Keys))
    {
      var free := FreeNumbers(View(), now);
      if |free| >= FREE_COUNT_THRESHOLD {
        return;
      }
      var top := MaxSegmentNo();
      OpenSegment(top + 1);
    }

    method OpenSegment(k: nat)
      modifies this`segments, this`pool
      ensures View() == OpenSegmentNo(old(View()), k)
    {
      if k !in segments {
        segments := segments[k := Segment(SegmentStart(k), SegmentEnd(k), true)];
      }
      PopulateSegment(k, SegmentStart(k), SegmentEnd(k));
    }
  }
}
