/** What draws hand out over a run: when there is nothing to draw, and how often a selection may
    change its batch. */
module AccountDraws {
  import opened Common
  import opened PremiumNumbers
  import opened AccountPool
  import opened AccountPoolRuns
  import opened AccountPremiums

  // ---- which picks are possible -----------------------------------------------------------

  lemma {:induction false} DistinctSize(picks: seq<int>)
    requires Distinct(picks)
    ensures |set n | n in picks| == |picks|
  {
    if picks != [] {
      var front, x := picks[..|picks| - 1], picks[|picks| - 1];
      DistinctSize(front);
      assert picks == front + [x];
      assert (set n | n in picks) == (set n | n in front) + {x};
    }
  }

  /** The runs' draws are exactly what the query answers for some rows locked by others. */
  lemma DrawPastSome(t: Tables, now: Time, limit: nat, exclude: set<int>, picks: seq<int>)
    ensures IsDraw(t, now, limit, exclude, picks) <==>
      exists skipped :: IsDrawPast(t, now, limit, exclude, skipped, picks)
  {
    if IsDraw(t, now, limit, exclude, picks) {
      var all, mine := Candidates(t, now, exclude), set n | n in picks;
      forall n | n in picks ensures n in all {
        assert Candidate(t, now, exclude, n);
      }
      DistinctSize(picks);
      assert all - (all - mine) == mine;
      assert IsDrawPast(t, now, limit, exclude, all - mine, picks);
    }
  }

  // ---- when a draw finds nothing ----------------------------------------------------------

  lemma {:induction false} LowestSegment(t: Tables, free: set<int>) returns (n: int)
    requires free != {} && forall m :: m in free ==> m in t.pool
    ensures n in free && forall m :: m in free ==> t.pool[n].segment <= t.pool[m].segment
  {
    var x := SomeElement(free);
    if free == {x} {
      n := x;
    } else {
      n := LowestSegment(t, free - {x});
      if t.pool[x].segment < t.pool[n].segment {
        n := x;
      }
    }
  }

  /** A draw that nobody disturbs comes back empty exactly when no number is free. */
  lemma EmptyDrawIff(t: Tables, now: Time, picks: seq<int>)
    requires IsDrawPast(t, now, DRAW_SIZE, {}, {}, picks)
    ensures picks == [] <==> FreeNumbers(t, now) == {}
  {
    var all := Candidates(t, now, {});
    assert all - {} == all;
    if FreeNumbers(t, now) != {} {
      var n := LowestSegment(t, FreeNumbers(t, now));
      assert forall m :: m in t.pool && OpenAndFree(t, now, m) ==> m in FreeNumbers(t, now);
      assert Candidate(t, now, {}, n) && n in all;
    }
    if picks != [] {
      assert picks[0] in picks && Candidate(t, now, {}, picks[0]);
      assert picks[0] in FreeNumbers(t, now);
    }
  }

  /** An ordinary number of segment k that nobody uses. */
  predicate Untaken(t: Tables, k: nat, n: int) {
    SegmentStart(k) <= n <= SegmentEnd(k) && !LockedPattern(n) && !InUse(t, n)
  }

  ghost predicate UsedUp(t: Tables, k: nat) {
    forall n :: !Untaken(t, k, n)
  }

  /** Below the threshold the next segment is opened, and of its numbers exactly the ordinary ones
      nobody uses become free; nothing else changes. */
  lemma CapacityStock(t: Tables, now: Time, top: nat, n: int)
    requires Placed(t) && IsMaxKey(t.segments.Keys, top)
    ensures var s := EnsureCapacity(t, now, top);
      if |FreeNumbers(t, now)| >= 200 then s == t
      else
        && s.segments == t.segments[top + 1 := Segment(SegmentStart(top + 1), SegmentEnd(top + 1), true)]
        && (n in FreeNumbers(s, now) <==> n in FreeNumbers(t, now) || Untaken(t, top + 1, n))
  {
    var k := top + 1;
    assert k !in t.segments;
    if |FreeNumbers(t, now)| < 200 {
      var w := WithSegment(t, k);
      NewSegmentRows(t, k, n);
      assert EnsureCapacity(t, now, top) == Populate(w, k, SegmentStart(k), SegmentEnd(k));
      RowStaysFree(t, w, now, k, n);
    }
  }

  /** An old row is as free as it was; a new one is free if it is not locked. */
  lemma RowStaysFree(t: Tables, w: Tables, now: Time, k: nat, n: int)
    requires Placed(t) && k !in t.segments && k >= 1 && w == WithSegment(t, k)
    ensures var s := Populate(w, k, SegmentStart(k), SegmentEnd(k));
      OpenAndFree(s, now, n) && n in s.pool <==> (OpenAndFree(t, now, n) && n in t.pool) || Untaken(t, k, n)
  {
    NewSegmentRows(t, k, n);
    assert n in t.pool ==> t.pool[n].segment != k;
  }

  /** The rows a new segment brings. */
  lemma NewSegmentRows(t: Tables, k: nat, n: int)
    requires Placed(t) && k !in t.segments && k >= 1
    ensures var s := OpenSegmentNo(t, k);
      && (n in t.pool ==> n in s.pool && s.pool[n] == t.pool[n] && !(SegmentStart(k) <= n <= SegmentEnd(k)))
      && (n !in t.pool ==> (n in s.pool <==> SegmentStart(k) <= n <= SegmentEnd(k) && !InUse(t, n)))
      && (n !in t.pool && n in s.pool ==> s.pool[n] == PoolRow(k, LockedPattern(n), None, None))
  {
    var w := WithSegment(t, k);
    SegmentsPartition(n, k);
    assert InUse(w, n) <==> InUse(t, n) by {
      assert forall u :: Owns(w, u, n) <==> Owns(t, u, n);
    }
    if n in t.pool {
      assert t.pool[n].segment == SegmentOf(n) && t.pool[n].segment != k;
    } else if SegmentStart(k) <= n <= SegmentEnd(k) {
      TriggerMatchesRule(n);
      assert Missing(w, SegmentStart(k), SegmentEnd(k), n) <==> !InUse(t, n);
    }
  }

  lemma StockAfter(t: Tables, now: Time, top: nat)
    requires Placed(t) && IsMaxKey(t.segments.Keys, top)
    ensures FreeNumbers(EnsureCapacity(t, now, top), now) == {} <==>
      FreeNumbers(t, now) == {} && UsedUp(t, top + 1)
  {
    var s := EnsureCapacity(t, now, top);
    if |FreeNumbers(t, now)| >= 200 {
      CapacityStock(t, now, top, 0);
      assert FreeNumbers(s, now) == FreeNumbers(t, now);
    } else {
      forall n ensures n in FreeNumbers(s, now) <==> n in FreeNumbers(t, now) || Untaken(t, top + 1, n) {
        CapacityStock(t, now, top, n);
      }
      if FreeNumbers(s, now) == {} {
        var k := top + 1;
        forall n ensures !Untaken(t, k, n) {
          assert n !in FreeNumbers(s, now);
        }
        forall n ensures n !in FreeNumbers(t, now) {
          assert n !in FreeNumbers(s, now);
        }
        assert FreeNumbers(t, now) == {};
      } else {
        var n := SomeElement(FreeNumbers(s, now));
        assert n in FreeNumbers(t, now) || Untaken(t, top + 1, n);
      }
    }
  }

  lemma EmptyAfterCapacity(t: Tables, now: Time, top: nat, picks: seq<int>)
    requires Placed(t) && IsMaxKey(t.segments.Keys, top)
    requires IsDrawPast(EnsureCapacity(t, now, top), now, DRAW_SIZE, {}, {}, picks)
    ensures picks == [] <==> FreeNumbers(t, now) == {} && UsedUp(t, top + 1)
  {
    EmptyDrawIff(EnsureCapacity(t, now, top), now, picks);
    StockAfter(t, now, top);
  }

  lemma AlwaysPlaced(t: Tables, clock: Time, run: seq<Event>)
    requires Initial(t) && IsRun(t, clock, run)
    ensures Placed(After(t, clock, run))
  {
    assert LockExact(t, {});
    LockExactAlong(t, clock, run, {});
  }

  /** In every reachable state an undisturbed draw fails for want of numbers exactly when none was
      free and every ordinary number of the next segment is somebody's already. */
  lemma NoStockIff(t: Tables, clock: Time, run: seq<Event>, s: Tables, now: Time, top: nat, picks: seq<int>)
    requires Initial(t) && IsRun(t, clock, run) && s == After(t, clock, run) && IsMaxKey(s.segments.Keys, top)
    requires IsDrawPast(EnsureCapacity(s, now, top), now, DRAW_SIZE, {}, {}, picks)
    ensures picks == [] <==> FreeNumbers(s, now) == {} && UsedUp(s, top + 1)
  {
    AlwaysPlaced(t, clock, run);
    EmptyAfterCapacity(s, now, top, picks);
  }

  // ---- how often a selection changes --------------------------------------------------------

  /** How many times selection k gets another batch, until it is gone. */
  ghost function Batches(t: Tables, clock: Time, run: seq<Event>, k: Token): nat
    requires IsRun(t, clock, run)
    decreases |run|
  {
    if run == [] || k !in t.selections then 0 else
      var s := Apply(t, run[0]);
      (if k in s.selections && s.selections[k].numbers != t.selections[k].numbers then 1 else 0)
      + Batches(s, Tick(clock, run[0]), run[1..], k)
  }

  lemma BatchStep(t: Tables, e: Event, k: Token)
    requires Possible(t, e) && k in t.selections && k in Apply(t, e).selections
    ensures var (old_sel, new_sel) := (t.selections[k], Apply(t, e).selections[k]);
      if old_sel.numbers == new_sel.numbers then new_sel == old_sel
      else e.RefreshNumbers? && old_sel.refreshesUsed < 3 && new_sel.refreshesUsed == old_sel.refreshesUsed + 1
  {
    if e.RefreshNumbers? && e.token == k && Apply(t, e) != t {
      var r := Returned(t, k);
      assert e.picks[0] in e.picks && Candidate(r, e.now, Listed(t, k), e.picks[0]);
      assert e.picks[0] !in t.selections[k].numbers;
    }
  }

  /** A selection gets another batch at most three times in its life, and its count says how often. */
  lemma {:induction false} AtMostThreeBatches(t: Tables, clock: Time, run: seq<Event>, k: Token)
    requires IsRun(t, clock, run) && k in t.selections && t.selections[k].refreshesUsed <= 3
    ensures t.selections[k].refreshesUsed + Batches(t, clock, run, k) <= 3
    ensures AlwaysThere(t, clock, run, k) ==> k in After(t, clock, run).selections
    ensures AlwaysThere(t, clock, run, k) ==>
      After(t, clock, run).selections[k].refreshesUsed == t.selections[k].refreshesUsed + Batches(t, clock, run, k)
    decreases |run|
  {
    if run != [] {
      var s := Apply(t, run[0]);
      if k in s.selections {
        BatchStep(t, run[0], k);
        AtMostThreeBatches(s, Tick(clock, run[0]), run[1..], k);
      } else {
        assert Batches(s, Tick(clock, run[0]), run[1..], k) == 0;
        assert !AlwaysThere(s, Tick(clock, run[0]), run[1..], k);
      }
    }
  }

  ghost predicate AlwaysThere(t: Tables, clock: Time, run: seq<Event>, k: Token)
    requires IsRun(t, clock, run)
    decreases |run|
  {
    k in t.selections && (run == [] || AlwaysThere(Apply(t, run[0]), Tick(clock, run[0]), run[1..], k))
  }
}
