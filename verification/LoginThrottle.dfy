/** The per-account login lockout (throttle.go) around the password check (auth/handler.go login).
    An attempt is one atomic check-then-record step. */
module LoginThrottle {
  import opened Common
  import opened Windows

  const SECOND := 1_000_000_000
  const FAIL_WINDOW := 15 * 60 * SECOND
  const FAIL_LIMIT := 5
  const LOCK_DURATION := 15 * 60 * SECOND

  /** No `lockedUntil` is Go's zero time: never before it, always after it. */
  datatype Bucket = Bucket(count: nat, firstFailAt: Time, lockedUntil: Option<Time>)

  type Buckets = map<string, Bucket>

  function Lower(c: char): char {
    if 'A' <= c <= 'Z' then (c as int + 32) as char else c
  }

  /** Spaces and tabs dropped, ASCII letters lowered. */
  function NormalizeKey(s: string): string {
    if s == "" then ""
    else if s[0] == ' ' || s[0] == '\t' then NormalizeKey(s[1..])
    else [Lower(s[0])] + NormalizeKey(s[1..])
  }

  predicate Locked(b: Bucket, now: Time) {
    b.lockedUntil.Some? && now < b.lockedUntil.value
  }

  predicate WindowOver(b: Bucket, now: Time) {
    now - b.firstFailAt > FAIL_WINDOW
  }

  datatype Outcome = WrongPassword | AccountDisabled | OtherError | Success

  datatype Answer = Blocked(remaining: Time) | Checked

  function CheckLock(m: Buckets, key: string, now: Time): (r: (Buckets, Answer)) {
    if key !in m then (m, Checked)
    else if Locked(m[key], now) then (m, Blocked(m[key].lockedUntil.value - now))
    else if WindowOver(m[key], now) then (m - {key}, Checked)
    else (m, Checked)
  }

  function AfterFailure(found: Option<Bucket>, now: Time): Bucket {
    var b := if found.None? || WindowOver(found.value, now) then Bucket(0, now, None) else found.value;
    var counted := b.(count := b.count + 1);
    if counted.count >= FAIL_LIMIT then counted.(lockedUntil := Some(now + LOCK_DURATION)) else counted
  }

  function Find(m: Buckets, key: string): Option<Bucket> {
    if key in m then Some(m[key]) else None
  }

  /** One login: the lock gate, then what the password check says is recorded. */
  function Attempt(m: Buckets, key: string, now: Time, outcome: Outcome): (Buckets, Answer) {
    var (gated, answer) := CheckLock(m, key, now);
    if answer.Blocked? then (gated, answer)
    else match outcome
      case WrongPassword => (gated[key := AfterFailure(Find(gated, key), now)], answer)
      case Success => (gated - {key}, answer)
      case _ => (gated, answer)
  }

  predicate Stale(b: Bucket, now: Time) {
    WindowOver(b, now) && (b.lockedUntil.None? || now > b.lockedUntil.value)
  }

  function Swept(m: Buckets, now: Time): Buckets {
    map k | k in m && !Stale(m[k], now) :: m[k]
  }

  // ---- runs -------------------------------------------------------------------------------

  datatype Event = Login(login: string, now: Time, outcome: Outcome) | Sweep(now: Time)

  function Apply(m: Buckets, e: Event): Buckets {
    match e
    case Login(login, now, outcome) => Attempt(m, NormalizeKey(login), now, outcome).0
    case Sweep(now) => Swept(m, now)
  }

  predicate Ordered(clock: Time, run: seq<Event>)
    decreases |run|
  {
    run == [] || (clock <= run[0].now && Ordered(run[0].now, run[1..]))
  }

  /** The answers the logins of a run get, in order. */
  function Answers(m: Buckets, run: seq<Event>): seq<Answer>
    decreases |run|
  {
    if run == [] then [] else
      (if run[0].Login? then [Attempt(m, NormalizeKey(run[0].login), run[0].now, run[0].outcome).1] else [])
      + Answers(Apply(m, run[0]), run[1..])
  }

  function WithoutSweeps(run: seq<Event>): seq<Event> {
    if run == [] then [] else
      (if run[0].Sweep? then [] else [run[0]]) + WithoutSweeps(run[1..])
  }

  // ---- sweeping is invisible ------------------------------------------------------------

  /** The bucket as far as any answer from `now` on can tell. */
  function Visible(m: Buckets, key: string, now: Time): Option<Bucket> {
    if key in m && (Locked(m[key], now) || !WindowOver(m[key], now)) then Some(m[key]) else None
  }

  ghost predicate Alike(m: Buckets, n: Buckets, now: Time) {
    forall key :: Visible(m, key, now) == Visible(n, key, now)
  }

  lemma AlikeLater(m: Buckets, n: Buckets, clock: Time, now: Time)
    requires Alike(m, n, clock) && clock <= now
    ensures Alike(m, n, now)
  {
    forall key ensures Visible(m, key, now) == Visible(n, key, now) {
      assert Visible(m, key, clock) == Visible(n, key, clock);
    }
  }

  lemma AttemptAlike(m: Buckets, n: Buckets, key: string, now: Time, outcome: Outcome)
    requires Alike(m, n, now)
    ensures Attempt(m, key, now, outcome).1 == Attempt(n, key, now, outcome).1
    ensures Alike(Attempt(m, key, now, outcome).0, Attempt(n, key, now, outcome).0, now)
  {
    assert Visible(m, key, now) == Visible(n, key, now);
    var (m', n') := (Attempt(m, key, now, outcome).0, Attempt(n, key, now, outcome).0);
    forall k ensures Visible(m', k, now) == Visible(n', k, now) {
      assert Visible(m, k, now) == Visible(n, k, now);
    }
  }

  lemma SweptAlike(m: Buckets, n: Buckets, now: Time)
    requires Alike(m, n, now)
    ensures Alike(Swept(m, now), n, now)
  {
    forall key ensures Visible(Swept(m, now), key, now) == Visible(n, key, now) {
      assert Visible(m, key, now) == Visible(n, key, now);
    }
  }

  lemma {:induction false} SweepsUnseen(m: Buckets, n: Buckets, clock: Time, run: seq<Event>)
    requires Alike(m, n, clock) && Ordered(clock, run)
    ensures Answers(m, run) == Answers(n, WithoutSweeps(run))
    decreases |run|
  {
    if run != [] {
      var now := run[0].now;
      AlikeLater(m, n, clock, now);
      match run[0] {
        case Sweep(_) =>
          SweptAlike(m, n, now);
          SweepsUnseen(Swept(m, now), n, now, run[1..]);
          assert WithoutSweeps(run) == WithoutSweeps(run[1..]);
        case Login(login, _, outcome) =>
          AttemptAlike(m, n, NormalizeKey(login), now, outcome);
          SweepsUnseen(Apply(m, run[0]), Apply(n, run[0]), now, run[1..]);
          assert WithoutSweeps(run)[0] == run[0] && WithoutSweeps(run)[1..] == WithoutSweeps(run[1..]);
      }
    }
  }

  /** Garbage sweeps anywhere in a run change no answer. */
  lemma SweepsChangeNoAnswer(m: Buckets, clock: Time, run: seq<Event>)
    requires Ordered(clock, run)
    ensures Answers(m, run) == Answers(m, WithoutSweeps(run))
  {
    SweepsUnseen(m, m, clock, run);
  }

  // ---- how many wrong passwords get through -----------------------------------------------

  /** A wrong password that was checked, with the bucket it was counted in. */
  datatype Entry = Entry(time: Time, first: Time, count: nat)

  function EntryOf(m: Buckets, e: Event, key: string): seq<Entry> {
    if e.Login? && e.outcome.WrongPassword? && NormalizeKey(e.login) == key && Attempt(m, key, e.now, e.outcome).1.Checked? then
      var b := AfterFailure(Find(CheckLock(m, key, e.now).0, key), e.now);
      [Entry(e.now, b.firstFailAt, b.count)]
    else []
  }

  function Failures(m: Buckets, run: seq<Event>, key: string): seq<Entry>
    decreases |run|
  {
    if run == [] then [] else EntryOf(m, run[0], key) + Failures(Apply(m, run[0]), run[1..], key)
  }

  function Times(log: seq<Entry>): seq<Time> {
    seq(|log|, i requires 0 <= i < |log| => log[i].time)
  }

  predicate Fits(e: Entry) {
    1 <= e.count && e.first <= e.time <= e.first + FAIL_WINDOW && (e.count == 1 ==> e.first == e.time)
  }

  /** What two consecutive checked failures of one key look like when no login succeeds between. */
  predicate Follows(e: Entry, f: Entry) {
    Fits(e) && Fits(f) && e.time <= f.time &&
    (e.count >= FAIL_LIMIT ==> f.time >= e.time + LOCK_DURATION) &&
    (if f.count == 1 then f.time > e.first + FAIL_WINDOW else f.first == e.first && f.count == e.count + 1)
  }

  ghost predicate Chain(log: seq<Entry>) {
    (forall i :: 0 <= i < |log| ==> Fits(log[i])) &&
    (forall i :: 0 <= i < |log| - 1 ==> Follows(log[i], log[i + 1]))
  }

  /** The state of the key's bucket after the last failure `prev` was logged. */
  predicate BucketMatches(m: Buckets, key: string, clock: Time, prev: Option<Entry>) {
    match prev
    case None => key !in m
    case Some(e) =>
      Fits(e) && e.time <= clock &&
      if key in m then m[key] == Bucket(e.count, e.first, if e.count >= FAIL_LIMIT then Some(e.time + LOCK_DURATION) else None)
      else clock > e.first + FAIL_WINDOW && (e.count >= FAIL_LIMIT ==> clock >= e.time + LOCK_DURATION)
  }

  predicate NoSuccess(run: seq<Event>, key: string) {
    forall e :: e in run && e.Login? && e.outcome.Success? ==> NormalizeKey(e.login) != key
  }

  lemma EntryFollows(m: Buckets, key: string, clock: Time, prev: Option<Entry>, e: Event)
    requires BucketMatches(m, key, clock, prev) && clock <= e.now
    requires e.Login? && e.outcome.Success? ==> NormalizeKey(e.login) != key
    ensures var more := EntryOf(m, e, key);
      var last := if more == [] then prev else Some(more[0]);
      |more| <= 1 && BucketMatches(Apply(m, e), key, e.now, last) &&
      (more != [] ==> Fits(more[0]) && (prev.Some? ==> Follows(prev.value, more[0])))
  {
  }

  function Prefix(prev: Option<Entry>): seq<Entry> {
    if prev.None? then [] else [prev.value]
  }

  lemma {:induction false} FailuresChain(m: Buckets, clock: Time, run: seq<Event>, key: string, prev: Option<Entry>)
    requires BucketMatches(m, key, clock, prev) && Ordered(clock, run) && NoSuccess(run, key)
    ensures Chain(Prefix(prev) + Failures(m, run, key))
    decreases |run|
  {
    if run == [] {
    } else {
      EntryFollows(m, key, clock, prev, run[0]);
      var more := EntryOf(m, run[0], key);
      var rest := Failures(Apply(m, run[0]), run[1..], key);
      if more == [] {
        FailuresChain(Apply(m, run[0]), run[0].now, run[1..], key, prev);
        assert more + rest == rest;
      } else {
        FailuresChain(Apply(m, run[0]), run[0].now, run[1..], key, Some(more[0]));
        ChainCons(prev, more[0], rest);
        assert more == [more[0]];
      }
    }
  }

  lemma ChainCons(prev: Option<Entry>, e: Entry, rest: seq<Entry>)
    requires Chain([e] + rest) && (prev.Some? ==> Follows(prev.value, e))
    ensures Chain(Prefix(prev) + ([e] + rest))
  {
    if prev.Some? {
      var log := [prev.value] + ([e] + rest);
      forall i | 0 <= i < |log| - 1 ensures Follows(log[i], log[i + 1]) {
        if i > 0 {
          assert log[i] == ([e] + rest)[i - 1] && log[i + 1] == ([e] + rest)[i];
        }
      }
    } else {
      assert Prefix(prev) + ([e] + rest) == [e] + rest;
    }
  }

  ghost predicate Strict(log: seq<Entry>) {
    forall i, j :: 0 <= i < j < |log| ==> log[i].time < log[j].time
  }

  lemma {:induction false} ChainOrdered(log: seq<Entry>, i: nat, j: nat)
    requires Chain(log) && i <= j < |log|
    ensures log[i].time <= log[j].time
  {
    if i < j {
      ChainOrdered(log, i, j - 1);
      assert Follows(log[j - 1], log[j]);
    }
  }

  /** While no new bucket is opened the count grows by one an entry. */
  lemma {:induction false} CountGrows(log: seq<Entry>, i: nat, j: nat)
    requires Chain(log) && i <= j < |log|
    requires forall k :: i < k <= j ==> log[k].count != 1
    ensures log[j].first == log[i].first && log[j].count == log[i].count + (j - i)
  {
    if i < j {
      CountGrows(log, i, j - 1);
      assert Follows(log[j - 1], log[j]);
    }
  }

  /** If no position is the first reset, there is no reset. */
  lemma {:induction false} NoReset(log: seq<Entry>, i: nat, j: nat)
    requires i <= j < |log|
    requires forall k :: i < k <= j && log[k].count == 1 ==> exists x :: i < x < k && log[x].count == 1
    ensures forall k :: i < k <= j ==> log[k].count != 1
  {
    if i < j {
      NoReset(log, i, j - 1);
    }
  }

  lemma LockSpans(log: seq<Entry>, i: nat, k: nat, j: nat)
    requires Chain(log) && i <= k < j < |log| && log[k].count >= FAIL_LIMIT
    ensures log[j].time >= log[i].time + LOCK_DURATION
    ensures Strict(log) && j >= i + 2 ==> log[j].time > log[i].time + LOCK_DURATION
  {
    ChainOrdered(log, i, k);
    ChainOrdered(log, k + 1, j);
    assert Follows(log[k], log[k + 1]);
  }

  lemma ResetSpans(log: seq<Entry>, i: nat, k: nat, j: nat)
    requires Chain(log) && i < k <= j < |log| && log[k].count == 1 && log[i].count == 1
    requires forall x :: i < x < k ==> log[x].count != 1
    ensures log[j].time > log[i].time + FAIL_WINDOW
  {
    CountGrows(log, i, k - 1);
    assert Follows(log[k - 1], log[k]);
    ChainOrdered(log, k, j);
  }

  /** Nine checked failures in a row span a whole window. */
  lemma NineSpanAWindow(log: seq<Entry>, i: nat)
    requires Chain(log) && i + 8 < |log|
    ensures log[i + 8].time >= log[i].time + FAIL_WINDOW
    ensures Strict(log) ==> log[i + 8].time > log[i].time + FAIL_WINDOW
  {
    var j := i + 8;
    if k :| i < k <= j && log[k].count == 1 && forall x :: i < x < k ==> log[x].count != 1 {
      CountGrows(log, i, k - 1);
      if log[k - 1].count >= FAIL_LIMIT {
        LockSpans(log, i, k - 1, j);
      } else if log[i].count == 1 {
        ResetSpans(log, i, k, j);
      } else if k' :| k < k' <= j && log[k'].count == 1 && forall x :: k < x < k' ==> log[x].count != 1 {
        ResetSpans(log, k, k', j);
        ChainOrdered(log, i, k);
      } else {
        NoReset(log, k, j);
        CountGrows(log, k, j - 1);
        LockSpans(log, i, j - 1, j);
      }
    } else {
      NoReset(log, i, j);
      CountGrows(log, i, j - 1);
      LockSpans(log, i, j - 1, j);
    }
  }

  lemma ChainSpread(log: seq<Entry>)
    requires Chain(log)
    ensures NonDecreasing(Times(log)) && Spread(Times(log), 8, FAIL_WINDOW)
    ensures Strict(log) ==> Spread(Times(log), 8, FAIL_WINDOW + 1)
  {
    forall i, j | 0 <= i <= j < |log| ensures Times(log)[i] <= Times(log)[j] {
      ChainOrdered(log, i, j);
    }
    forall i | 0 <= i < |log| - 8
      ensures Times(log)[i + 8] >= Times(log)[i] + FAIL_WINDOW
      ensures Strict(log) ==> Times(log)[i + 8] >= Times(log)[i] + FAIL_WINDOW + 1
    {
      NineSpanAWindow(log, i);
    }
  }

  /** Any 15-minute window, open at its end, lets at most 8 wrong passwords per login key
      through, however sweeps and other logins interleave, as long as none of the key succeeds. */
  lemma AtMostEightPerWindow(run: seq<Event>, clock: Time, key: string, from: Time)
    requires Ordered(clock, run) && NoSuccess(run, key)
    ensures InWindow(Times(Failures(map[], run, key)), from, FAIL_WINDOW) <= 8
  {
    var log := Failures(map[], run, key);
    FailuresChain(map[], clock, run, key, None);
    assert Prefix(None) + log == log;
    ChainSpread(log);
    SpreadBound(Times(log), 8, from, FAIL_WINDOW);
  }

  predicate StrictlyOrdered(clock: Time, run: seq<Event>)
    decreases |run|
  {
    run == [] || (clock < run[0].now && StrictlyOrdered(run[0].now, run[1..]))
  }

  lemma {:induction false} StrictIsOrdered(clock: Time, run: seq<Event>)
    requires StrictlyOrdered(clock, run)
    ensures Ordered(clock, run)
    decreases |run|
  {
    if run != [] {
      StrictIsOrdered(run[0].now, run[1..]);
    }
  }

  lemma {:induction false} FailureTimes(m: Buckets, clock: Time, run: seq<Event>, key: string)
    requires StrictlyOrdered(clock, run)
    ensures Strict(Failures(m, run, key))
    ensures forall e :: e in Failures(m, run, key) ==> clock < e.time
    decreases |run|
  {
    if run != [] {
      FailureTimes(Apply(m, run[0]), run[0].now, run[1..], key);
    }
  }

  /** At strictly increasing times the bound holds for windows closed at both ends too. */
  lemma AtMostEightPerClosedWindow(run: seq<Event>, clock: Time, key: string, from: Time)
    requires StrictlyOrdered(clock, run) && NoSuccess(run, key)
    ensures InWindow(Times(Failures(map[], run, key)), from, FAIL_WINDOW + 1) <= 8
  {
    var log := Failures(map[], run, key);
    StrictIsOrdered(clock, run);
    FailuresChain(map[], clock, run, key, None);
    assert Prefix(None) + log == log;
    ChainSpread(log);
    FailureTimes(map[], clock, run, key);
    SpreadBound(Times(log), 8, from, FAIL_WINDOW + 1);
  }

  /** How many wrong passwords for "a" get through in the 15 minutes from `from`. */
  function Through(m: Buckets, run: seq<Event>, from: Time): nat {
    InWindow(Times(Failures(m, run, "a")), from, FAIL_WINDOW)
  }

  lemma OneMoreThrough(m: Buckets, now: Time, rest: seq<Event>, from: Time) returns (next: Buckets)
    requires "a" in m ==> !Locked(m["a"], now)
    requires from <= now < from + FAIL_WINDOW
    ensures next == m["a" := AfterFailure(Find(m, "a"), now)]
    ensures Through(m, [Login("a", now, WrongPassword)] + rest, from) == 1 + Through(next, rest, from)
  {
    var e := Login("a", now, WrongPassword);
    next := Apply(m, e);
    assert NormalizeKey("a") == "a";
    var log := Failures(m, [e] + rest, "a");
    assert ([e] + rest)[1..] == rest;
    assert Times(log)[1..] == Times(Failures(next, rest, "a"));
  }

  /** n wrong passwords for "a", one tick apart, and then the rest. */
  function Burst(start: Time, n: nat, rest: seq<Event>): seq<Event>
    decreases n
  {
    if n == 0 then rest else [Login("a", start, WrongPassword)] + Burst(start + 1, n - 1, rest)
  }

  /** An open bucket for "a". */
  function Counting(count: nat, first: Time): Buckets {
    map["a" := Bucket(count, first, None)]
  }

  lemma OneMoreCounted(count: nat, first: Time, now: Time, rest: seq<Event>, from: Time)
    requires count + 1 < FAIL_LIMIT && now <= first + FAIL_WINDOW && from <= now < from + FAIL_WINDOW
    ensures Through(Counting(count, first), [Login("a", now, WrongPassword)] + rest, from) ==
            1 + Through(Counting(count + 1, first), rest, from)
  {
    var next := OneMoreThrough(Counting(count, first), now, rest, from);
    assert next == Counting(count + 1, first);
  }

  /** A burst that stays below the limit gets through entirely and only raises the count. */
  lemma {:induction false} BurstThrough(count: nat, first: Time, start: Time, n: nat, rest: seq<Event>, from: Time)
    requires count + n < FAIL_LIMIT && start + n <= first + FAIL_WINDOW + 1
    requires from <= start && start + n <= from + FAIL_WINDOW
    ensures Through(Counting(count, first), Burst(start, n, rest), from) == n + Through(Counting(count + n, first), rest, from)
    decreases n
  {
    if n == 0 {
      assert Burst(start, n, rest) == rest;
    } else {
      var later := Burst(start + 1, n - 1, rest);
      calc {
        Through(Counting(count, first), Burst(start, n, rest), from);
      == { OneMoreCounted(count, first, start, later, from); }
        1 + Through(Counting(count + 1, first), later, from);
      == { BurstThrough(count + 1, first, start + 1, n - 1, rest, from); }
        n + Through(Counting(count + n, first), rest, from);
      }
    }
  }

  lemma {:induction false} BurstOrdered(clock: Time, start: Time, n: nat, rest: seq<Event>)
    requires clock < start
    requires if n == 0 then StrictlyOrdered(clock, rest) else StrictlyOrdered(start + n - 1, rest)
    ensures StrictlyOrdered(clock, Burst(start, n, rest))
    decreases n
  {
    if n > 0 {
      BurstOrdered(start, start + 1, n - 1, rest);
      assert Burst(start, n, rest)[1..] == Burst(start + 1, n - 1, rest);
    }
  }

  lemma {:induction false} BurstFails(start: Time, n: nat, rest: seq<Event>)
    requires NoSuccess(rest, "a")
    ensures NoSuccess(Burst(start, n, rest), "a")
    decreases n
  {
    if n > 0 {
      BurstFails(start + 1, n - 1, rest);
    }
  }

  /** The bound is reached: after an early failure, three failures just before the bucket's window
      ends and five more in a fresh bucket right after it all get through. */
  lemma EightAreReached() returns (run: seq<Event>, from: Time)
    ensures StrictlyOrdered(-1, run) && NoSuccess(run, "a")
    ensures Through(map[], run, from) == 8
  {
    from := FAIL_WINDOW - 2;
    var late := Burst(FAIL_WINDOW + 1, 5, []);
    var rest := Burst(FAIL_WINDOW - 2, 3, late);
    run := [Login("a", 0, WrongPassword)] + rest;
    BurstOrdered(FAIL_WINDOW, FAIL_WINDOW + 1, 5, []);
    BurstOrdered(0, FAIL_WINDOW - 2, 3, late);
    assert run[1..] == rest;
    BurstFails(FAIL_WINDOW + 1, 5, []);
    BurstFails(FAIL_WINDOW - 2, 3, late);
    FirstFailureOutside(rest, from);
    BurstThrough(1, 0, FAIL_WINDOW - 2, 3, late, from);
    SecondBucket(from);
  }

  /** Five failures in a fresh bucket: the first opens it, the last one locks it. */
  lemma SecondBucket(from: Time)
    requires from == FAIL_WINDOW - 2
    ensures Through(Counting(4, 0), Burst(FAIL_WINDOW + 1, 5, []), from) == 5
  {
    var w := FAIL_WINDOW;
    var last := [Login("a", w + 5, WrongPassword)] + [];
    BurstSplit(w + 2, 3, 1, []);
    assert Burst(w + 5, 1, []) == last;
    var end := OneMoreThrough(Counting(4, w + 1), w + 5, [], from);
    BurstThrough(1, w + 1, w + 2, 3, last, from);
    var reopened := OneMoreThrough(Counting(4, 0), w + 1, Burst(w + 2, 4, []), from);
    assert reopened == Counting(1, w + 1);
  }

  lemma {:induction false} BurstSplit(start: Time, n: nat, k: nat, rest: seq<Event>)
    ensures Burst(start, n + k, rest) == Burst(start, n, Burst(start + n, k, rest))
    decreases n
  {
    if n > 0 {
      BurstSplit(start + 1, n - 1, k, rest);
    }
  }

  lemma FirstFailureOutside(rest: seq<Event>, from: Time)
    requires from > 0
    ensures Through(map[], [Login("a", 0, WrongPassword)] + rest, from) == Through(Counting(1, 0), rest, from)
  {
    var e := Login("a", 0, WrongPassword);
    assert NormalizeKey("a") == "a";
    assert Apply(map[], e) == Counting(1, 0);
    assert ([e] + rest)[1..] == rest;
    var log := Failures(map[], [e] + rest, "a");
    assert Times(log)[1..] == Times(Failures(Counting(1, 0), rest, "a"));
  }

  // ---- the state under its lock -----------------------------------------------------------

  lemma {:induction false} NormalizeAppend(s: string, c: char)
    ensures NormalizeKey(s + [c]) == NormalizeKey(s) + if c == ' ' || c == '\t' then [] else [Lower(c)]
  {
    if s == "" {
      assert s + [c] == [c];
      assert [c][1..] == "";
    } else {
      NormalizeAppend(s[1..], c);
      assert (s + [c])[1..] == s[1..] + [c];
    }
  }

  method NormalizeLoginKey(s: string) returns (key: string)
    ensures key == NormalizeKey(s)
  {
    key := [];
    for i := 0 to |s|
      invariant key == NormalizeKey(s[..i])
    {
      var c := s[i];
      assert s[..i + 1] == s[..i] + [c];
      NormalizeAppend(s[..i], c);
      if c == ' ' || c == '\t' {
        continue;
      }
      if c >= 'A' && c <= 'Z' {
        c := (c as int + 32) as char;
      }
      key := key + [c];
    }
    assert s[..|s|] == s;
  }

  class LoginGuard {
    var m: Buckets

    constructor ()
      ensures m == map[]
    {
      m := map[];
    }

    method IsLoginLocked(login: string, now: Time) returns (locked: bool, remaining: Time)
      modifies this
      ensures var (after, answer) := CheckLock(old(m), NormalizeKey(login), now);
        m == after && answer == if locked then Blocked(remaining) else Checked
    {
      var key := NormalizeLoginKey(login);
      if key !in m {
        return false, 0;
      }
      var b := m[key];
      if b.lockedUntil.Some? && now < b.lockedUntil.value {
        return true, b.lockedUntil.value - now;
      }
      if now - b.firstFailAt > FAIL_WINDOW {
        m := m - {key};
      }
      return false, 0;
    }

    method RecordLoginFailure(login: string, now: Time)
      modifies this
      ensures m == old(m)[NormalizeKey(login) := AfterFailure(Find(old(m), NormalizeKey(login)), now)]
    {
      var key := NormalizeLoginKey(login);
      if key !in m || now - m[key].firstFailAt > FAIL_WINDOW {
        m := m[key := Bucket(0, now, None)];
      }
      m := m[key := m[key].(count := m[key].count + 1)];
      if m[key].count >= FAIL_LIMIT {
        m := m[key := m[key].(lockedUntil := Some(now + LOCK_DURATION))];
      }
    }

    method RecordLoginSuccess(login: string)
      modifies this
      ensures m == old(m) - {NormalizeKey(login)}
    {
      var key := NormalizeLoginKey(login);
      m := m - {key};
    }

    /** The login handler around a password check that answers `outcome`. */
    method LogIn(login: string, now: Time, outcome: Outcome) returns (answer: Answer)
      modifies this
      ensures (m, answer) == Attempt(old(m), NormalizeKey(login), now, outcome)
      ensures answer == Checked && outcome == Success ==> NormalizeKey(login) !in m
      ensures answer == Checked && outcome == WrongPassword ==> NormalizeKey(login) in m
      ensures answer == Checked && (outcome == AccountDisabled || outcome == OtherError) ==>
        var b := Find(old(m), NormalizeKey(login));
        Find(m, NormalizeKey(login)) == if b.Some? && now > b.value.firstFailAt + FAIL_WINDOW then None else b
      ensures answer != Checked ==> m == old(m)
      ensures forall key :: key != NormalizeKey(login) ==> Find(m, key) == Find(old(m), key)
    {
      var locked, remaining := IsLoginLocked(login, now);
      if locked {
        return Blocked(remaining);
      }
      match outcome {
        case WrongPassword => RecordLoginFailure(login, now);
        case Success => RecordLoginSuccess(login);
        case _ =>
      }
      answer := Checked;
    }

    method SweepStale(now: Time)
      modifies this
      ensures m == Swept(old(m), now)
      ensures forall k :: k in m ==> k in old(m) && m[k] == old(m)[k]
      ensures forall k :: k in old(m) ==>
        var b := old(m)[k];
        k in m <==> now <= b.firstFailAt + FAIL_WINDOW || (b.lockedUntil.Some? && now <= b.lockedUntil.value)
    {
      var left := m.Keys;
      while left != {}
        invariant left <= m.Keys <= old(m).Keys
        invariant forall k :: k in m ==> m[k] == old(m)[k]
        invariant forall k :: k in old(m) && k !in left ==> (k in m <==> !Stale(old(m)[k], now))
        invariant forall k :: k in left ==> k in m
        decreases left
      {
        var k :| k in left;
        if now - m[k].firstFailAt > FAIL_WINDOW && (m[k].lockedUntil.None? || now > m[k].lockedUntil.value) {
          m := m - {k};
        }
        left := left - {k};
      }
    }
  }
}
