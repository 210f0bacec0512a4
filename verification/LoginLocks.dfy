/** When the login lockout locks, for how long, and what a success resets. */
module LoginLocks {
  import opened Common
  import opened LoginThrottle

  predicate Of(e: Event, key: string) {
    e.Login? && NormalizeKey(e.login) == key
  }

  /** The answers one key's logins get in a run, in order. */
  function KeyAnswers(m: Buckets, run: seq<Event>, key: string): seq<Answer>
    decreases |run|
  {
    if run == [] then [] else
      (if Of(run[0], key) then [Attempt(m, key, run[0].now, run[0].outcome).1] else [])
      + KeyAnswers(Apply(m, run[0]), run[1..], key)
  }

  // ---- what a success resets ----------------------------------------------------------------

  lemma OwnBucketStep(m: Buckets, n: Buckets, e: Event, key: string)
    requires Find(m, key) == Find(n, key)
    ensures Find(Apply(m, e), key) == Find(Apply(n, e), key)
    ensures Of(e, key) ==> Attempt(m, key, e.now, e.outcome).1 == Attempt(n, key, e.now, e.outcome).1
  {
  }

  /** A key's answers depend on its own bucket alone. */
  lemma {:induction false} OwnBucketOnly(m: Buckets, n: Buckets, run: seq<Event>, key: string)
    requires Find(m, key) == Find(n, key)
    ensures KeyAnswers(m, run, key) == KeyAnswers(n, run, key)
    decreases |run|
  {
    if run != [] {
      OwnBucketStep(m, n, run[0], key);
      OwnBucketOnly(Apply(m, run[0]), Apply(n, run[0]), run[1..], key);
    }
  }

  /** After a checked success a key's logins are answered as if it had never failed, whatever came
      before and whatever follows. */
  lemma SuccessForgets(m: Buckets, login: string, now: Time, run: seq<Event>)
    requires Attempt(m, NormalizeKey(login), now, Success).1 == Checked
    ensures KeyAnswers(Apply(m, Login(login, now, Success)), run, NormalizeKey(login)) ==
            KeyAnswers(map[], run, NormalizeKey(login))
  {
    OwnBucketOnly(Apply(m, Login(login, now, Success)), map[], run, NormalizeKey(login));
  }

  /** The key has failed at most `count` times since it was last clear, and is not locked. */
  predicate Unlocked(m: Buckets, key: string, count: nat) {
    key in m ==> m[key].count <= count && m[key].lockedUntil.None?
  }

  lemma {:induction false} CheckedWhileFew(m: Buckets, run: seq<Event>, key: string, count: nat, i: nat)
    requires Unlocked(m, key, count) && i < |KeyAnswers(m, run, key)| && count + i < 5
    ensures KeyAnswers(m, run, key)[i] == Checked
    decreases |run|
  {
    var e, next := run[0], Apply(m, run[0]);
    if Of(e, key) {
      assert Attempt(m, key, e.now, e.outcome).1 == Checked;
      if i > 0 {
        assert Unlocked(next, key, count + 1);
        CheckedWhileFew(next, run[1..], key, count + 1, i - 1);
      }
    } else {
      CheckedWhileFew(next, run[1..], key, count, i);
    }
  }

  /** So the next five attempts after a success are all checked, however the earlier ones went. */
  lemma FiveCheckedAfterSuccess(m: Buckets, login: string, now: Time, run: seq<Event>, i: nat)
    requires Attempt(m, NormalizeKey(login), now, Success).1 == Checked
    requires i < 5 && i < |KeyAnswers(Apply(m, Login(login, now, Success)), run, NormalizeKey(login))|
    ensures KeyAnswers(Apply(m, Login(login, now, Success)), run, NormalizeKey(login))[i] == Checked
  {
    CheckedWhileFew(Apply(m, Login(login, now, Success)), run, NormalizeKey(login), 0, i);
  }

  // ---- what five failures lock ------------------------------------------------------------------

  /** When a key's logins happen. */
  function KeyTimes(run: seq<Event>, key: string): seq<Time> {
    if run == [] then [] else (if Of(run[0], key) then [run[0].now] else []) + KeyTimes(run[1..], key)
  }

  ghost predicate OnlyWrong(run: seq<Event>, key: string) {
    forall e :: e in run && Of(e, key) ==> e.outcome == WrongPassword
  }

  /** The key's bucket when its failures since it was clear were at these times, at most five of
      them and within one window. */
  predicate BucketOf(m: Buckets, key: string, times: seq<Time>, clock: Time) {
    if times == [] then key !in m
    else if |times| < 5 then key in m && m[key] == Bucket(|times|, times[0], None)
    else if key in m then m[key] == Bucket(5, times[0], Some(times[4] + LOCK_DURATION))
    else clock > times[4] + LOCK_DURATION
  }

  lemma BucketStep(m: Buckets, key: string, times: seq<Time>, clock: Time, e: Event)
    requires BucketOf(m, key, times, clock) && clock <= e.now && |times| <= 5
    requires Of(e, key) ==> e.outcome == WrongPassword && |times| < 5
    requires times != [] && |times| < 5 ==> e.now <= times[0] + FAIL_WINDOW
    ensures BucketOf(Apply(m, e), key, if Of(e, key) then times + [e.now] else times, e.now)
  {
  }

  lemma {:induction false} TimesAfter(clock: Time, run: seq<Event>, key: string)
    requires Ordered(clock, run)
    ensures forall i :: 0 <= i < |KeyTimes(run, key)| ==> clock <= KeyTimes(run, key)[i]
    decreases |run|
  {
    if run != [] {
      TimesAfter(run[0].now, run[1..], key);
    }
  }

  lemma {:induction false} BucketAlong(m: Buckets, key: string, times: seq<Time>, clock: Time, run: seq<Event>, now: Time)
    requires BucketOf(m, key, times, clock) && Ordered(clock, run) && OnlyWrong(run, key)
    requires |times + KeyTimes(run, key)| == 5
    requires (times + KeyTimes(run, key))[4] <= (times + KeyTimes(run, key))[0] + FAIL_WINDOW
    requires clock <= now && forall e :: e in run ==> e.now <= now
    ensures BucketOf(AfterRun(m, run), key, times + KeyTimes(run, key), now)
    decreases |run|
  {
    if run == [] {
      assert times + [] == times;
    } else {
      var e, rest := run[0], KeyTimes(run[1..], key);
      TimesAfter(e.now, run[1..], key);
      var more := if Of(e, key) then times + [e.now] else times;
      assert more + rest == times + KeyTimes(run, key);
      assert e in run;
      if times != [] && |times| < 5 {
        assert (more + rest)[4] >= e.now;
      }
      BucketStep(m, key, times, clock, e);
      BucketAlong(Apply(m, e), key, more, e.now, run[1..], now);
    }
  }

  function AfterRun(m: Buckets, run: seq<Event>): Buckets
    decreases |run|
  {
    if run == [] then m else AfterRun(Apply(m, run[0]), run[1..])
  }

  /** Five failures in a row within one window lock the key for fifteen minutes from the fifth, to
      the tick, whatever other keys and sweeps do meanwhile. */
  lemma FiveLock(m: Buckets, key: string, clock: Time, run: seq<Event>, now: Time, outcome: Outcome)
    requires key !in m && Ordered(clock, run) && OnlyWrong(run, key)
    requires |KeyTimes(run, key)| == 5 && KeyTimes(run, key)[4] <= KeyTimes(run, key)[0] + 15 * 60 * SECOND
    requires clock <= now && forall e :: e in run ==> e.now <= now
    ensures var until := KeyTimes(run, key)[4] + 15 * 60 * SECOND;
      Attempt(AfterRun(m, run), key, now, outcome).1 == if now < until then Blocked(until - now) else Checked
  {
    assert [] + KeyTimes(run, key) == KeyTimes(run, key);
    BucketAlong(m, key, [], clock, run, now);
  }

  // ---- keys ---------------------------------------------------------------------------------------

  /** A key has no blanks and no capitals. */
  lemma {:induction false} KeysAreCanonical(s: string)
    ensures forall c :: c in NormalizeKey(s) ==> c != ' ' && c != '\t' && !('A' <= c <= 'Z')
  {
    if s != "" {
      KeysAreCanonical(s[1..]);
    }
  }

  /** A login without blanks and capitals is its own key, so normalizing twice changes nothing. */
  lemma {:induction false} CanonicalIsKey(s: string)
    requires forall c :: c in s ==> c != ' ' && c != '\t' && !('A' <= c <= 'Z')
    ensures NormalizeKey(s) == s
  {
    if s != "" {
      assert s[0] in s && forall c :: c in s[1..] ==> c in s;
      CanonicalIsKey(s[1..]);
      assert s == [s[0]] + s[1..];
    }
  }
}
