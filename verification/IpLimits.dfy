/** How the daily cap counts: within a day of the action that opened its bucket, every action of an
    address is counted, and exactly those past the limit are refused. */
module IpLimits {
  import opened Common
  import opened IpThrottle

  predicate Of(e: Event, ip: string, action: string) {
    e.Act? && e.ip == ip && e.action == action
  }

  /** The answers one address's actions of one kind get in a run, in order. */
  function OwnAnswers(m: Buckets, run: seq<Event>, ip: string, action: string): seq<Answer>
    decreases |run|
  {
    if run == [] then [] else
      (if Of(run[0], ip, action) then [AnswerTo(m, run[0])] else []) + OwnAnswers(Apply(m, run[0]), run[1..], ip, action)
  }

  lemma BucketAfter(m: Buckets, e: Event, ip: string, action: string)
    requires Find(m, ip, action).Some? && e.now <= Find(m, ip, action).value.resetAt
    ensures var b := Find(m, ip, action).value;
      Find(Apply(m, e), ip, action) == Some(if Of(e, ip, action) then b.(count := b.count + 1) else b)
  {
    match e
    case Act(i, a, _, now) => FindAfterHit(m, i, a, now, ip, action);
    case Sweep(now) => FindAfterSweep(m, now, ip, action);
  }

  lemma {:induction false} CountsOn(m: Buckets, run: seq<Event>, ip: string, action: string, limit: nat, i: nat)
    requires Find(m, ip, action).Some? && FixedLimit(run, ip, action, limit)
    requires forall e :: e in run ==> e.now <= Find(m, ip, action).value.resetAt
    requires i < |OwnAnswers(m, run, ip, action)|
    ensures var n := Find(m, ip, action).value.count + i + 1;
      OwnAnswers(m, run, ip, action)[i] == Answer(n, n > limit)
    decreases |run|
  {
    assert run[0] in run && forall e :: e in run[1..] ==> e in run;
    BucketAfter(m, run[0], ip, action);
    if Of(run[0], ip, action) {
      if i > 0 {
        CountsOn(Apply(m, run[0]), run[1..], ip, action, limit, i - 1);
      }
    } else {
      CountsOn(Apply(m, run[0]), run[1..], ip, action, limit, i);
    }
  }

  /** An action without a running bucket opens one; it and the later ones within a day of it are
      numbered 1, 2, 3, and so on, and refused exactly when their number exceeds the limit, whatever
      other addresses and sweeps do. */
  lemma CountsUp(m: Buckets, ip: string, action: string, limit: nat, now: Time, rest: seq<Event>, i: nat)
    requires Find(m, ip, action).None? || Find(m, ip, action).value.resetAt < now
    requires FixedLimit(rest, ip, action, limit) && forall e :: e in rest ==> e.now <= now + 24 * 60 * 60 * 1_000_000_000
    requires i < |OwnAnswers(m, [Act(ip, action, limit, now)] + rest, ip, action)|
    ensures OwnAnswers(m, [Act(ip, action, limit, now)] + rest, ip, action)[i] == Answer(i + 1, i + 1 > limit)
  {
    var run := [Act(ip, action, limit, now)] + rest;
    assert run[1..] == rest;
    FindAfterHit(m, ip, action, now, ip, action);
    if i > 0 {
      CountsOn(Hit(m, ip, action, now), rest, ip, action, limit, i - 1);
    }
  }
}
