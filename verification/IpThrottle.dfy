/** The absolute per-IP cap on actions (throttle.go: hitIPDailyCap and its sweep). */
module IpThrottle {
  import opened Common
  import opened Windows

  const DAY := 24 * 60 * 60 * 1_000_000_000

  datatype Bucket = Bucket(count: nat, resetAt: Time)

  type Actions = map<string, Bucket>
  type Buckets = map<string, Actions>

  function Find(m: Buckets, ip: string, action: string): Option<Bucket> {
    if ip in m && action in m[ip] then Some(m[ip][action]) else None
  }

  /** The bucket right after a hit. */
  function Counted(found: Option<Bucket>, now: Time): Bucket {
    if found.None? || now > found.value.resetAt then Bucket(1, now + DAY)
    else found.value.(count := found.value.count + 1)
  }

  function Hit(m: Buckets, ip: string, action: string, now: Time): Buckets {
    m[ip := (if ip in m then m[ip] else map[])[action := Counted(Find(m, ip, action), now)]]
  }

  function KeepFresh(actions: Actions, now: Time): Actions {
    map a | a in actions && now <= actions[a].resetAt :: actions[a]
  }

  function Swept(m: Buckets, now: Time): Buckets {
    map ip | ip in m && KeepFresh(m[ip], now) != map[] :: KeepFresh(m[ip], now)
  }

  // ---- runs -------------------------------------------------------------------------------

  datatype Event = Act(ip: string, action: string, limit: nat, now: Time) | Sweep(now: Time)

  function Apply(m: Buckets, e: Event): Buckets {
    match e
    case Act(ip, action, _, now) => Hit(m, ip, action, now)
    case Sweep(now) => Swept(m, now)
  }

  predicate Ordered(clock: Time, run: seq<Event>)
    decreases |run|
  {
    run == [] || (clock <= run[0].now && Ordered(run[0].now, run[1..]))
  }

  datatype Answer = Answer(count: nat, over: bool)

  function AnswerTo(m: Buckets, e: Event): Answer
    requires e.Act?
  {
    var count := Counted(Find(m, e.ip, e.action), e.now).count;
    Answer(count, count > e.limit)
  }

  function Answers(m: Buckets, run: seq<Event>): seq<Answer>
    decreases |run|
  {
    if run == [] then [] else
      (if run[0].Act? then [AnswerTo(m, run[0])] else []) + Answers(Apply(m, run[0]), run[1..])
  }

  function WithoutSweeps(run: seq<Event>): seq<Event> {
    if run == [] then [] else
      (if run[0].Sweep? then [] else [run[0]]) + WithoutSweeps(run[1..])
  }

  // ---- sweeping is invisible --------------------------------------------------------------

  function Visible(m: Buckets, ip: string, action: string, now: Time): Option<Bucket> {
    var b := Find(m, ip, action);
    if b.Some? && now <= b.value.resetAt then b else None
  }

  ghost predicate Alike(m: Buckets, n: Buckets, now: Time) {
    forall ip, action :: Visible(m, ip, action, now) == Visible(n, ip, action, now)
  }

  lemma AlikeLater(m: Buckets, n: Buckets, clock: Time, now: Time)
    requires Alike(m, n, clock) && clock <= now
    ensures Alike(m, n, now)
  {
    forall ip, action ensures Visible(m, ip, action, now) == Visible(n, ip, action, now) {
      assert Visible(m, ip, action, clock) == Visible(n, ip, action, clock);
    }
  }

  lemma FindAfterHit(m: Buckets, ip: string, action: string, now: Time, i: string, a: string)
    ensures Find(Hit(m, ip, action, now), i, a) ==
      if i == ip && a == action then Some(Counted(Find(m, ip, action), now)) else Find(m, i, a)
  {
  }

  function Unexpired(b: Option<Bucket>, now: Time): Option<Bucket> {
    if b.Some? && b.value.resetAt < now then None else b
  }

  lemma FindAfterSweep(m: Buckets, now: Time, i: string, a: string)
    ensures Find(Swept(m, now), i, a) == Unexpired(Find(m, i, a), now)
  {
    if i in m && a in m[i] && now <= m[i][a].resetAt {
      assert a in KeepFresh(m[i], now);
    }
  }

  lemma HitAlike(m: Buckets, n: Buckets, ip: string, action: string, now: Time)
    requires Alike(m, n, now)
    ensures Counted(Find(m, ip, action), now) == Counted(Find(n, ip, action), now)
    ensures Alike(Hit(m, ip, action, now), Hit(n, ip, action, now), now)
  {
    assert Visible(m, ip, action, now) == Visible(n, ip, action, now);
    forall i, a ensures Visible(Hit(m, ip, action, now), i, a, now) == Visible(Hit(n, ip, action, now), i, a, now) {
      assert Visible(m, i, a, now) == Visible(n, i, a, now);
      FindAfterHit(m, ip, action, now, i, a);
      FindAfterHit(n, ip, action, now, i, a);
    }
  }

  lemma AnswersCons(m: Buckets, e: Event, rest: seq<Event>)
    requires e.Act?
    ensures Answers(m, [e] + rest) == [AnswerTo(m, e)] + Answers(Apply(m, e), rest)
  {
    assert ([e] + rest)[1..] == rest;
  }

  lemma SweptAlike(m: Buckets, n: Buckets, now: Time)
    requires Alike(m, n, now)
    ensures Alike(Swept(m, now), n, now)
  {
    forall i, a ensures Visible(Swept(m, now), i, a, now) == Visible(n, i, a, now) {
      assert Visible(m, i, a, now) == Visible(n, i, a, now);
      FindAfterSweep(m, now, i, a);
    }
  }

  lemma {:induction false} SweepsUnseen(m: Buckets, n: Buckets, clock: Time, run: seq<Event>)
    requires Alike(m, n, clock) && Ordered(clock, run)
    ensures Answers(m, run) == Answers(n, WithoutSweeps(run))
    decreases |run|
  {
    if run != [] {
      var now := run[0].now;
      AlikeLater(m, n, clock, now);
      match run[0] {
        case Sweep(_) =>
          SweptAlike(m, n, now);
          SweepsUnseen(Swept(m, now), n, now, run[1..]);
          assert WithoutSweeps(run) == WithoutSweeps(run[1..]);
        case Act(ip, action, _, _) =>
          HitAlike(m, n, ip, action, now);
          SweepsUnseen(Apply(m, run[0]), Apply(n, run[0]), now, run[1..]);
          AnswersCons(n, run[0], WithoutSweeps(run[1..]));
      }
    }
  }

  /** Garbage sweeps anywhere in a run change no answer. */
  lemma SweepsChangeNoAnswer(m: Buckets, clock: Time, run: seq<Event>)
    requires Ordered(clock, run)
    ensures Answers(m, run) == Answers(m, WithoutSweeps(run))
  {
    SweepsUnseen(m, m, clock, run);
  }

  // ---- how many actions get through -------------------------------------------------------

  /** An action that was let through, with its bucket right after the hit. */
  datatype Entry = Entry(time: Time, resetAt: Time, count: nat)

  function EntryOf(m: Buckets, e: Event, ip: string, action: string): seq<Entry> {
    if e.Act? && e.ip == ip && e.action == action && !AnswerTo(m, e).over then
      var b := Counted(Find(m, ip, action), e.now);
      [Entry(e.now, b.resetAt, b.count)]
    else []
  }

  function Allowed(m: Buckets, run: seq<Event>, ip: string, action: string): seq<Entry>
    decreases |run|
  {
    if run == [] then [] else EntryOf(m, run[0], ip, action) + Allowed(Apply(m, run[0]), run[1..], ip, action)
  }

  function Times(log: seq<Entry>): seq<Time> {
    seq(|log|, i requires 0 <= i < |log| => log[i].time)
  }

  predicate Fits(e: Entry, limit: nat) {
    1 <= e.count <= limit && e.resetAt - DAY <= e.time <= e.resetAt && (e.count == 1 ==> e.resetAt == e.time + DAY)
  }

  predicate Follows(e: Entry, f: Entry, limit: nat) {
    Fits(e, limit) && Fits(f, limit) && e.time <= f.time &&
    if f.resetAt == e.resetAt then f.count == e.count + 1
    else f.time > e.resetAt && f.resetAt == f.time + DAY
  }

  ghost predicate Chain(log: seq<Entry>, limit: nat) {
    (forall i :: 0 <= i < |log| ==> Fits(log[i], limit)) &&
    (forall i :: 0 <= i < |log| - 1 ==> Follows(log[i], log[i + 1], limit))
  }

  /** The state of the bucket after the last action let through was `prev`. */
  predicate BucketMatches(m: Buckets, ip: string, action: string, limit: nat, clock: Time, prev: Option<Entry>) {
    var b := Find(m, ip, action);
    match prev
    case None => b.None? || limit == 0
    case Some(e) =>
      Fits(e, limit) && e.time <= clock &&
      if b.None? then clock > e.resetAt
      else b.value.resetAt == e.resetAt && b.value.count >= e.count && (b.value.count > e.count ==> e.count == limit)
  }

  predicate FixedLimit(run: seq<Event>, ip: string, action: string, limit: nat) {
    forall e :: e in run && e.Act? && e.ip == ip && e.action == action ==> e.limit == limit
  }

  function Prefix(prev: Option<Entry>): seq<Entry> {
    if prev.None? then [] else [prev.value]
  }

  lemma EntryFollows(m: Buckets, ip: string, action: string, limit: nat, clock: Time, prev: Option<Entry>, e: Event)
    requires BucketMatches(m, ip, action, limit, clock, prev) && clock <= e.now
    requires e.Act? && e.ip == ip && e.action == action ==> e.limit == limit
    ensures var more := EntryOf(m, e, ip, action);
      var last := if more == [] then prev else Some(more[0]);
      |more| <= 1 && BucketMatches(Apply(m, e), ip, action, limit, e.now, last) &&
      (more != [] ==> Fits(more[0], limit) && (prev.Some? ==> Follows(prev.value, more[0], limit)))
  {
    match e
    case Act(i, a, _, now) => FindAfterHit(m, i, a, now, ip, action);
    case Sweep(now) => FindAfterSweep(m, now, ip, action);
  }

  lemma ChainCons(prev: Option<Entry>, e: Entry, rest: seq<Entry>, limit: nat)
    requires Chain([e] + rest, limit) && (prev.Some? ==> Follows(prev.value, e, limit))
    ensures Chain(Prefix(prev) + ([e] + rest), limit)
  {
    if prev.Some? {
      var log := [prev.value] + ([e] + rest);
      forall i | 0 <= i < |log| - 1 ensures Follows(log[i], log[i + 1], limit) {
        if i > 0 {
          assert log[i] == ([e] + rest)[i - 1] && log[i + 1] == ([e] + rest)[i];
        }
      }
    } else {
      assert Prefix(prev) + ([e] + rest) == [e] + rest;
    }
  }

  lemma {:induction false} AllowedChain(m: Buckets, clock: Time, run: seq<Event>, ip: string, action: string,
      limit: nat, prev: Option<Entry>)
    requires BucketMatches(m, ip, action, limit, clock, prev)
    requires Ordered(clock, run) && FixedLimit(run, ip, action, limit)
    ensures Chain(Prefix(prev) + Allowed(m, run, ip, action), limit)
    decreases |run|
  {
    if run != [] {
      EntryFollows(m, ip, action, limit, clock, prev, run[0]);
      var more := EntryOf(m, run[0], ip, action);
      var rest := Allowed(Apply(m, run[0]), run[1..], ip, action);
      if more == [] {
        AllowedChain(Apply(m, run[0]), run[0].now, run[1..], ip, action, limit, prev);
        assert more + rest == rest;
      } else {
        AllowedChain(Apply(m, run[0]), run[0].now, run[1..], ip, action, limit, Some(more[0]));
        assert more == [more[0]];
        ChainCons(prev, more[0], rest, limit);
      }
    }
  }

  /** Between two entries either the same bucket kept counting, or a later bucket was opened after
      the first one ended. */
  lemma {:induction false} SameOrLater(log: seq<Entry>, limit: nat, i: nat, j: nat)
    requires Chain(log, limit) && i <= j < |log|
    ensures log[i].time <= log[j].time
    ensures (log[j].resetAt == log[i].resetAt && log[j].count == log[i].count + (j - i)) ||
            (log[j].time > log[i].resetAt && log[j].resetAt > log[i].resetAt + DAY)
  {
    if i < j {
      SameOrLater(log, limit, i, j - 1);
      assert Follows(log[j - 1], log[j], limit);
    }
  }

  /** Any 24-hour window, both ends included, lets fewer than twice the limit through for one
      (ip, action), whatever else happens and however sweeps fall; nothing if the limit is 0. */
  lemma FewerThanTwiceTheLimit(run: seq<Event>, clock: Time, ip: string, action: string, limit: nat, from: Time)
    requires Ordered(clock, run) && FixedLimit(run, ip, action, limit)
    ensures InWindow(Times(Allowed(map[], run, ip, action)), from, DAY + 1) <= if limit == 0 then 0 else 2 * limit - 1
  {
    var log := Allowed(map[], run, ip, action);
    AllowedChain(map[], clock, run, ip, action, limit, None);
    assert Prefix(None) + log == log;
    if limit == 0 {
      EmptyChain(log);
    } else {
      ChainSpread(log, limit);
      SpreadBound(Times(log), 2 * limit - 1, from, DAY + 1);
    }
  }

  lemma EmptyChain(log: seq<Entry>)
    requires Chain(log, 0)
    ensures log == []
  {
    assert |log| == 0 || Fits(log[0], 0);
  }

  lemma ChainSpread(log: seq<Entry>, limit: nat)
    requires Chain(log, limit) && limit >= 1
    ensures NonDecreasing(Times(log)) && Spread(Times(log), 2 * limit - 1, DAY + 1)
  {
    forall i, j | 0 <= i <= j < |log| ensures Times(log)[i] <= Times(log)[j] {
      SameOrLater(log, limit, i, j);
    }
    forall i | 0 <= i < |log| - (2 * limit - 1) ensures Times(log)[i + (2 * limit - 1)] >= Times(log)[i] + DAY + 1 {
      TwiceTheLimitSpansADay(log, limit, i);
    }
  }

  /** 2 x limit entries in a row span more than a day: either a whole bucket lies between the
      first and the last, or the first one opened its bucket and the last came after its end. */
  lemma TwiceTheLimitSpansADay(log: seq<Entry>, limit: nat, i: nat)
    requires Chain(log, limit) && limit >= 1 && i + (2 * limit - 1) < |log|
    ensures log[i + (2 * limit - 1)].time > log[i].time + DAY
  {
    var mid, last := i + (limit - 1), i + (2 * limit - 1);
    SameOrLater(log, limit, i, mid);
    SameOrLater(log, limit, i, last);
    SameOrLater(log, limit, mid, last);
    assert Fits(log[i], limit) && Fits(log[mid], limit) && Fits(log[last], limit);
  }

  // ---- the bound is reached -----------------------------------------------------------------

  function One(ip: string, action: string, b: Bucket): Buckets {
    map[ip := map[action := b]]
  }

  lemma OneHit(ip: string, action: string, b: Bucket, now: Time)
    ensures Hit(One(ip, action, b), ip, action, now) == One(ip, action, Counted(Some(b), now))
  {
    var c := Counted(Some(b), now);
    assert map[action := b][action := c] == map[action := c];
    assert map[ip := map[action := b]][ip := map[action := c]] == map[ip := map[action := c]];
  }

  /** n actions at one time, and then the rest. */
  function Burst(ip: string, action: string, limit: nat, now: Time, n: nat, rest: seq<Event>): seq<Event> {
    if n == 0 then rest else [Act(ip, action, limit, now)] + Burst(ip, action, limit, now, n - 1, rest)
  }

  /** What a run lets through in the 24 hours, both ends included, from `from` on. */
  function Through(m: Buckets, run: seq<Event>, ip: string, action: string, from: Time): nat {
    InWindow(Times(Allowed(m, run, ip, action)), from, DAY + 1)
  }

  lemma OneMore(m: Buckets, ip: string, action: string, limit: nat, now: Time, rest: seq<Event>, from: Time)
    requires Counted(Find(m, ip, action), now).count <= limit
    ensures Through(m, [Act(ip, action, limit, now)] + rest, ip, action, from) ==
      (if from <= now <= from + DAY then 1 else 0) + Through(Hit(m, ip, action, now), rest, ip, action, from)
  {
    var e := Act(ip, action, limit, now);
    assert ([e] + rest)[1..] == rest;
    var log := Allowed(m, [e] + rest, ip, action);
    assert log == EntryOf(m, e, ip, action) + Allowed(Hit(m, ip, action, now), rest, ip, action);
    assert Times(log)[1..] == Times(Allowed(Hit(m, ip, action, now), rest, ip, action));
  }

  lemma OneCounted(ip: string, action: string, limit: nat, count: nat, resetAt: Time, now: Time,
      rest: seq<Event>, from: Time)
    requires now <= resetAt && count + 1 <= limit && from <= now <= from + DAY
    ensures Through(One(ip, action, Bucket(count, resetAt)), [Act(ip, action, limit, now)] + rest, ip, action, from) ==
      1 + Through(One(ip, action, Bucket(count + 1, resetAt)), rest, ip, action, from)
  {
    OneMore(One(ip, action, Bucket(count, resetAt)), ip, action, limit, now, rest, from);
    OneHit(ip, action, Bucket(count, resetAt), now);
  }

  /** A burst that stays within the limit gets through entirely and only raises the count. */
  lemma {:induction false} BurstThrough(ip: string, action: string, limit: nat, count: nat, resetAt: Time, now: Time,
      n: nat, rest: seq<Event>, from: Time)
    requires now <= resetAt && count + n <= limit && from <= now <= from + DAY
    ensures Through(One(ip, action, Bucket(count, resetAt)), Burst(ip, action, limit, now, n, rest), ip, action, from) ==
      n + Through(One(ip, action, Bucket(count + n, resetAt)), rest, ip, action, from)
    decreases n
  {
    if n == 0 {
      assert Burst(ip, action, limit, now, n, rest) == rest;
    } else {
      var fewer := Burst(ip, action, limit, now, n - 1, rest);
      calc {
        Through(One(ip, action, Bucket(count, resetAt)), Burst(ip, action, limit, now, n, rest), ip, action, from);
      == { OneCounted(ip, action, limit, count, resetAt, now, fewer, from); }
        1 + Through(One(ip, action, Bucket(count + 1, resetAt)), fewer, ip, action, from);
      == { BurstThrough(ip, action, limit, count + 1, resetAt, now, n - 1, rest, from); }
        n + Through(One(ip, action, Bucket(count + n, resetAt)), rest, ip, action, from);
      }
    }
  }

  lemma {:induction false} BurstOrdered(ip: string, action: string, limit: nat, now: Time, n: nat, clock: Time,
      rest: seq<Event>)
    requires clock <= now && Ordered(now, rest) && FixedLimit(rest, ip, action, limit)
    ensures Ordered(clock, Burst(ip, action, limit, now, n, rest))
    ensures FixedLimit(Burst(ip, action, limit, now, n, rest), ip, action, limit)
    decreases n
  {
    if n == 0 {
      assert rest == [] || clock <= now <= rest[0].now;
    } else {
      BurstOrdered(ip, action, limit, now, n - 1, now, rest);
      assert Burst(ip, action, limit, now, n, rest)[1..] == Burst(ip, action, limit, now, n - 1, rest);
    }
  }

  /** For every limit there is a run with 2 x limit - 1 actions let through in one day: the first
      one opens a bucket, the others of the limit come when it ends, and a full limit right after. */
  lemma TwiceLessOneIsReached(ip: string, action: string, limit: nat) returns (run: seq<Event>, from: Time)
    requires limit >= 1
    ensures Ordered(0, run) && FixedLimit(run, ip, action, limit)
    ensures Through(map[], run, ip, action, from) == 2 * limit - 1
  {
    from := 1;
    var late := Burst(ip, action, limit, DAY + 1, limit, []);
    var rest := Burst(ip, action, limit, DAY, limit - 1, late);
    run := [Act(ip, action, limit, 0)] + rest;
    DayLongOrdered(ip, action, limit);
    OneMore(map[], ip, action, limit, 0, rest, from);
    assert Hit(map[], ip, action, 0) == One(ip, action, Bucket(1, DAY));
    BurstThrough(ip, action, limit, 1, DAY, DAY, limit - 1, late, from);
    LateBurst(ip, action, limit, from);
  }

  lemma DayLongOrdered(ip: string, action: string, limit: nat)
    requires limit >= 1
    ensures var late := Burst(ip, action, limit, DAY + 1, limit, []);
      var run := [Act(ip, action, limit, 0)] + Burst(ip, action, limit, DAY, limit - 1, late);
      Ordered(0, run) && FixedLimit(run, ip, action, limit)
  {
    var late := Burst(ip, action, limit, DAY + 1, limit, []);
    var rest := Burst(ip, action, limit, DAY, limit - 1, late);
    BurstOrdered(ip, action, limit, DAY + 1, limit, DAY, []);
    BurstOrdered(ip, action, limit, DAY, limit - 1, 0, late);
    assert ([Act(ip, action, limit, 0)] + rest)[1..] == rest;
  }

  /** A full bucket that is over counts afresh. */
  lemma LateBurst(ip: string, action: string, limit: nat, from: Time)
    requires limit >= 1 && from == 1
    ensures Through(One(ip, action, Bucket(limit, DAY)), Burst(ip, action, limit, DAY + 1, limit, []), ip, action, from)
      == limit
  {
    var now := DAY + 1;
    OneMore(One(ip, action, Bucket(limit, DAY)), ip, action, limit, now, Burst(ip, action, limit, now, limit - 1, []), from);
    OneHit(ip, action, Bucket(limit, DAY), now);
    BurstThrough(ip, action, limit, 1, now + DAY, now, limit - 1, [], from);
  }

  // ---- the state under its lock -----------------------------------------------------------

  class DailyCap {
    var m: Buckets

    constructor ()
      ensures m == map[]
    {
      m := map[];
    }

    method HitIPDailyCap(ip: string, action: string, limit: nat, now: Time) returns (count: nat, over: bool)
      modifies this
      ensures m == Hit(old(m), ip, action, now)
      ensures Answer(count, over) == AnswerTo(old(m), Act(ip, action, limit, now))
    {
      if ip !in m {
        m := m[ip := map[]];
      }
      var actions := m[ip];
      if action !in actions || now > actions[action].resetAt {
        actions := actions[action := Bucket(0, now + DAY)];
      }
      actions := actions[action := actions[action].(count := actions[action].count + 1)];
      m := m[ip := actions];
      ghost var before := if ip in old(m) then old(m)[ip] else map[];
      assert actions == before[action := Counted(Find(old(m), ip, action), now)];
      return actions[action].count, actions[action].count > limit;
    }

    method SweepActions(actions: Actions, now: Time) returns (kept: Actions)
      ensures kept == KeepFresh(actions, now)
    {
      kept := actions;
      var left := actions.Keys;
      while left != {}
        invariant left <= kept.Keys <= actions.Keys
        invariant forall a :: a in kept ==> kept[a] == actions[a]
        invariant forall a :: a in actions && a !in left ==> (a in kept <==> now <= actions[a].resetAt)
        decreases left
      {
        var a :| a in left;
        if now > kept[a].resetAt {
          kept := kept - {a};
        }
        left := left - {a};
      }
    }

    method SweepStale(now: Time)
      modifies this
      ensures m == Swept(old(m), now)
      ensures forall ip :: ip in m ==> m[ip] != map[]
      ensures forall ip, action :: Find(m, ip, action) == Unexpired(Find(old(m), ip, action), now)
    {
      var left := m.Keys;
      while left != {}
        invariant left <= old(m).Keys && SweptBut(old(m), m, left, now)
        decreases left
      {
        var ip :| ip in left;
        var actions := SweepActions(m[ip], now);
        SweepOne(old(m), m, left, now, ip);
        m := if |actions| == 0 then m - {ip} else m[ip := actions];
        left := left - {ip};
      }
      assert m.Keys == Swept(old(m), now).Keys;
      forall ip, action ensures Find(m, ip, action) == Unexpired(Find(old(m), ip, action), now) {
        FindAfterSweep(old(m), now, ip, action);
      }
    }
  }

  /** The addresses not left to do are swept, the others as they were. */
  ghost predicate SweptBut(before: Buckets, m: Buckets, left: set<string>, now: Time) {
    m.Keys <= before.Keys &&
    (forall ip :: ip in left ==> ip in m && m[ip] == before[ip]) &&
    (forall ip :: ip in before && ip !in left ==> SweptAt(before, m, ip, now))
  }

  ghost predicate SweptAt(before: Buckets, m: Buckets, ip: string, now: Time)
    requires ip in before
  {
    (ip in m <==> KeepFresh(before[ip], now) != map[]) && (ip in m ==> m[ip] == KeepFresh(before[ip], now))
  }

  lemma SweepOne(before: Buckets, m: Buckets, left: set<string>, now: Time, ip: string)
    requires left <= before.Keys && SweptBut(before, m, left, now) && ip in left
    ensures var actions := KeepFresh(m[ip], now);
      SweptBut(before, if |actions| == 0 then m - {ip} else m[ip := actions], left - {ip}, now)
  {
    var actions := KeepFresh(m[ip], now);
    var next := if |actions| == 0 then m - {ip} else m[ip := actions];
    assert |actions| == 0 <==> actions == map[];
    forall i | i in before && i !in left - {ip} ensures SweptAt(before, next, i, now) {
      if i != ip {
        assert SweptAt(before, m, i, now);
      }
    }
  }
}
