/** The account-number allocator (account_no.go, account_no_handler.go, auth/cleanup.go, the
    premium operations of admin/handler.go and the transaction of auth/handler.go register).

    `Tables` is the part of the database these operations touch. Every transaction of the source
    is one function from tables to tables; the class `AccountStore` runs the same transaction
    statement by statement and is proved to compute that function. */
module AccountPool {
  import opened Common
  import opened PremiumNumbers

  type UserId = int
  type Token = string

  const DRAW_SIZE := 10
  const MAX_REFRESHES := 3
  const RESERVATION_TTL := 600
  const SELECTION_TTL := 600
  const FREE_COUNT_THRESHOLD := 200
  const BATCH_SIZE := 500

  datatype Segment = Segment(start: int, end: int, open: bool)
  datatype PoolRow = PoolRow(segment: nat, locked: bool, reservedUntil: Option<Time>, claimedBy: Option<UserId>)
  datatype Selection = Selection(ip: string, refreshesUsed: nat, numbers: seq<int>, expiresAt: Time)

  datatype Tables = Tables(
    segments: map<nat, Segment>,
    pool: map<int, PoolRow>,
    selections: map<Token, Selection>,
    users: map<UserId, int>)

  datatype Outcome = Done
    | SelectionInvalid | RefreshesUsedUp | NoStock | TokenClash
    | NumberTaken | NotInSelection | AlreadyClaimed
    | BadRequest | NoSuchUser | AlreadyOwned | NotLocked | PremiumClaimed

  // ---- drawing --------------------------------------------------------------------------

  predicate Free(row: PoolRow, now: Time) {
    !row.locked && row.claimedBy.None? && (row.reservedUntil.None? || row.reservedUntil.value < now)
  }

  predicate OpenAndFree(t: Tables, now: Time, n: int) {
    n in t.pool && Free(t.pool[n], now) && t.pool[n].segment in t.segments && t.segments[t.pool[n].segment].open
  }

  /** n may be drawn: it is free, not excluded, and lies in the lowest open segment with stock. */
  predicate Candidate(t: Tables, now: Time, exclude: set<int>, n: int) {
    OpenAndFree(t, now, n) && n !in exclude &&
    forall m :: m in t.pool && OpenAndFree(t, now, m) ==> t.pool[n].segment <= t.pool[m].segment
  }

  /** A possible answer of the random draw: at most `limit` different candidates. */
  ghost predicate IsDraw(t: Tables, now: Time, limit: nat, exclude: set<int>, picks: seq<int>) {
    |picks| <= limit && Distinct(picks) && forall n :: n in picks ==> Candidate(t, now, exclude, n)
  }

  /** All the numbers a draw could pick. */
  function Candidates(t: Tables, now: Time, exclude: set<int>): set<int> {
    set n | n in t.pool && Candidate(t, now, exclude, n)
  }

  function Least(a: nat, b: nat): nat {
    if a <= b then a else b
  }

  /** The draw when other transactions hold the rows in `skipped`: it takes as many of the other
      candidates as there are, up to the limit. */
  ghost predicate IsDrawPast(t: Tables, now: Time, limit: nat, exclude: set<int>, skipped: set<int>, picks: seq<int>) {
    IsDraw(t, now, limit, exclude, picks) && (forall n :: n in picks ==> n !in skipped) &&
    |picks| == Least(limit, |Candidates(t, now, exclude) - skipped|)
  }

  function SetReserved(pool: map<int, PoolRow>, numbers: seq<int>, until: Option<Time>): map<int, PoolRow> {
    map n | n in pool :: if n in numbers then pool[n].(reservedUntil := until) else pool[n]
  }

  function Draw(t: Tables, now: Time, ip: string, token: Token, picks: seq<int>): Tables {
    if picks == [] || token in t.selections then t else
      t.(pool := SetReserved(t.pool, picks, Some(now + RESERVATION_TTL)),
         selections := t.selections[token := Selection(ip, 0, picks, now + SELECTION_TTL)])
  }

  predicate Usable(t: Tables, now: Time, ip: string, token: Token) {
    token in t.selections && now <= t.selections[token].expiresAt && t.selections[token].ip == ip
  }

  /** The tables in the middle of a refresh: the old batch is back in the pool. */
  function Returned(t: Tables, token: Token): Tables
    requires token in t.selections
  {
    t.(pool := SetReserved(t.pool, t.selections[token].numbers, None))
  }

  function Listed(t: Tables, token: Token): set<int>
    requires token in t.selections
  {
    set n | n in t.selections[token].numbers
  }

  predicate MayRefresh(t: Tables, now: Time, ip: string, token: Token) {
    Usable(t, now, ip, token) && t.selections[token].refreshesUsed < MAX_REFRESHES
  }

  function Refresh(t: Tables, now: Time, ip: string, token: Token, picks: seq<int>): Tables {
    if !MayRefresh(t, now, ip, token) || picks == [] then t else
      var sel := t.selections[token];
      t.(pool := SetReserved(Returned(t, token).pool, picks, Some(now + RESERVATION_TTL)),
         selections := t.selections[token := sel.(numbers := picks, refreshesUsed := sel.refreshesUsed + 1,
                                                  expiresAt := now + SELECTION_TTL)])
  }

  predicate Owns(t: Tables, user: UserId, number: int) {
    user in t.users && t.users[user] == number
  }

  /** users.account_no is UNIQUE. */
  ghost predicate UniqueNumbers(users: map<UserId, int>) {
    forall u, v :: u in users && v in users && users[u] == users[v] ==> u == v
  }

  predicate InUse(t: Tables, number: int) {
    exists u :: u in t.users && Owns(t, u, number)
  }

  // ---- registering ----------------------------------------------------------------------

  function RegisterOutcome(t: Tables, now: Time, ip: string, token: Token, chosen: int): Outcome {
    if InUse(t, chosen) then NumberTaken
    else if !Usable(t, now, ip, token) then SelectionInvalid
    else if chosen !in t.selections[token].numbers then NotInSelection
    else if chosen !in t.pool || t.pool[chosen].claimedBy.Some? then AlreadyClaimed
    else Done
  }

  function Register(t: Tables, now: Time, ip: string, token: Token, chosen: int, user: UserId): Tables {
    if RegisterOutcome(t, now, ip, token, chosen) != Done then t else
      t.(users := t.users[user := chosen],
         pool := SetReserved(t.pool, t.selections[token].numbers, None)
                   [chosen := t.pool[chosen].(claimedBy := Some(user), reservedUntil := None)],
         selections := t.selections - {token})
  }

  // ---- premium numbers ------------------------------------------------------------------

  function GrantOutcome(t: Tables, premium: int, recipient: int): Outcome {
    if premium <= 0 || recipient <= 0 then BadRequest
    else if !InUse(t, recipient) then NoSuchUser
    else if recipient == premium then AlreadyOwned
    else if premium !in t.pool || !t.pool[premium].locked then NotLocked
    else if t.pool[premium].claimedBy.Some? then PremiumClaimed
    else if InUse(t, premium) then NumberTaken
    else Done
  }

  function Grant(t: Tables, premium: int, user: UserId): Tables
    requires user in t.users
  {
    var recipient := t.users[user];
    if GrantOutcome(t, premium, recipient) != Done then t else
      var claimed := t.pool[premium := t.pool[premium].(claimedBy := Some(user), locked := false, reservedUntil := None)];
      t.(pool := if recipient in claimed
                 then claimed[recipient := claimed[recipient].(claimedBy := None, reservedUntil := None)]
                 else claimed,
         users := t.users[user := premium])
  }

  predicate Releasable(t: Tables, number: int) {
    number > 0 && number in t.pool && t.pool[number].locked && t.pool[number].claimedBy.None?
  }

  function Release(t: Tables, number: int): Tables {
    if !Releasable(t, number) then t
    else t.(pool := t.pool[number := t.pool[number].(locked := false)])
  }

  // ---- the hourly sweep (its statements commit one by one) --------------------------------

  /** Deleting users nulls their claim: claimed_user_id is ON DELETE SET NULL. */
  function PurgeUsers(t: Tables, doomed: set<UserId>): Tables {
    t.(users := t.users - doomed,
       pool := map n | n in t.pool ::
         if t.pool[n].claimedBy.Some? && t.pool[n].claimedBy.value in doomed
         then t.pool[n].(claimedBy := None) else t.pool[n])
  }

  predicate Expired(sel: Selection, now: Time) {
    sel.expiresAt < now
  }

  /** n is listed in a selection that the sweep is about to delete. */
  predicate ListedInExpired(t: Tables, now: Time, n: int) {
    exists k :: k in t.selections && Expired(t.selections[k], now) && n in t.selections[k].numbers
  }

  function GcSelections(t: Tables, now: Time): Tables {
    t.(selections := map k | k in t.selections && !Expired(t.selections[k], now) :: t.selections[k],
       pool := map n | n in t.pool ::
         if t.pool[n].claimedBy.None? && ListedInExpired(t, now, n)
         then t.pool[n].(reservedUntil := None) else t.pool[n])
  }

  function ClearStale(t: Tables, now: Time): Tables {
    t.(pool := map n | n in t.pool ::
         if t.pool[n].claimedBy.None? && t.pool[n].reservedUntil.Some? && t.pool[n].reservedUntil.value < now
         then t.pool[n].(reservedUntil := None) else t.pool[n])
  }

  // ---- segments -------------------------------------------------------------------------

  function NewRow(k: nat, n: int): PoolRow {
    PoolRow(k, LockedPattern(n) || TriggerLocks(n), None, None)
  }

  predicate Missing(t: Tables, lo: int, hi: int, n: int) {
    lo <= n <= hi && n !in t.pool && !InUse(t, n)
  }

  function Populate(t: Tables, k: nat, lo: int, hi: int): Tables {
    t.(pool := t.pool + map n | lo <= n <= hi && Missing(t, lo, hi, n) :: NewRow(k, n))
  }

  function FreeNumbers(t: Tables, now: Time): set<int> {
    set n | n in t.pool && OpenAndFree(t, now, n)
  }

  ghost predicate IsMaxKey(keys: set<nat>, top: nat) {
    (forall k :: k in keys ==> k <= top) && (top in keys || (keys == {} && top == 0))
  }

  lemma {:induction false} MaxKeyExists(keys: set<nat>)
    ensures exists top: nat :: IsMaxKey(keys, top)
  {
    if keys == {} {
      assert IsMaxKey(keys, 0);
    } else {
      var k :| k in keys;
      MaxKeyExists(keys - {k});
      var rest: nat :| IsMaxKey(keys - {k}, rest);
      assert forall x :: x in keys ==> x == k || x in keys - {k};
      assert IsMaxKey(keys, if rest > k then rest else k);
    }
  }

  ghost function MaxKey(keys: set<nat>): (top: nat)
    ensures IsMaxKey(keys, top)
  {
    MaxKeyExists(keys);
    var top: nat :| IsMaxKey(keys, top);
    top
  }

  function WithSegment(t: Tables, k: nat): Tables {
    if k in t.segments then t
    else t.(segments := t.segments[k := Segment(SegmentStart(k), SegmentEnd(k), true)])
  }

  /** Segment k is opened (if new) and filled. */
  function OpenSegmentNo(t: Tables, k: nat): Tables {
    Populate(WithSegment(t, k), k, SegmentStart(k), SegmentEnd(k))
  }

  /** `top` is the highest segment number so far, 0 if there is none. */
  function EnsureCapacity(t: Tables, now: Time, top: nat): Tables {
    if |FreeNumbers(t, now)| >= FREE_COUNT_THRESHOLD then t else OpenSegmentNo(t, top + 1)
  }
}
