/** Exactly which events make and end friendships, requests, rejections and blocks. */
module FriendshipChanges {
  import opened Common
  import opened Friendship

  predicate Between(e: Event, a: UserId, b: UserId) {
    (e.a, e.b) == (a, b) || (e.a, e.b) == (b, a)
  }

  /** Taking somebody off the list or blocking them. */
  predicate Parts(e: Event, a: UserId, b: UserId) {
    (e.Removes? || e.Blocks?) && Between(e, a, b)
  }

  /** A rejection of the sender that is less than seven days old. */
  predicate TooSoon(t: Table, e: Event) {
    (e.a, e.b) in t && t[(e.a, e.b)].status == Rejected && e.now - t[(e.a, e.b)].createdAt < 7 * 24 * 60 * 60
  }

  /** One side accepts the other's pending request, or asks while that request is pending. */
  predicate Befriends(t: Table, e: Event, a: UserId, b: UserId) {
    Between(e, a, b) && Has(t, e.b, e.a, Pending) && (e.Accepts? || (e.Sends? && !TooSoon(t, e)))
  }

  /** a asks b when neither has a row in the way. */
  predicate Asks(t: Table, e: Event, a: UserId, b: UserId) {
    e.Sends? && (e.a, e.b) == (a, b) && a != b && !TooSoon(t, e) &&
    ((a, b) !in t || Has(t, a, b, Rejected)) && ((b, a) !in t || Has(t, b, a, Rejected))
  }

  /** b rejects a's request. */
  predicate TurnsDown(t: Table, e: Event, a: UserId, b: UserId) {
    e.RejectsOrCancels? && (e.a, e.b) == (b, a) && Has(t, a, b, Pending)
  }

  lemma ElsewhereUnchanged(t: Table, e: Event, a: UserId, b: UserId)
    requires WellShaped(t) && (!Between(e, a, b) || a == b)
    ensures StatusOf(Apply(t, e), a, b) == StatusOf(t, a, b)
    ensures (a, b) in t ==> Apply(t, e)[(a, b)] == t[(a, b)]
  {
    TouchesOnlyPair(t, e);
    if a == b {
      assert (a, a) !in t;
    }
  }

  /** A pair is friends after an event exactly if the event befriended them, or they were and it did
      not part them. */
  lemma FriendsExactly(t: Table, e: Event, a: UserId, b: UserId)
    requires WellShaped(t)
    ensures Has(Apply(t, e), a, b, Accepted) <==> Befriends(t, e, a, b) || (Has(t, a, b, Accepted) && !Parts(e, a, b))
  {
    if !Between(e, a, b) || a == b {
      ElsewhereUnchanged(t, e, a, b);
      assert (a, a) !in t;
    } else {
      assert Shape(t, a, b);
    }
  }

  /** A request is pending after an event exactly if the event was it, or it was and was neither
      answered, withdrawn, nor cleared away. */
  lemma PendingExactly(t: Table, e: Event, a: UserId, b: UserId)
    requires WellShaped(t)
    ensures Has(Apply(t, e), a, b, Pending) <==>
      Asks(t, e, a, b) ||
      (Has(t, a, b, Pending) && !Befriends(t, e, a, b) && !Parts(e, a, b) && !(e.RejectsOrCancels? && Between(e, a, b)))
  {
    if !Between(e, a, b) || a == b {
      ElsewhereUnchanged(t, e, a, b);
      assert (a, a) !in t;
    } else {
      assert Shape(t, a, b);
    }
  }

  /** A rejection of a by b, dated `since`, stands after an event exactly if the event was it, or it
      stood and a did not ask again in time, nor did the two become friends or part. */
  lemma RejectedExactly(t: Table, e: Event, a: UserId, b: UserId, since: Time)
    requires WellShaped(t)
    ensures (a, b) in Apply(t, e) && Apply(t, e)[(a, b)] == Row(Rejected, since) <==>
      (TurnsDown(t, e, a, b) && since == e.now) ||
      ((a, b) in t && t[(a, b)] == Row(Rejected, since) &&
       !Asks(t, e, a, b) && !Befriends(t, e, a, b) && !Parts(e, a, b))
  {
    if !Between(e, a, b) || a == b {
      ElsewhereUnchanged(t, e, a, b);
      assert (a, a) !in t;
    } else {
      assert Shape(t, a, b);
    }
  }

  /** a blocks b after an event exactly if the event was the block, or it was one and did not end it. */
  lemma BlockedExactly(t: Table, e: Event, a: UserId, b: UserId)
    requires WellShaped(t)
    ensures Has(Apply(t, e), a, b, Blocked) <==>
      (e.Blocks? && (e.a, e.b) == (a, b) && a != b) || (Has(t, a, b, Blocked) && !EndsBlock(e, a, b))
  {
    if !Between(e, a, b) || a == b {
      ElsewhereUnchanged(t, e, a, b);
      assert (a, a) !in t;
    } else {
      assert Shape(t, a, b);
    }
  }

  /** A row keeps its date until the request it is starts anew or is rejected. */
  lemma DatesExactly(t: Table, e: Event, a: UserId, b: UserId)
    requires WellShaped(t) && (a, b) in Apply(t, e)
    ensures Apply(t, e)[(a, b)].createdAt ==
      if (a, b) !in t || Asks(t, e, a, b) || TurnsDown(t, e, a, b) ||
         (e.Sends? && (e.a, e.b) == (a, b) && Has(t, a, b, Rejected) && Befriends(t, e, a, b))
      then e.now else t[(a, b)].createdAt
  {
    if !Between(e, a, b) || a == b {
      ElsewhereUnchanged(t, e, a, b);
      assert (a, a) !in t;
      TouchesOnlyPair(t, e);
    } else {
      assert Shape(t, a, b);
    }
  }

  /** The answer to a request is Ok exactly when it changed something. */
  lemma SentIffChanged(t: Table, a: UserId, b: UserId, now: Time)
    requires WellShaped(t)
    ensures SendOutcome(t, a, b, now) == Ok <==> Send(t, a, b, now) != t
  {
    if a != b {
      assert Shape(t, a, b);
      if SendOutcome(t, a, b, now) == Ok {
        assert StatusOf(Send(t, a, b, now), a, b) != StatusOf(t, a, b);
      }
    }
  }

  // ---- over runs ------------------------------------------------------------------------------

  lemma {:induction false} AfterLast(t: Table, run: seq<Event>)
    requires run != []
    ensures After(t, run) == Apply(After(t, run[..|run| - 1]), run[|run| - 1])
    decreases |run|
  {
    if |run| == 1 {
      assert run[1..] == [] && run[..0] == [];
    } else {
      AfterLast(Apply(t, run[0]), run[1..]);
      assert run[1..][..|run| - 2] == run[..|run| - 1][1..];
    }
  }

  ghost predicate NotParted(run: seq<Event>, i: nat, a: UserId, b: UserId) {
    forall j :: i < j < |run| ==> !Parts(run[j], a, b)
  }

  /** Event i made friends of the two and no later one parted them. */
  ghost predicate FriendsSince(run: seq<Event>, i: nat, a: UserId, b: UserId) {
    i < |run| && Befriends(After(map[], run[..i]), run[i], a, b) && NotParted(run, i, a, b)
  }

  lemma NotPartedLonger(run: seq<Event>, e: Event, i: nat, a: UserId, b: UserId)
    requires i < |run|
    ensures NotParted(run + [e], i, a, b) <==> NotParted(run, i, a, b) && !Parts(e, a, b)
  {
    var longer := run + [e];
    assert longer[|run|] == e;
    assert forall j :: 0 <= j < |run| ==> longer[j] == run[j];
  }

  lemma FriendsSinceLonger(run: seq<Event>, e: Event, i: nat, a: UserId, b: UserId)
    requires i < |run|
    ensures FriendsSince(run + [e], i, a, b) <==> FriendsSince(run, i, a, b) && !Parts(e, a, b)
  {
    assert (run + [e])[..i] == run[..i];
    NotPartedLonger(run, e, i, a, b);
  }

  lemma FriendsSinceNow(run: seq<Event>, e: Event, a: UserId, b: UserId)
    ensures FriendsSince(run + [e], |run|, a, b) <==> Befriends(After(map[], run), e, a, b)
  {
    assert (run + [e])[..|run|] == run;
  }

  /** After any run from the empty table two users are friends exactly if some event made them
      friends, by an accept or a request that met the other's pending one, and none parted them since. */
  lemma {:induction false} FriendsAfterRun(run: seq<Event>, a: UserId, b: UserId)
    ensures Has(After(map[], run), a, b, Accepted) <==> exists i: nat :: FriendsSince(run, i, a, b)
    decreases |run|
  {
    if run != [] {
      var front, e := run[..|run| - 1], run[|run| - 1];
      assert run == front + [e];
      var t := After(map[], front);
      AfterLast(map[], run);
      AlwaysWellShaped(map[], front);
      FriendsAfterRun(front, a, b);
      FriendsExactly(t, e, a, b);
      FriendsSinceNow(front, e, a, b);
      if i: nat :| FriendsSince(front, i, a, b) {
        FriendsSinceLonger(front, e, i, a, b);
      }
      if i: nat :| FriendsSince(run, i, a, b) && i < |front| {
        FriendsSinceLonger(front, e, i, a, b);
      }
    }
  }
}
