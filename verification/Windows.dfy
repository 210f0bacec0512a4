/** Counting the members of a sequence of times that fall in a window. */
module Windows {
  import opened Common

  ghost predicate NonDecreasing(times: seq<Time>) {
    forall i, j :: 0 <= i <= j < |times| ==> times[i] <= times[j]
  }

  /** How many of the times lie in [from, from + width). */
  function InWindow(times: seq<Time>, from: Time, width: int): nat {
    if times == [] then 0 else
      (if from <= times[0] < from + width then 1 else 0) + InWindow(times[1..], from, width)
  }

  /** Any n + 1 consecutive times span at least `width`. */
  ghost predicate Spread(times: seq<Time>, n: nat, width: int) {
    forall i :: 0 <= i < |times| - n ==> times[i + n] >= times[i] + width
  }

  lemma {:induction false} NoneBefore(times: seq<Time>, from: Time, width: int)
    requires NonDecreasing(times) && times != [] && times[0] >= from + width
    ensures InWindow(times, from, width) == 0
  {
    if |times| > 1 {
      NoneBefore(times[1..], from, width);
    }
  }

  lemma {:induction false} AtMostLength(times: seq<Time>, from: Time, width: int)
    ensures InWindow(times, from, width) <= |times|
  {
    if times != [] {
      AtMostLength(times[1..], from, width);
    }
  }

  lemma {:induction false} Split(times: seq<Time>, k: nat, from: Time, width: int)
    requires k <= |times|
    ensures InWindow(times, from, width) == InWindow(times[..k], from, width) + InWindow(times[k..], from, width)
  {
    if k > 0 {
      Split(times[1..], k - 1, from, width);
      assert times[..k][1..] == times[1..][..k - 1] && times[1..][k - 1..] == times[k..];
    } else {
      assert times[..0] == [] && times[0..] == times;
    }
  }

  /** Spread-out times put at most n of themselves in any window of that width. */
  lemma {:induction false} SpreadBound(times: seq<Time>, n: nat, from: Time, width: int)
    requires NonDecreasing(times) && Spread(times, n, width) && n >= 1
    ensures InWindow(times, from, width) <= n
  {
    if times == [] {
    } else if times[0] < from {
      forall i | 0 <= i < |times[1..]| - n ensures times[1..][i + n] >= times[1..][i] + width {
        assert times[1 + i + n] >= times[1 + i] + width;
      }
      SpreadBound(times[1..], n, from, width);
    } else {
      var k := if |times| < n then |times| else n;
      Split(times, k, from, width);
      AtMostLength(times[..k], from, width);
      if k < |times| {
        assert times[0 + n] >= times[0] + width;
        NoneBefore(times[k..], from, width);
      }
    }
  }
}
