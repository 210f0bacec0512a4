/** Which account numbers are premium (account_no.go: isLockedPattern, hasSameTail), and the
    arithmetic of the 10,000-number segments they are counted by. */
module PremiumNumbers {
  import opened Decimal

  const SEGMENT_SIZE := 10_000
  const FIRST_NUMBER := 100_000

  /** The last n characters of s exist and are all the same. */
  predicate SameTail(s: string, n: nat)
    requires 0 < n
  {
    n <= |s| && forall i :: |s| - n <= i < |s| ==> s[i] == s[|s| - 1]
  }

  /** The premium rule in arithmetic: four equal last digits on a numeral of six characters or
      more. The sign counts as a character, so five digits are enough below zero. */
  predicate LockedPattern(n: int) {
    var m := if n < 0 then -n else n;
    (if n < 0 then m >= 10_000 else m >= 100_000) && (m % 10_000) % 1111 == 0
  }

  method HasSameTail(s: string, n: nat) returns (same: bool)
    requires 0 < n
    ensures same == SameTail(s, n)
  {
    if |s| < n {
      return false;
    }
    var last := s[|s| - 1];
    for i := |s| - n to |s| - 1
      invariant forall j :: |s| - n <= j < i ==> s[j] == last
    {
      if s[i] != last {
        return false;
      }
    }
    return true;
  }

  method IsLockedPattern(n: int) returns (locked: bool)
    ensures locked == LockedPattern(n)
  {
    var s := Numeral(n);
    NumeralLength(n);
    if |s| < 6 {
      return false;
    }
    NumeralTail(n);
    locked := HasSameTail(s, 4);
  }

  lemma {:induction false} DigitsAtLeast(n: nat, k: nat)
    requires n >= Pow10(k)
    ensures |Digits(n)| > k
  {
    if k > 0 {
      DigitsAtLeast(n / 10, k - 1);
    }
  }

  lemma NumeralLength(n: int)
    ensures |Numeral(n)| >= 6 <==> if n < 0 then n <= -10_000 else n >= 100_000
  {
    assert Pow10(4) == 10_000;
    assert Pow10(5) == 100_000;
    var m := if n < 0 then -n else n;
    var k := if n < 0 then 4 else 5;
    if m >= Pow10(k) {
      DigitsAtLeast(m, k);
    } else {
      DigitsLength(m, k);
    }
  }

  /** A number of four digits or more, split into its last four digits and the rest. */
  lemma LastFourDigits(n: nat) returns (a: nat, b: nat, c: nat, d: nat)
    requires n >= 1000
    ensures a < 10 && b < 10 && c < 10 && d < 10
    ensures n % 10_000 == 1000 * a + 100 * b + 10 * c + d
    ensures |Digits(n)| >= 4
    ensures Digits(n)[|Digits(n)| - 4..] == [DigitChar(a), DigitChar(b), DigitChar(c), DigitChar(d)]
  {
    var n1 := n / 10;
    var n2 := n1 / 10;
    var n3 := n2 / 10;
    a, b, c, d := n3 % 10, n2 % 10, n1 % 10, n % 10;
    Remainder(n, n3 / 10, 1000 * a + 100 * b + 10 * c + d);
    assert Digits(n) == Digits(n1) + [DigitChar(d)];
    assert Digits(n1) == Digits(n2) + [DigitChar(c)];
    assert Digits(n2) == Digits(n3) + [DigitChar(b)];
    assert Digits(n3) == Digits(n3 / 10) + [DigitChar(a)];
  }

  lemma Remainder(n: nat, q: nat, r: nat)
    requires n == 10_000 * q + r && r < 10_000
    ensures n % 10_000 == r
  {
  }

  lemma DecimalDigitsUnique(a: nat, b: nat, c: nat, d: nat, q: nat)
    requires a < 10 && b < 10 && c < 10 && d < 10 && q < 10
    requires 1000 * a + 100 * b + 10 * c + d == 1000 * q + 100 * q + 10 * q + q
    ensures a == b == c == d == q
  {
    assert a == q;
    assert b == q;
    assert c == q;
  }

  lemma FourEqualDigits(a: nat, b: nat, c: nat, d: nat)
    requires a < 10 && b < 10 && c < 10 && d < 10
    ensures (1000 * a + 100 * b + 10 * c + d) % 1111 == 0 <==> a == b == c == d
  {
    var m := 1000 * a + 100 * b + 10 * c + d;
    if a == b == c == d {
      assert m == 1111 * a;
    } else if m % 1111 == 0 {
      var q := m / 1111;
      assert m == 1000 * q + 100 * q + 10 * q + q && q < 10;
      DecimalDigitsUnique(a, b, c, d, q);
    }
  }

  lemma NumeralTail(n: int)
    requires n <= -1000 || n >= 1000
    ensures var m := if n < 0 then -n else n;
      SameTail(Numeral(n), 4) <==> (m % 10_000) % 1111 == 0
  {
    var m := if n < 0 then -n else n;
    var s := Numeral(n);
    var a, b, c, d := LastFourDigits(m);
    FourEqualDigits(a, b, c, d);
    assert s[|s| - 4..] == Digits(m)[|Digits(m)| - 4..];
    assert s[|s| - 4] == s[|s| - 4..][0] && s[|s| - 3] == s[|s| - 4..][1];
    assert s[|s| - 2] == s[|s| - 4..][2] && s[|s| - 1] == s[|s| - 4..][3];
  }

  // ---- segments ------------------------------------------------------------------------

  function SegmentStart(k: nat): int {
    FIRST_NUMBER + (k - 1) * SEGMENT_SIZE
  }

  function SegmentEnd(k: nat): int {
    SegmentStart(k) + 9999
  }

  function SegmentOf(n: int): int {
    (n - FIRST_NUMBER) / SEGMENT_SIZE + 1
  }

  /** Segments are contiguous and disjoint: every number from 100000 up is in exactly one. */
  lemma SegmentsPartition(n: int, k: nat)
    requires k >= 1
    ensures SegmentStart(k) <= n <= SegmentEnd(k) <==> k == SegmentOf(n)
    ensures SegmentStart(k + 1) == SegmentEnd(k) + 1
    ensures n >= FIRST_NUMBER <==> SegmentOf(n) >= 1
  {
  }

  function LockedIn(lo: int, hi: int): set<int> {
    set n | lo <= n <= hi && LockedPattern(n)
  }

  lemma LockedInSegment(k: nat, n: int)
    requires k >= 1 && SegmentStart(k) <= n <= SegmentEnd(k)
    ensures LockedPattern(n) <==> (n - SegmentStart(k)) % 1111 == 0
  {
    assert n % 10_000 == n - SegmentStart(k);
  }

  ghost predicate OnGrid(b: int, n: int) {
    (n - b) % 1111 == 0
  }

  /** The first k numbers b, b + 1111, b + 2222, ... */
  ghost function Repdigits(b: int, k: nat): (r: set<int>)
    ensures |r| == k
    ensures forall n :: n in r <==> b <= n < b + 1111 * k && OnGrid(b, n)
  {
    if k == 0 then {} else
      RepdigitStep(b, k);
      Repdigits(b, k - 1) + {b + 1111 * (k - 1)}
  }

  lemma RepdigitStep(b: int, k: nat)
    requires k > 0
    ensures forall n :: b + 1111 * (k - 1) <= n < b + 1111 * k ==>
      (OnGrid(b, n) <==> n == b + 1111 * (k - 1))
  {
    forall n | b + 1111 * (k - 1) <= n < b + 1111 * k
      ensures OnGrid(b, n) <==> n == b + 1111 * (k - 1)
    {
      var q := (n - b) / 1111;
      assert n - b == 1111 * q + (n - b) % 1111;
    }
  }

  /** After b + 9999 the grid pauses until b + 11110. */
  lemma NoneAfterTen(b: int, n: int)
    ensures b + 10_000 <= n < b + 11_110 ==> !OnGrid(b, n)
  {
    if b + 10_000 <= n < b + 11_110 {
      var q := (n - b) / 1111;
      assert n - b == 1111 * q + (n - b) % 1111;
    }
  }

  /** Every segment holds exactly ten premium numbers. */
  lemma TenLockedPerSegment(k: nat)
    requires k >= 1
    ensures |LockedIn(SegmentStart(k), SegmentEnd(k))| == 10
  {
    var b := SegmentStart(k);
    forall n ensures n in LockedIn(b, SegmentEnd(k)) <==> n in Repdigits(b, 10) {
      if b <= n <= SegmentEnd(k) {
        LockedInSegment(k, n);
      }
      NoneAfterTen(b, n);
    }
    assert LockedIn(b, SegmentEnd(k)) == Repdigits(b, 10);
  }

  /** The insert trigger of migration 23: four equal trailing digits on four characters or more. */
  predicate TriggerLocks(n: int) {
    SameTail(Numeral(n), 4)
  }

  /** On pool numbers the database trigger and the Go rule agree; only short numbers differ. */
  lemma TriggerMatchesRule(n: nat)
    requires n >= 1000
    ensures TriggerLocks(n) == LockedPattern(n) <==> (n >= FIRST_NUMBER || (n % 10_000) % 1111 != 0)
  {
    NumeralTail(n);
  }
}
