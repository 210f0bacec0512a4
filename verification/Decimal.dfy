/** Decimal printing and parsing of account numbers: `formatInt` and `parsePositiveInt`
    of account_no_handler.go, on 64-bit integers. */
module Decimal {

  newtype int64 = x: int | -0x8000_0000_0000_0000 <= x < 0x8000_0000_0000_0000

  const MIN_INT64: int64 := -0x8000_0000_0000_0000

  /** The largest value `parsePositiveInt` accepts: 1 << 53. */
  const PARSE_LIMIT := 0x20_0000_0000_0000

  predicate IsDigit(c: char) {
    '0' <= c <= '9'
  }

  predicate AllDigits(s: string) {
    forall i :: 0 <= i < |s| ==> IsDigit(s[i])
  }

  function DigitOf(c: char): (d: nat)
    requires IsDigit(c)
    ensures d < 10
  {
    (c as int) - ('0' as int)
  }

  function DigitChar(d: nat): (c: char)
    requires d < 10
    ensures IsDigit(c) && DigitOf(c) == d
  {
    ('0' as int + d) as char
  }

  /** The decimal digits of n without leading zeros; zero has none. */
  function Digits(n: nat): string {
    if n == 0 then "" else Digits(n / 10) + [DigitChar(n % 10)]
  }

  /** The usual decimal numeral of an integer (what strconv.FormatInt(n, 10) gives). */
  function Numeral(n: int): string {
    if n == 0 then "0" else if n > 0 then Digits(n) else "-" + Digits(-n)
  }

  /** The number a string of digits denotes, leading zeros allowed. */
  function Value(s: string): nat
    requires AllDigits(s)
  {
    if s == "" then 0 else 10 * Value(s[..|s| - 1]) + DigitOf(s[|s| - 1])
  }

  datatype ParseResult = Number(n: int64) | Empty | NonDigit | Overflow

  ghost predicate OverflowsAt(s: string, i: nat) {
    i <= |s| && AllDigits(s[..i]) && Value(s[..i]) > PARSE_LIMIT
  }

  /** What parsePositiveInt answers, said without its loop. */
  ghost function Parsed(s: string): ParseResult {
    if s == "" then Empty
    else if exists i: nat :: OverflowsAt(s, i) then Overflow
    else if !AllDigits(s) then NonDigit
    else
      assert s[..|s|] == s;
      assert !OverflowsAt(s, |s|);
      Number(Value(s) as int64)
  }

  function StripZeros(s: string): string {
    if |s| > 1 && s[0] == '0' then StripZeros(s[1..]) else s
  }

  method ParsePositiveInt(s: string) returns (r: ParseResult)
    ensures r == Parsed(s)
  {
    if s == "" {
      return Empty;
    }
    var n: int64 := 0;
    for i := 0 to |s|
      invariant AllDigits(s[..i])
      invariant n as int == Value(s[..i])
      invariant 0 <= n as int <= PARSE_LIMIT
      invariant forall j: nat :: j <= i ==> !OverflowsAt(s, j)
    {
      if s[i] < '0' || s[i] > '9' {
        NoLaterOverflow(s, i);
        return NonDigit;
      }
      assert s[..i + 1][..i] == s[..i];
      n := n * 10 + DigitOf(s[i]) as int64;
      if n as int > PARSE_LIMIT {
        assert OverflowsAt(s, i + 1);
        return Overflow;
      }
    }
    assert s[..|s|] == s;
    assert forall j: nat :: OverflowsAt(s, j) ==> j <= |s|;
    return Number(n);
  }

  lemma NoLaterOverflow(s: string, i: nat)
    requires i < |s| && !IsDigit(s[i])
    requires forall j: nat :: j <= i ==> !OverflowsAt(s, j)
    ensures !exists j: nat :: OverflowsAt(s, j)
  {
    forall j: nat ensures !OverflowsAt(s, j) {
      if i < j <= |s| {
        assert s[..j][i] == s[i];
      }
    }
  }

  /** The numeral of `start` is the digits of what is left, which fit before i, and then the tail. */
  ghost predicate WrittenFrom(start: nat, left: int, i: nat, tail: string) {
    left >= 0 && Digits(start) == Digits(left) + tail && |Digits(left)| < i
  }

  lemma OneMoreDigit(start: nat, m: int64, i: nat, tail: string)
    requires m > 0 && WrittenFrom(start, m as int, i, tail)
    ensures 0 <= m % 10 < 10 && 0 <= m / 10 < m && i > 1
    ensures WrittenFrom(start, (m / 10) as int, i - 1, [DigitChar((m % 10) as int)] + tail)
  {
    var rest, c := Digits(m as int / 10), DigitChar(m as int % 10);
    assert (m / 10) as int == m as int / 10 && (m % 10) as int == m as int % 10;
    assert Digits(m as int) == rest + [c];
    assert rest + [c] + tail == rest + ([c] + tail);
  }

  lemma NothingWritten(start: nat)
    requires start <= 0x7FFF_FFFF_FFFF_FFFF
    ensures WrittenFrom(start, start, 20, "")
  {
    Pow10Of19();
    DigitsLength(start, 19);
    assert Digits(start) + "" == Digits(start);
  }

  method FormatInt(n: int64) returns (s: string)
    ensures s == if n == MIN_INT64 then "-" else Numeral(n as int)
  {
    if n == 0 {
      return "0";
    }
    var buf := new char[20];
    var i := 20;
    var neg := false;
    var m := n;
    if m < 0 {
      neg := true;
      m := if m == MIN_INT64 then m else -m; // two's complement: negating the least value gives it back
    }
    ghost var start: nat := if m > 0 then m as int else 0;
    NothingWritten(start);
    assert buf[20..] == "";
    while m > 0
      invariant 0 <= i <= 20
      invariant if m < 0 then i == 20 && n == MIN_INT64 else WrittenFrom(start, m as int, i, buf[i..])
      decreases if m > 0 then m as int else 0
    {
      OneMoreDigit(start, m, i, buf[i..]);
      ghost var tail := buf[i..];
      i := i - 1;
      buf[i] := DigitChar((m % 10) as int);
      assert buf[i..] == [DigitChar((m % 10) as int)] + tail;
      m := m / 10;
    }
    if neg {
      ghost var tail := buf[i..];
      i := i - 1;
      buf[i] := '-';
      assert buf[i..] == ['-'] + tail;
    }
    s := buf[i..];
  }

  function Pow10(k: nat): nat {
    if k == 0 then 1 else 10 * Pow10(k - 1)
  }

  lemma Pow10Of19()
    ensures Pow10(19) == 10_000_000_000_000_000_000
  {
    assert Pow10(5) == 100_000;
    assert Pow10(10) == 10_000_000_000;
    assert Pow10(15) == 1_000_000_000_000_000;
  }

  lemma {:induction false} DigitsLength(n: nat, k: nat)
    requires n < Pow10(k)
    ensures |Digits(n)| <= k
  {
    if n > 0 {
      DigitsLength(n / 10, k - 1);
    }
  }

  lemma {:induction false} DigitsValue(n: nat)
    ensures AllDigits(Digits(n)) && Value(Digits(n)) == n
    ensures n > 0 ==> Digits(n) != "" && Digits(n)[0] != '0'
  {
    if n > 0 {
      DigitsValue(n / 10);
      assert Digits(n)[..|Digits(n)| - 1] == Digits(n / 10);
    }
  }

  lemma {:induction false} ValuePrefix(s: string, i: nat)
    requires AllDigits(s) && i <= |s|
    ensures Value(s[..i]) <= Value(s)
  {
    if i < |s| {
      assert s[..|s| - 1][..i] == s[..i];
      ValuePrefix(s[..|s| - 1], i);
    } else {
      assert s[..i] == s;
    }
  }

  /** Printing then parsing gives the number back, for every number the parser can accept. */
  lemma ParseOfFormat(n: nat)
    requires n <= PARSE_LIMIT
    ensures Parsed(Numeral(n)) == Number(n as int64)
  {
    var s := Numeral(n);
    DigitsValue(n);
    if n == 0 {
      assert s[..0] == "";
    }
    assert AllDigits(s) && Value(s) == n;
    forall i: nat ensures !OverflowsAt(s, i) {
      if i <= |s| {
        ValuePrefix(s, i);
      }
    }
  }

  /** Prefixing zeros does not change the value; digits without a leading zero are canonical. */
  lemma {:induction false} DigitsOfValue(s: string)
    requires AllDigits(s) && s != "" && s[0] != '0'
    ensures Value(s) > 0 && Digits(Value(s)) == s
  {
    var t := s[..|s| - 1];
    if t == "" {
      assert Value(s) == DigitOf(s[0]);
      assert Digits(Value(s)) == Digits(0) + [s[0]];
    } else {
      DigitsOfValue(t);
      assert Value(s) / 10 == Value(t);
    }
    assert s == t + [s[|s| - 1]];
  }

  lemma {:induction false} ValueOfZeroPrefix(s: string)
    requires AllDigits(s) && |s| > 1 && s[0] == '0'
    ensures Value(s) == Value(s[1..])
  {
    var t := s[..|s| - 1];
    assert s[1..][..|s[1..]| - 1] == t[1..];
    if |s| == 2 {
      assert Value(t) == DigitOf(s[0]) == 0;
    } else {
      ValueOfZeroPrefix(t);
    }
  }

  lemma {:induction false} NumeralOfValue(s: string)
    requires AllDigits(s) && s != ""
    ensures Numeral(Value(s)) == StripZeros(s)
  {
    if |s| > 1 && s[0] == '0' {
      ValueOfZeroPrefix(s);
      NumeralOfValue(s[1..]);
    } else if s[0] == '0' {
      assert s == "0";
    } else {
      DigitsOfValue(s);
    }
  }

  /** Parsing then printing any accepted string gives it back without its leading zeros. */
  lemma FormatOfParse(s: string)
    requires Parsed(s).Number?
    ensures Parsed(s).n >= 0 && Numeral(Parsed(s).n as int) == StripZeros(s)
  {
    NumeralOfValue(s);
  }

  /** Two integers with the same numeral are equal. */
  lemma NumeralInjective(a: int, b: int)
    requires Numeral(a) == Numeral(b)
    ensures a == b
  {
    DigitsValue(if a < 0 then -a else a);
    DigitsValue(if b < 0 then -b else b);
    if a < 0 && b < 0 {
      assert Numeral(a)[1..] == Digits(-a) && Numeral(b)[1..] == Digits(-b);
    }
  }
}
