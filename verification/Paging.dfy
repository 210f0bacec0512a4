/** Cursor paging over a sequence that is strictly ascending in an integer key. */
module Paging {

  ghost predicate Ascending<T>(s: seq<T>, key: T -> int) {
    forall i, j :: 0 <= i < j < |s| ==> key(s[i]) < key(s[j])
  }

  ghost predicate Descending<T>(s: seq<T>, key: T -> int) {
    forall i, j :: 0 <= i < j < |s| ==> key(s[i]) > key(s[j])
  }

  function Above<T>(s: seq<T>, key: T -> int, a: int): seq<T> {
    if s == [] then [] else (if key(s[0]) > a then [s[0]] else []) + Above(s[1..], key, a)
  }

  function Below<T>(s: seq<T>, key: T -> int, b: int): seq<T> {
    if s == [] then [] else (if key(s[0]) < b then [s[0]] else []) + Below(s[1..], key, b)
  }

  function Reverse<T>(s: seq<T>): seq<T> {
    if s == [] then [] else Reverse(s[1..]) + [s[0]]
  }

  function Take<T>(s: seq<T>, n: nat): seq<T> {
    if |s| <= n then s else s[..n]
  }

  /** The last n elements. */
  function Last<T>(s: seq<T>, n: nat): seq<T> {
    if |s| <= n then s else s[|s| - n..]
  }

  lemma {:induction false} AllAbove<T>(s: seq<T>, key: T -> int, a: int)
    requires forall x :: x in s ==> key(x) > a
    ensures Above(s, key, a) == s
  {
    if s != [] {
      AllAbove(s[1..], key, a);
    }
  }

  lemma TailAscends<T>(s: seq<T>, key: T -> int)
    requires s != [] && Ascending(s, key)
    ensures Ascending(s[1..], key)
  {
    var t := s[1..];
    forall i, j | 0 <= i < j < |t| ensures key(t[i]) < key(t[j]) {
      assert t[i] == s[i + 1] && t[j] == s[j + 1];
    }
  }

  lemma SliceAscends<T>(s: seq<T>, key: T -> int, i: nat, j: nat)
    requires i <= j <= |s| && Ascending(s, key)
    ensures Ascending(s[i..j], key)
  {
    var t := s[i..j];
    forall k, l | 0 <= k < l < |t| ensures key(t[k]) < key(t[l]) {
      assert t[k] == s[i + k] && t[l] == s[i + l];
    }
  }

  lemma LastHighest<T>(s: seq<T>, key: T -> int)
    requires s != [] && Ascending(s, key)
    ensures s[|s| - 1] in s && forall x :: x in s ==> key(x) <= key(s[|s| - 1])
  {
    forall x | x in s ensures key(x) <= key(s[|s| - 1]) {
      var i :| 0 <= i < |s| && s[i] == x;
    }
  }

  lemma SliceTop<T>(s: seq<T>, key: T -> int, i: nat, j: nat)
    requires i < j <= |s| && Ascending(s, key)
    ensures s[j - 1] in s[i..j] && key(s[i]) <= key(s[j - 1]) && forall x :: x in s[i..j] ==> key(x) <= key(s[j - 1])
  {
    var t := s[i..j];
    SliceAscends(s, key, i, j);
    LastHighest(t, key);
    assert t[0] == s[i] && t[0] in t && t[|t| - 1] == s[j - 1];
  }

  /** The first k elements have keys up to a, the others keys above it. */
  ghost predicate SplitAt<T>(s: seq<T>, key: T -> int, a: int, k: nat) {
    k <= |s| && (forall i :: 0 <= i < k ==> key(s[i]) <= a) && (forall i :: k <= i < |s| ==> key(s[i]) > a)
  }

  lemma SplitLater<T>(s: seq<T>, key: T -> int, a: int, j: nat)
    requires s != [] && key(s[0]) <= a && SplitAt(s[1..], key, a, j)
    ensures SplitAt(s, key, a, j + 1)
  {
    var t := s[1..];
    forall i | 0 <= i < j + 1 ensures key(s[i]) <= a {
      if i > 0 {
        assert s[i] == t[i - 1];
      }
    }
    forall i | j + 1 <= i < |s| ensures key(s[i]) > a {
      assert s[i] == t[i - 1];
    }
  }

  lemma {:induction false} AboveIsSuffix<T>(s: seq<T>, key: T -> int, a: int) returns (k: nat)
    requires Ascending(s, key)
    ensures SplitAt(s, key, a, k) && Above(s, key, a) == s[k..]
  {
    if s == [] {
      k := 0;
    } else if key(s[0]) > a {
      forall x | x in s ensures key(x) > a {
        var i :| 0 <= i < |s| && s[i] == x;
      }
      AllAbove(s, key, a);
      k := 0;
    } else {
      TailAscends(s, key);
      var j := AboveIsSuffix(s[1..], key, a);
      k := j + 1;
      SplitLater(s, key, a, j);
      assert s[1..][j..] == s[k..];
    }
  }

  lemma {:induction false} NoneBelow<T>(s: seq<T>, key: T -> int, b: int)
    requires forall x :: x in s ==> key(x) >= b
    ensures Below(s, key, b) == []
  {
    if s != [] {
      NoneBelow(s[1..], key, b);
    }
  }

  lemma {:induction false} BelowIsPrefix<T>(s: seq<T>, key: T -> int, b: int) returns (k: nat)
    requires Ascending(s, key)
    ensures SplitAt(s, key, b - 1, k) && Below(s, key, b) == s[..k]
  {
    if s == [] {
      k := 0;
    } else if key(s[0]) >= b {
      forall x | x in s ensures key(x) >= b {
        var i :| 0 <= i < |s| && s[i] == x;
      }
      NoneBelow(s, key, b);
      k := 0;
    } else {
      TailAscends(s, key);
      var j := BelowIsPrefix(s[1..], key, b);
      k := j + 1;
      SplitLater(s, key, b - 1, j);
      assert [s[0]] + s[1..][..j] == s[..k];
    }
  }

  lemma {:induction false} BelowElements<T>(s: seq<T>, key: T -> int, b: int)
    ensures forall x :: x in Below(s, key, b) <==> x in s && key(x) < b
  {
    if s != [] {
      BelowElements(s[1..], key, b);
    }
  }

  lemma {:induction false} AboveElements<T>(s: seq<T>, key: T -> int, a: int)
    ensures forall x :: x in Above(s, key, a) <==> x in s && key(x) > a
  {
    if s != [] {
      AboveElements(s[1..], key, a);
    }
  }

  lemma {:induction false} AboveAppend<T>(s: seq<T>, key: T -> int, x: T, a: int)
    ensures Above(s + [x], key, a) == Above(s, key, a) + if key(x) > a then [x] else []
  {
    if s == [] {
      assert s + [x] == [x];
      assert [x][1..] == [];
    } else {
      AboveAppend(s[1..], key, x, a);
      assert (s + [x])[1..] == s[1..] + [x];
    }
  }

  lemma AboveAscends<T>(s: seq<T>, key: T -> int, a: int)
    requires Ascending(s, key)
    ensures Ascending(Above(s, key, a), key) && forall x :: x in Above(s, key, a) <==> x in s && key(x) > a
  {
    var k := AboveIsSuffix(s, key, a);
    SliceAscends(s, key, k, |s|);
    assert s[k..|s|] == s[k..];
    AboveElements(s, key, a);
  }

  lemma BelowAscends<T>(s: seq<T>, key: T -> int, b: int)
    requires Ascending(s, key)
    ensures Ascending(Below(s, key, b), key) && forall x :: x in Below(s, key, b) <==> x in s && key(x) < b
  {
    var k := BelowIsPrefix(s, key, b);
    SliceAscends(s, key, 0, k);
    assert s[0..k] == s[..k];
    BelowElements(s, key, b);
  }

  /** Past its j-th element the rest of what is above a is what is above that element. */
  lemma AbovePast<T>(s: seq<T>, key: T -> int, a: int, j: nat)
    requires Ascending(s, key) && 0 < j <= |Above(s, key, a)|
    ensures Above(s, key, key(Above(s, key, a)[j - 1])) == Above(s, key, a)[j..]
  {
    var k := AboveIsSuffix(s, key, a);
    var m := k + j - 1;
    assert Above(s, key, a)[j - 1] == s[m];
    var i := AboveIsSuffix(s, key, key(s[m]));
    SplitAfter(s, key, m, i);
    assert s[k..][j..] == s[m + 1..];
  }

  lemma SplitAfter<T>(s: seq<T>, key: T -> int, m: nat, i: nat)
    requires Ascending(s, key) && m < |s| && SplitAt(s, key, key(s[m]), i)
    ensures i == m + 1
  {
    assert i > m;
    assert m + 1 < |s| ==> key(s[m]) < key(s[m + 1]);
  }

  lemma NextPageUp<T>(s: seq<T>, key: T -> int, a: int, limit: nat)
    requires Ascending(s, key) && limit > 0 && Above(s, key, a) != []
    ensures var page := Take(Above(s, key, a), limit);
      page != [] && Above(s, key, key(page[|page| - 1])) == Above(s, key, a)[|page|..]
  {
    var page := Take(Above(s, key, a), limit);
    AbovePast(s, key, a, |page|);
  }

  lemma NextPageDown<T>(s: seq<T>, key: T -> int, b: int, limit: nat)
    requires Ascending(s, key) && limit > 0 && Below(s, key, b) != []
    ensures var page := Last(Below(s, key, b), limit);
      page != [] && Below(s, key, b) == Below(s, key, key(page[0])) + page
  {
    var page := Last(Below(s, key, b), limit);
    var k := BelowIsPrefix(s, key, b);
    var j := BelowIsPrefix(s, key, key(page[0]));
    var first := k - |page|;
    assert s[first] == page[0];
    SplitBefore(s, key, first, j);
  }

  lemma SplitBefore<T>(s: seq<T>, key: T -> int, m: nat, j: nat)
    requires Ascending(s, key) && m < |s| && SplitAt(s, key, key(s[m]) - 1, j)
    ensures j == m
  {
    assert j <= m;
    assert m > 0 ==> key(s[m - 1]) < key(s[m]);
  }

  lemma SplitUnique<T>(s: seq<T>, key: T -> int, a: int, i: nat, j: nat)
    requires SplitAt(s, key, a, i) && SplitAt(s, key, a, j)
    ensures i == j
  {
    assert i < |s| ==> key(s[i]) > a;
    assert j < |s| ==> key(s[j]) > a;
  }

  lemma {:induction false} ReverseAppend<T>(s: seq<T>, t: seq<T>)
    ensures Reverse(s + t) == Reverse(t) + Reverse(s)
  {
    if s == [] {
      assert s + t == t;
    } else {
      ReverseAppend(s[1..], t);
      assert (s + t)[1..] == s[1..] + t;
    }
  }

  lemma {:induction false} ReverseAt<T>(s: seq<T>, i: nat)
    requires i < |s|
    ensures |Reverse(s)| == |s| && Reverse(s)[i] == s[|s| - 1 - i]
  {
    if |s| > 1 {
      ReverseAt(s[1..], if i < |s| - 1 then i else 0);
    }
  }

  lemma {:induction false} ReverseTwice<T>(s: seq<T>)
    ensures Reverse(Reverse(s)) == s
  {
    if s != [] {
      ReverseTwice(s[1..]);
      ReverseAppend(Reverse(s[1..]), [s[0]]);
    }
  }

  lemma {:induction false} ReverseElements<T>(s: seq<T>)
    ensures forall x :: x in Reverse(s) <==> x in s
  {
    if s != [] {
      ReverseElements(s[1..]);
    }
  }

  lemma ReverseDescends<T>(s: seq<T>, key: T -> int)
    requires Ascending(s, key)
    ensures Descending(Reverse(s), key) && forall x :: x in Reverse(s) <==> x in s
  {
    ReverseElements(s);
    var r := Reverse(s);
    if s != [] {
      ReverseAt(s, 0);
    }
    forall i, j | 0 <= i < j < |r| ensures key(r[i]) > key(r[j]) {
      ReverseAt(s, i);
      ReverseAt(s, j);
      assert key(s[|s| - 1 - j]) < key(s[|s| - 1 - i]);
    }
  }

  /** Every element with a key lies in a slice that covers its index. */
  lemma InSlice<T>(s: seq<T>, key: T -> int, x: int, i: nat, j: nat)
    requires i <= j <= |s| && forall k :: 0 <= k < |s| && key(s[k]) == x ==> i <= k < j
    ensures forall m :: m in s && key(m) == x ==> m in s[i..j]
  {
    forall m | m in s && key(m) == x ensures m in s[i..j] {
      var k :| 0 <= k < |s| && s[k] == m;
      assert s[i..j][k - i] == m;
    }
  }

  /** The last n below a key and the first n from it on make one contiguous block. */
  lemma AroundIsBlock<T>(s: seq<T>, key: T -> int, x: int, n: nat) returns (i: nat, j: nat)
    requires Ascending(s, key)
    ensures i <= j <= |s| && Last(Below(s, key, x), n) + Take(Above(s, key, x - 1), n) == s[i..j]
    ensures n > 0 ==> forall k :: 0 <= k < |s| && key(s[k]) == x ==> i <= k < j
  {
    var b := BelowIsPrefix(s, key, x);
    var a := AboveIsSuffix(s, key, x - 1);
    SplitUnique(s, key, x - 1, a, b);
    i := if b <= n then 0 else b - n;
    j := if |s| - a <= n then |s| else a + n;
    assert Last(Below(s, key, x), n) == s[i..b];
    assert Take(Above(s, key, x - 1), n) == s[a..j];
    assert forall k :: b < k < |s| ==> key(s[b]) < key(s[k]);
  }
}
