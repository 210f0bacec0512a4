/** What merging message windows yields: order, ids, and independence of the order of merging. */
module ChatMerge {
  import opened Paging
  import opened ArchiveRows
  import opened ChatState

  ghost predicate Sorted(list: seq<ChatMessage>) {
    forall i, j :: 0 <= i < j < |list| ==> SeqOf(list[i]) <= SeqOf(list[j])
  }

  ghost predicate DistinctIds(list: seq<ChatMessage>) {
    forall i, j :: 0 <= i < j < |list| ==> list[i].core.id != list[j].core.id
  }

  // ---- the sort ---------------------------------------------------------------------------------

  /** The messages with one seq, in order. */
  function WithSeq(list: seq<ChatMessage>, n: int): seq<ChatMessage> {
    if list == [] then []
    else WithSeq(list[..|list| - 1], n) + if SeqOf(list[|list| - 1]) == n then [list[|list| - 1]] else []
  }

  lemma WithSeqAppend(list: seq<ChatMessage>, m: ChatMessage, n: int)
    ensures WithSeq(list + [m], n) == WithSeq(list, n) + if SeqOf(m) == n then [m] else []
  {
    assert (list + [m])[..|list|] == list;
  }

  lemma {:induction false} InsertMultiset(list: seq<ChatMessage>, m: ChatMessage)
    ensures multiset(Insert(list, m)) == multiset(list) + multiset{m}
  {
    if list != [] && SeqOf(list[|list| - 1]) > SeqOf(m) {
      InsertMultiset(list[..|list| - 1], m);
      assert list == list[..|list| - 1] + [list[|list| - 1]];
    }
  }

  lemma {:induction false} InsertSorted(list: seq<ChatMessage>, m: ChatMessage)
    requires Sorted(list)
    ensures Sorted(Insert(list, m))
  {
    if list != [] && SeqOf(list[|list| - 1]) > SeqOf(m) {
      var front, x := list[..|list| - 1], list[|list| - 1];
      var inner := Insert(front, m);
      InsertSorted(front, m);
      InsertMultiset(front, m);
      forall i | 0 <= i < |inner| ensures SeqOf(inner[i]) <= SeqOf(x) {
        assert inner[i] in multiset(inner);
        assert inner[i] == m || inner[i] in front;
      }
    }
  }

  lemma {:induction false} InsertStable(list: seq<ChatMessage>, m: ChatMessage, n: int)
    requires Sorted(list)
    ensures WithSeq(Insert(list, m), n) == WithSeq(list + [m], n)
  {
    WithSeqAppend(list, m, n);
    if list != [] && SeqOf(list[|list| - 1]) > SeqOf(m) {
      var front, x := list[..|list| - 1], list[|list| - 1];
      InsertStable(front, m, n);
      WithSeqAppend(front, m, n);
      WithSeqAppend(Insert(front, m), x, n);
    }
  }

  /** The sort permutes, orders by seq, and keeps the order of equals. */
  lemma {:induction false} SortSorts(list: seq<ChatMessage>)
    ensures multiset(Sort(list)) == multiset(list)
    ensures Sorted(Sort(list))
    ensures forall n :: WithSeq(Sort(list), n) == WithSeq(list, n)
  {
    if list != [] {
      var front, x := list[..|list| - 1], list[|list| - 1];
      assert list == front + [x];
      SortSorts(front);
      InsertMultiset(Sort(front), x);
      InsertSorted(Sort(front), x);
      forall n ensures WithSeq(Sort(list), n) == WithSeq(list, n) {
        InsertStable(Sort(front), x, n);
        WithSeqAppend(Sort(front), x, n);
      }
    }
  }

  lemma {:induction false} WithSeqElements(list: seq<ChatMessage>, n: int)
    ensures forall m :: m in WithSeq(list, n) <==> m in list && SeqOf(m) == n
  {
    if list != [] {
      var front, x := list[..|list| - 1], list[|list| - 1];
      assert list == front + [x];
      WithSeqElements(front, n);
    }
  }

  /** There is only one stable order: any sorted list with the same equals in the same order. */
  lemma {:induction false} SortIsUnique(a: seq<ChatMessage>, b: seq<ChatMessage>)
    requires Sorted(a) && Sorted(b) && forall n :: WithSeq(a, n) == WithSeq(b, n)
    ensures a == b
    decreases |a|
  {
    if b != [] {
      WithSeqElements(b, SeqOf(b[|b| - 1]));
      assert b[|b| - 1] in WithSeq(b, SeqOf(b[|b| - 1]));
    }
    if a != [] {
      LastIsHighest(a, b);
      LastIsHighest(b, a);
      var a', b' := a[..|a| - 1], b[..|b| - 1];
      forall k ensures a[|a| - 1] == b[|b| - 1] && WithSeq(a', k) == WithSeq(b', k) {
        FrontsAgree(a, b, k);
      }
      SortIsUnique(a', b');
      assert a == a' + [a[|a| - 1]] && b == b' + [b[|b| - 1]];
    }
  }

  lemma SameLast(a: seq<ChatMessage>, x: ChatMessage, b: seq<ChatMessage>, y: ChatMessage)
    requires a + [x] == b + [y]
    ensures a == b && x == y
  {
    assert (a + [x])[|a|] == x && (b + [y])[|b|] == y;
    assert (a + [x])[..|a|] == a && (b + [y])[..|b|] == b;
  }

  lemma FrontsAgree(a: seq<ChatMessage>, b: seq<ChatMessage>, k: int)
    requires a != [] && b != [] && SeqOf(a[|a| - 1]) == SeqOf(b[|b| - 1])
    requires forall n :: WithSeq(a, n) == WithSeq(b, n)
    ensures a[|a| - 1] == b[|b| - 1] && WithSeq(a[..|a| - 1], k) == WithSeq(b[..|b| - 1], k)
  {
    var x, y := a[|a| - 1], b[|b| - 1];
    var a', b' := a[..|a| - 1], b[..|b| - 1];
    var n := SeqOf(x);
    assert a == a' + [x] && b == b' + [y];
    WithSeqAppend(a', x, n);
    WithSeqAppend(b', y, n);
    SameLast(WithSeq(a', n), x, WithSeq(b', n), y);
    WithSeqAppend(a', x, k);
    WithSeqAppend(b', y, k);
    if k != n {
      assert WithSeq(a', k) + [] == WithSeq(a', k) && WithSeq(b', k) + [] == WithSeq(b', k);
    }
  }

  lemma LastIsHighest(a: seq<ChatMessage>, b: seq<ChatMessage>)
    requires a != [] && Sorted(b) && forall n :: WithSeq(a, n) == WithSeq(b, n)
    ensures b != [] && SeqOf(a[|a| - 1]) <= SeqOf(b[|b| - 1])
  {
    var x := a[|a| - 1];
    WithSeqElements(a, SeqOf(x));
    WithSeqElements(b, SeqOf(x));
    assert x in WithSeq(a, SeqOf(x));
    var k :| 0 <= k < |b| && b[k] == x;
  }

  // ---- one merge --------------------------------------------------------------------------------

  lemma {:induction false} UnseenElements(seen: set<RowId>, list: seq<ChatMessage>)
    ensures DistinctIds(Unseen(seen, list))
    ensures forall m :: m in Unseen(seen, list) ==> m in list && m.core.id !in seen
    ensures forall m :: m in list ==> m.core.id in seen || HasId(Unseen(seen, list), m.core.id)
    decreases |list|
  {
    if list != [] {
      var x, rest := list[0], list[1..];
      assert list == [x] + rest;
      if x.core.id in seen {
        UnseenElements(seen, rest);
      } else {
        UnseenElements(seen + {x.core.id}, rest);
        var tail := Unseen(seen + {x.core.id}, rest);
        var all := [x] + tail;
        assert x in all;
        forall m | m in rest && m.core.id !in seen ensures HasId(all, m.core.id) {
          if m.core.id != x.core.id {
            var k :| k in tail && k.core.id == m.core.id;
            assert k in all;
          }
        }
      }
    }
  }

  lemma MultisetElements(a: seq<ChatMessage>, b: seq<ChatMessage>)
    requires multiset(a) == multiset(b)
    ensures forall m :: m in a <==> m in b
  {
    forall m ensures m in a <==> m in b {
      assert m in a <==> m in multiset(a);
      assert m in b <==> m in multiset(b);
    }
  }

  lemma MergedElements(existing: seq<ChatMessage>, list: seq<ChatMessage>)
    ensures forall m :: m in Merged(existing, list) <==> m in existing || m in Unseen(IdSet(existing), list)
    ensures Sorted(Merged(existing, list))
  {
    SortSorts(existing + Unseen(IdSet(existing), list));
    MultisetElements(Merged(existing, list), existing + Unseen(IdSet(existing), list));
  }

  lemma {:induction false} InsertDistinct(list: seq<ChatMessage>, m: ChatMessage)
    requires DistinctIds(list) && !HasId(list, m.core.id)
    ensures DistinctIds(Insert(list, m))
  {
    if list != [] && SeqOf(list[|list| - 1]) > SeqOf(m) {
      var front, x := list[..|list| - 1], list[|list| - 1];
      assert x in list && forall k :: k in front ==> k in list;
      InsertDistinct(front, m);
      InsertMultiset(front, m);
      var inner := Insert(front, m);
      forall i | 0 <= i < |inner| ensures inner[i].core.id != x.core.id {
        assert inner[i] in multiset(inner);
        assert inner[i] == m || inner[i] in front;
      }
    } else {
      assert forall i :: 0 <= i < |list| ==> list[i] in list;
    }
  }

  lemma {:induction false} SortDistinct(list: seq<ChatMessage>)
    requires DistinctIds(list)
    ensures DistinctIds(Sort(list))
  {
    if list != [] {
      var front, x := list[..|list| - 1], list[|list| - 1];
      SortDistinct(front);
      SortSorts(front);
      MultisetElements(Sort(front), front);
      InsertDistinct(Sort(front), x);
    }
  }

  /** A merge is sorted, has no id twice, has the union of the ids, and keeps the copies it had. */
  lemma MergeIsUnion(existing: seq<ChatMessage>, list: seq<ChatMessage>)
    requires DistinctIds(existing)
    ensures var merged := Merged(existing, list);
      && Sorted(merged) && DistinctIds(merged)
      && (forall id :: HasId(merged, id) <==> HasId(existing, id) || HasId(list, id))
      && (forall m :: m in existing ==> m in merged)
      && (forall m :: m in merged ==> m in existing || (m in list && !HasId(existing, m.core.id)))
  {
    var added := Unseen(IdSet(existing), list);
    var joined := existing + added;
    UnseenElements(IdSet(existing), list);
    MergedElements(existing, list);
    forall i, j | 0 <= i < |existing| && 0 <= j < |added| ensures existing[i].core.id != added[j].core.id {
      assert existing[i] in existing && added[j] in added;
    }
    assert DistinctIds(joined);
    SortDistinct(joined);
    IdsOfUnion(existing, list);
  }

  lemma IdsOfUnion(existing: seq<ChatMessage>, list: seq<ChatMessage>)
    ensures forall id :: HasId(Merged(existing, list), id) <==> HasId(existing, id) || HasId(list, id)
  {
    var merged := Merged(existing, list);
    var added := Unseen(IdSet(existing), list);
    UnseenElements(IdSet(existing), list);
    MergedElements(existing, list);
    forall id ensures HasId(merged, id) <==> HasId(existing, id) || HasId(list, id) {
      if HasId(existing, id) {
        var m :| m in existing && m.core.id == id;
        assert m in merged;
      } else if HasId(list, id) {
        var m :| m in list && m.core.id == id;
        assert m.core.id !in IdSet(existing);
        var k :| k in added && k.core.id == id;
        assert k in merged;
      }
    }
  }

  // ---- many merges ------------------------------------------------------------------------------

  function MergeAll(existing: seq<ChatMessage>, batches: seq<seq<ChatMessage>>): seq<ChatMessage>
    decreases |batches|
  {
    if batches == [] then existing else MergeAll(Merged(existing, batches[0]), batches[1..])
  }

  function Flat(batches: seq<seq<ChatMessage>>): seq<ChatMessage> {
    if batches == [] then [] else batches[0] + Flat(batches[1..])
  }

  /** One message per id and one id per seq. */
  ghost predicate Agree(list: seq<ChatMessage>) {
    forall m, n :: m in list && n in list && (m.core.id == n.core.id || SeqOf(m) == SeqOf(n)) ==> m == n
  }

  lemma MergedAgreeing(existing: seq<ChatMessage>, list: seq<ChatMessage>)
    requires Agree(existing + list)
    ensures forall m :: m in Merged(existing, list) <==> m in existing || m in list
  {
    UnseenElements(IdSet(existing), list);
    MergedElements(existing, list);
    forall m | m in list ensures m in existing || m in Unseen(IdSet(existing), list) {
      AgreeingIsListed(existing, list, m);
    }
  }

  lemma AgreeingIsListed(existing: seq<ChatMessage>, list: seq<ChatMessage>, m: ChatMessage)
    requires Agree(existing + list) && m in list
    ensures m in existing || m in Unseen(IdSet(existing), list)
  {
    var added := Unseen(IdSet(existing), list);
    UnseenElements(IdSet(existing), list);
    var n :| (n in existing || n in added) && n.core.id == m.core.id;
    assert n in existing + list && m in existing + list;
  }

  /** Merging agreeing batches one after the other leaves all their messages, in seq order. */
  lemma {:induction false} MergeAllElements(existing: seq<ChatMessage>, batches: seq<seq<ChatMessage>>)
    requires DistinctIds(existing) && Agree(existing + Flat(batches))
    requires batches != [] || Sorted(existing)
    ensures forall m :: m in MergeAll(existing, batches) <==> m in existing || m in Flat(batches)
    ensures Ascending(MergeAll(existing, batches), SeqOf)
    decreases |batches|
  {
    if batches == [] {
      assert existing + Flat(batches) == existing;
      forall i, j | 0 <= i < j < |existing| ensures SeqOf(existing[i]) < SeqOf(existing[j]) {
        assert existing[i] in existing && existing[j] in existing;
      }
    } else {
      var first, rest := batches[0], batches[1..];
      var merged := Merged(existing, first);
      AgreeOnPart(existing + Flat(batches), existing + first);
      MergedAgreeing(existing, first);
      MergeIsUnion(existing, first);
      AgreeOnPart(existing + Flat(batches), merged + Flat(rest));
      MergeAllElements(merged, rest);
    }
  }

  lemma AgreeOnPart(whole: seq<ChatMessage>, part: seq<ChatMessage>)
    requires Agree(whole) && forall m :: m in part ==> m in whole
    ensures Agree(part)
  {
  }

  lemma LastsAgree(a: seq<ChatMessage>, b: seq<ChatMessage>)
    requires Ascending(a, SeqOf) && Ascending(b, SeqOf) && forall m :: m in a ==> m in b
    requires a != [] && b != [] && b[|b| - 1] in a
    ensures a[|a| - 1] == b[|b| - 1]
  {
    var x, y := a[|a| - 1], b[|b| - 1];
    assert x in a;
    var i :| 0 <= i < |b| && b[i] == x;
    var j :| 0 <= j < |a| && a[j] == y;
    assert i < |b| - 1 ==> SeqOf(x) < SeqOf(y);
    assert j < |a| - 1 ==> SeqOf(y) < SeqOf(x);
  }

  lemma FrontElements(a: seq<ChatMessage>)
    requires a != [] && Ascending(a, SeqOf)
    ensures Ascending(a[..|a| - 1], SeqOf)
    ensures forall m :: m in a[..|a| - 1] <==> m in a && m != a[|a| - 1]
  {
    var front, x := a[..|a| - 1], a[|a| - 1];
    assert a == front + [x];
    forall i | 0 <= i < |front| ensures front[i] != x {
      assert SeqOf(a[i]) < SeqOf(x);
    }
  }

  lemma FrontsAlike(a: seq<ChatMessage>, b: seq<ChatMessage>)
    requires Ascending(a, SeqOf) && Ascending(b, SeqOf) && forall m :: m in a <==> m in b
    requires a != [] && b != []
    ensures a[|a| - 1] == b[|b| - 1]
    ensures var a', b' := a[..|a| - 1], b[..|b| - 1];
      Ascending(a', SeqOf) && Ascending(b', SeqOf) && forall m :: m in a' <==> m in b'
  {
    assert b[|b| - 1] in b;
    LastsAgree(a, b);
    FrontElements(a);
    FrontElements(b);
    var a', b' := a[..|a| - 1], b[..|b| - 1];
    forall m ensures m in a' <==> m in b' {
      assert m in a <==> m in b;
    }
  }

  /** Two ascending lists with the same messages are the same list. */
  lemma {:induction false} AscendingIsUnique(a: seq<ChatMessage>, b: seq<ChatMessage>)
    requires Ascending(a, SeqOf) && Ascending(b, SeqOf) && forall m :: m in a <==> m in b
    ensures a == b
    decreases |a|
  {
    assert a == [] || a[0] in a;
    assert b == [] || b[|b| - 1] in b;
    if a != [] {
      FrontsAlike(a, b);
      AscendingIsUnique(a[..|a| - 1], b[..|b| - 1]);
      assert a == a[..|a| - 1] + [a[|a| - 1]] && b == b[..|b| - 1] + [b[|b| - 1]];
    }
  }

  /** Merging agreeing batches gives one and the same list, whatever the order of the batches and
      however often each comes. */
  lemma MergeOrderFree(existing: seq<ChatMessage>, bs: seq<seq<ChatMessage>>, cs: seq<seq<ChatMessage>>)
    requires DistinctIds(existing) && Agree(existing + Flat(bs))
    requires forall m :: m in Flat(bs) <==> m in Flat(cs)
    requires (bs != [] && cs != []) || Sorted(existing)
    ensures MergeAll(existing, bs) == MergeAll(existing, cs)
  {
    AgreeOnPart(existing + Flat(bs), existing + Flat(cs));
    MergeAllElements(existing, bs);
    MergeAllElements(existing, cs);
    AscendingIsUnique(MergeAll(existing, bs), MergeAll(existing, cs));
  }
}
