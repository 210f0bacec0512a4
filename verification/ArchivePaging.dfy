/** Reading a conversation out of the archive page by page, newest first. */
module ArchivePaging {
  import opened Common
  import opened ArchiveRows

  /** JavaScript's `n | 0` on an integer. */
  function ToInt32(n: int): int {
    var m := n % 0x1_0000_0000;
    if m >= 0x8000_0000 then m - 0x1_0000_0000 else m
  }

  /** The page size a query really uses. */
  function Clamp(limit: int): (n: nat)
    ensures 1 <= n <= 500
    ensures 1 <= limit <= 500 ==> n == limit
    ensures -0x8000_0000 <= limit < 1 ==> n == 1
    ensures 500 < limit < 0x8000_0000 ==> n == 500
  {
    var n := ToInt32(limit);
    if n < 1 then 1 else if n > 500 then 500 else n
  }

  function Eligible(t: Table, c: string, before: Option<int>): set<RowId> {
    set id | id in t && t[id].fixed.conv == c && (before.None? || t[id].fixed.seqNo < before.value)
  }

  function SeqAt(t: Table, id: RowId): int {
    if id in t then t[id].fixed.seqNo else 0
  }

  /** A possible answer of the query: ties in seq may come in any order, and fall on either side of the limit. */
  ghost predicate IsPage(t: Table, c: string, limit: int, before: Option<int>, page: seq<RowId>) {
    var e := Eligible(t, c, before);
    && Distinct(page) && |page| <= Clamp(limit)
    && (forall id :: id in page ==> id in e)
    && (forall i, j :: 0 <= i < j < |page| ==> SeqAt(t, page[i]) >= SeqAt(t, page[j]))
    && (|page| < Clamp(limit) ==> forall id :: id in e ==> id in page)
    && (forall id, k :: id in e && id !in page && 0 <= k < |page| ==> SeqAt(t, id) <= SeqAt(t, page[k]))
  }

  /** Pages read one after the other, each before the last row of the one before, until one is empty. */
  ghost predicate Pages(t: Table, c: string, limit: int, before: Option<int>, pages: seq<seq<RowId>>)
    decreases |pages|
  {
    |pages| > 0 && IsPage(t, c, limit, before, pages[0]) &&
    if pages[0] == [] then |pages| == 1 else Pages(t, c, limit, Some(Cursor(t, pages[0])), pages[1..])
  }

  function Cursor(t: Table, page: seq<RowId>): int
    requires page != []
  {
    SeqAt(t, page[|page| - 1])
  }

  function Flat(pages: seq<seq<RowId>>): seq<RowId> {
    if pages == [] then [] else pages[0] + Flat(pages[1..])
  }

  ghost predicate UniqueSeqs(t: Table, c: string) {
    forall a, b :: a in t && b in t && t[a].fixed.conv == t[b].fixed.conv == c && SeqAt(t, a) == SeqAt(t, b) ==> a == b
  }

  ghost predicate NewestFirst(t: Table, ids: seq<RowId>) {
    forall i, j :: 0 <= i < j < |ids| ==> SeqAt(t, ids[i]) > SeqAt(t, ids[j])
  }

  /** Every row of the conversation before the cursor, once, newest first. */
  ghost predicate Complete(t: Table, c: string, before: Option<int>, ids: seq<RowId>) {
    NewestFirst(t, ids) && forall id :: id in ids <==> id in Eligible(t, c, before)
  }

  // ---- unique seqs: nothing is lost or repeated ------------------------------------------------

  lemma CursorIsLowest(t: Table, c: string, limit: int, before: Option<int>, page: seq<RowId>, id: RowId)
    requires IsPage(t, c, limit, before, page) && page != [] && id in page
    ensures SeqAt(t, id) >= Cursor(t, page)
  {
    var i :| 0 <= i < |page| && page[i] == id;
  }

  lemma PageSplits(t: Table, c: string, limit: int, before: Option<int>, page: seq<RowId>)
    requires UniqueSeqs(t, c) && IsPage(t, c, limit, before, page) && page != []
    ensures NewestFirst(t, page)
    ensures forall id :: id in Eligible(t, c, before) <==> id in page || id in Eligible(t, c, Some(Cursor(t, page)))
    ensures forall id :: id in page ==> id in Eligible(t, c, before) && SeqAt(t, id) >= Cursor(t, page)
  {
    var last := page[|page| - 1];
    assert last in page;
    forall id | id in page ensures SeqAt(t, id) >= Cursor(t, page) {
      CursorIsLowest(t, c, limit, before, page, id);
    }
    forall id | id in Eligible(t, c, before) && id !in page ensures id in Eligible(t, c, Some(Cursor(t, page))) {
      assert SeqAt(t, id) <= SeqAt(t, last) && id != last;
    }
    forall i, j | 0 <= i < j < |page| ensures SeqAt(t, page[i]) > SeqAt(t, page[j]) {
      assert page[i] in page && page[j] in page && page[i] != page[j];
    }
  }

  /** With unique seqs, paging with any limit returns every row of the conversation exactly once. */
  lemma {:induction false} PagesListAll(
      t: Table, c: string, limit: int, before: Option<int>, pages: seq<seq<RowId>>)
    requires UniqueSeqs(t, c) && Pages(t, c, limit, before, pages)
    ensures Complete(t, c, before, Flat(pages))
    decreases |pages|
  {
    var page, rest := pages[0], Flat(pages[1..]);
    if page == [] {
      assert pages[1..] == [];
    } else {
      var next := Some(Cursor(t, page));
      PageSplits(t, c, limit, before, page);
      PagesListAll(t, c, limit, next, pages[1..]);
      forall i, j | 0 <= i < |page| && 0 <= j < |rest| ensures SeqAt(t, page[i]) > SeqAt(t, rest[j]) {
        assert page[i] in page && rest[j] in rest;
      }
    }
  }

  // ---- paging ends ------------------------------------------------------------------------------

  lemma PageShrinks(t: Table, c: string, limit: int, before: Option<int>, page: seq<RowId>)
    requires IsPage(t, c, limit, before, page) && page != []
    ensures |Eligible(t, c, Some(Cursor(t, page)))| < |Eligible(t, c, before)|
  {
    var next := Eligible(t, c, Some(Cursor(t, page)));
    var e := Eligible(t, c, before);
    var last := page[|page| - 1];
    assert last in page && last in e && last !in next;
    assert next <= e - {last};
    SubsetCard(next, e - {last});
  }

  lemma {:induction false} SubsetCard<T>(a: set<T>, b: set<T>)
    requires a <= b
    ensures |a| <= |b|
  {
    if a != {} {
      ghost var x := SomeElement(a);
      SubsetCard(a - {x}, b - {x});
    }
  }

  /** Paging always ends, unique seqs or not: there is at most one page per row and the empty one. */
  lemma {:induction false} PagesEnd(t: Table, c: string, limit: int, before: Option<int>, pages: seq<seq<RowId>>)
    requires Pages(t, c, limit, before, pages)
    ensures |pages| <= |Eligible(t, c, before)| + 1
    decreases |pages|
  {
    if pages[0] != [] {
      PageShrinks(t, c, limit, before, pages[0]);
      PagesEnd(t, c, limit, Some(Cursor(t, pages[0])), pages[1..]);
    }
  }

  lemma {:induction false} Highest(t: Table, ids: set<RowId>) returns (top: RowId)
    requires ids != {}
    ensures top in ids && forall id :: id in ids ==> SeqAt(t, id) <= SeqAt(t, top)
    decreases |ids|
  {
    top := SomeElement(ids);
    var first := top;
    var rest := ids - {top};
    if rest != {} {
      var other := Highest(t, rest);
      if SeqAt(t, other) > SeqAt(t, top) {
        top := other;
      }
    }
    assert forall id :: id in ids ==> id == first || id in rest;
  }

  /** Taking the highest row again and again builds a page. */
  lemma {:induction false} PageGrows(
      t: Table, c: string, limit: int, before: Option<int>, taken: seq<RowId>) returns (page: seq<RowId>)
    requires Partial(t, c, before, taken) && |taken| <= Clamp(limit)
    ensures IsPage(t, c, limit, before, page)
    decreases Clamp(limit) - |taken|
  {
    var left := set id | id in Eligible(t, c, before) && id !in taken;
    if |taken| == Clamp(limit) || left == {} {
      page := taken;
      forall id | id in Eligible(t, c, before) && left == {} ensures id in page {
        assert id !in left;
      }
    } else {
      var top := Highest(t, left);
      PartialStep(t, c, before, taken, top);
      page := PageGrows(t, c, limit, before, taken + [top]);
    }
  }

  /** The highest rows taken so far, in order. */
  ghost predicate Partial(t: Table, c: string, before: Option<int>, taken: seq<RowId>) {
    var e := Eligible(t, c, before);
    && Distinct(taken)
    && (forall id :: id in taken ==> id in e)
    && (forall i, j :: 0 <= i < j < |taken| ==> SeqAt(t, taken[i]) >= SeqAt(t, taken[j]))
    && (forall id, k :: id in e && id !in taken && 0 <= k < |taken| ==> SeqAt(t, id) <= SeqAt(t, taken[k]))
  }

  lemma PartialStep(t: Table, c: string, before: Option<int>, taken: seq<RowId>, top: RowId)
    requires Partial(t, c, before, taken) && top in Eligible(t, c, before) && top !in taken
    requires forall id :: id in Eligible(t, c, before) && id !in taken ==> SeqAt(t, id) <= SeqAt(t, top)
    ensures Partial(t, c, before, taken + [top])
  {
    var more := taken + [top];
    forall i, j | 0 <= i < j < |more|
      ensures more[i] != more[j] && SeqAt(t, more[i]) >= SeqAt(t, more[j])
    {
      assert j < |taken| || more[j] == top;
      assert taken[i] in taken;
    }
  }

  /** `left` is what of the eligible rows is not taken yet. */
  ghost predicate LeftOf(t: Table, c: string, before: Option<int>, taken: seq<RowId>, left: set<RowId>) {
    Partial(t, c, before, taken) && left <= Eligible(t, c, before) &&
    forall id :: id in Eligible(t, c, before) ==> (id in left <==> id !in taken)
  }

  lemma LeftStep(t: Table, c: string, before: Option<int>, taken: seq<RowId>, left: set<RowId>, top: RowId)
    requires LeftOf(t, c, before, taken, left) && top in left
    requires forall id :: id in left ==> SeqAt(t, id) <= SeqAt(t, top)
    ensures LeftOf(t, c, before, taken + [top], left - {top})
  {
    PartialStep(t, c, before, taken, top);
    assert forall id :: id in taken + [top] <==> id in taken || id == top;
  }

  lemma LeftIsPage(t: Table, c: string, limit: int, before: Option<int>, taken: seq<RowId>, left: set<RowId>)
    requires LeftOf(t, c, before, taken, left) && |taken| <= Clamp(limit)
    requires |taken| == Clamp(limit) || left == {}
    ensures IsPage(t, c, limit, before, taken)
  {
  }

  lemma {:induction false} PagesExist(t: Table, c: string, limit: int, before: Option<int>)
    returns (pages: seq<seq<RowId>>)
    ensures Pages(t, c, limit, before, pages)
    decreases |Eligible(t, c, before)|
  {
    var page := PageGrows(t, c, limit, before, []);
    if page == [] {
      pages := [page];
    } else {
      PageShrinks(t, c, limit, before, page);
      var rest := PagesExist(t, c, limit, Some(Cursor(t, page)));
      pages := [page] + rest;
      assert pages[1..] == rest;
    }
  }

  // ---- the exact condition ------------------------------------------------------------------------

  /** Two rows with one seq: paging one row at a time loses one of them. */
  lemma TiesLose(t: Table, c: string) returns (pages: seq<seq<RowId>>)
    requires !UniqueSeqs(t, c)
    ensures Pages(t, c, 1, None, pages) && !Complete(t, c, None, Flat(pages))
  {
    var a, b :| a in t && b in t && t[a].fixed.conv == t[b].fixed.conv == c && SeqAt(t, a) == SeqAt(t, b) && a != b;
    pages := PagesExist(t, c, 1, None);
    assert a in Eligible(t, c, None) && b in Eligible(t, c, None);
    if a in Flat(pages) && b in Flat(pages) {
      TieIsBroken(t, Flat(pages), a, b);
    }
  }

  ghost predicate AlwaysComplete(t: Table, c: string) {
    forall limit, pages :: Pages(t, c, limit, None, pages) ==> Complete(t, c, None, Flat(pages))
  }

  /** Paging is complete with every limit, however ties fall, exactly when seqs are unique. */
  lemma CompleteIff(t: Table, c: string)
    ensures AlwaysComplete(t, c) <==> UniqueSeqs(t, c)
  {
    if UniqueSeqs(t, c) {
      forall limit, pages | Pages(t, c, limit, None, pages) ensures Complete(t, c, None, Flat(pages)) {
        PagesListAll(t, c, limit, None, pages);
      }
    } else {
      var pages := TiesLose(t, c);
    }
  }

  /** A list that goes strictly down in seq cannot hold two rows with one seq. */
  lemma TieIsBroken(t: Table, ids: seq<RowId>, a: RowId, b: RowId)
    requires a in ids && b in ids && a != b && SeqAt(t, a) == SeqAt(t, b)
    ensures !NewestFirst(t, ids)
  {
    var i :| 0 <= i < |ids| && ids[i] == a;
    var j :| 0 <= j < |ids| && ids[j] == b;
    assert i < j || j < i;
  }
}
