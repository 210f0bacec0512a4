/** The cursor queries over the message table, and what a client sees by paging through them. */
module MessageQueries {
  import opened Common
  import opened Paging
  import opened MessageLog

  /** The page size a query really uses. */
  function Clamp(limit: int, most: nat, otherwise: nat): (n: nat)
    requires 0 < otherwise <= most
    ensures 0 < n <= most
    ensures 0 < limit <= most ==> n == limit
    ensures limit <= 0 || limit > most ==> n == otherwise
  {
    if limit <= 0 || limit > most then otherwise else limit
  }

  function ListAfter(t: Tables, c: ConvId, after: int, limit: int): seq<Message> {
    Take(Above(InConv(t.messages, c), SeqOf, after), Clamp(limit, 500, 200))
  }

  function ListRecent(t: Tables, c: ConvId, limit: int, before: int): seq<Message> {
    var s := InConv(t.messages, c);
    Reverse(Last(if before > 0 then Below(s, SeqOf, before) else s, Clamp(limit, 200, 50)))
  }

  function ListAround(t: Tables, c: ConvId, around: int, window: int): seq<Message> {
    var s := InConv(t.messages, c);
    var w := Clamp(window, 200, 25);
    Last(Below(s, SeqOf, around), w) + Take(Above(s, SeqOf, around - 1), w)
  }

  /** The request handler's choice of query. */
  function Listing(t: Tables, c: ConvId, limit: int, before: int, after: int, around: int): seq<Message> {
    if around > 0 then ListAround(t, c, around, limit)
    else if after > 0 then ListAfter(t, c, after, limit)
    else ListRecent(t, c, limit, before)
  }

  // ---- paging upwards ---------------------------------------------------------------------

  lemma PageAfterIsTop(t: Tables, c: ConvId, after: int, limit: int)
    requires LogOk(t) && ListAfter(t, c, after, limit) != []
    ensures var page := ListAfter(t, c, after, limit);
      |Above(InConv(t.messages, c), SeqOf, page[|page| - 1].seqNo)| < |Above(InConv(t.messages, c), SeqOf, after)|
  {
    InConvAscending(t.messages, c);
    NextPageUp(InConv(t.messages, c), SeqOf, after, Clamp(limit, 500, 200));
  }

  /** What a client sees that asks for the page after its last message until a page is empty. */
  ghost function PagesAfter(t: Tables, c: ConvId, after: int, limit: int): seq<Message>
    requires LogOk(t)
    decreases |Above(InConv(t.messages, c), SeqOf, after)|
  {
    var page := ListAfter(t, c, after, limit);
    if page == [] then [] else
      PageAfterIsTop(t, c, after, limit);
      page + PagesAfter(t, c, page[|page| - 1].seqNo, limit)
  }

  lemma {:induction false} PagesAfterAre(t: Tables, c: ConvId, after: int, limit: int)
    requires LogOk(t)
    ensures PagesAfter(t, c, after, limit) == Above(InConv(t.messages, c), SeqOf, after)
    decreases |Above(InConv(t.messages, c), SeqOf, after)|
  {
    var s := InConv(t.messages, c);
    var page := ListAfter(t, c, after, limit);
    InConvAscending(t.messages, c);
    if page != [] {
      NextPageUp(s, SeqOf, after, Clamp(limit, 500, 200));
      PageAfterIsTop(t, c, after, limit);
      var all, last := Above(s, SeqOf, after), page[|page| - 1].seqNo;
      calc {
        PagesAfter(t, c, after, limit);
        page + PagesAfter(t, c, last, limit);
      == { PagesAfterAre(t, c, last, limit); }
        page + Above(s, SeqOf, last);
        page + all[|page|..];
      == { assert page == all[..|page|]; }
        all;
      }
    }
  }

  /** Paging upwards lists every surviving message past the cursor once, oldest first. */
  lemma PagesAfterListAll(t: Tables, c: ConvId, after: int, limit: int)
    requires LogOk(t)
    ensures var pages := PagesAfter(t, c, after, limit);
      && Ascending(pages, SeqOf)
      && forall m :: m in pages <==> m in t.messages && m.conv == c && m.seqNo > after
  {
    var s := InConv(t.messages, c);
    InConvAscending(t.messages, c);
    InConvElements(t.messages, c);
    PagesAfterAre(t, c, after, limit);
    AboveAscends(s, SeqOf, after);
  }

  // ---- paging downwards -------------------------------------------------------------------

  /** The messages a `before` cursor leaves: 0 is no cursor. */
  function Upto(t: Tables, c: ConvId, before: int): seq<Message> {
    var s := InConv(t.messages, c);
    if before > 0 then Below(s, SeqOf, before) else s
  }

  lemma UptoIsBelow(t: Tables, c: ConvId, before: int) returns (b: int)
    requires LogOk(t)
    ensures Upto(t, c, before) == Below(InConv(t.messages, c), SeqOf, b)
    ensures before > 0 ==> b == before
    ensures before <= 0 ==> forall m :: m in t.messages && m.conv == c ==> m.seqNo < b
  {
    if before > 0 {
      b := before;
    } else {
      var s := InConv(t.messages, c);
      InConvElements(t.messages, c);
      b := if c in t.lastSeq then t.lastSeq[c] + 1 else 0;
      AllBelow(s, b);
    }
  }

  lemma {:induction false} AllBelow(s: seq<Message>, b: int)
    requires forall m :: m in s ==> m.seqNo < b
    ensures Below(s, SeqOf, b) == s
  {
    if s != [] {
      AllBelow(s[1..], b);
    }
  }

  lemma UptoPositive(t: Tables, c: ConvId, before: int, m: Message)
    requires LogOk(t) && m in Upto(t, c, before)
    ensures m.seqNo > 0
  {
    InConvElements(t.messages, c);
    BelowElements(InConv(t.messages, c), SeqOf, before);
  }

  lemma RecentIsPageDown(t: Tables, c: ConvId, limit: int, before: int)
    requires LogOk(t) && ListRecent(t, c, limit, before) != []
    ensures var page := ListRecent(t, c, limit, before);
      && page[|page| - 1].seqNo > 0
      && Upto(t, c, before) == Upto(t, c, page[|page| - 1].seqNo) + Last(Upto(t, c, before), Clamp(limit, 200, 50))
  {
    var s := InConv(t.messages, c);
    var last := Last(Upto(t, c, before), Clamp(limit, 200, 50));
    var b := UptoIsBelow(t, c, before);
    InConvAscending(t.messages, c);
    assert last != [];
    ReverseAt(last, |last| - 1);
    NextPageDown(s, SeqOf, b, Clamp(limit, 200, 50));
    assert last[0] in Upto(t, c, before);
    UptoPositive(t, c, before, last[0]);
  }

  /** What a client sees that asks for the page before its oldest message until a page is empty. */
  ghost function PagesBefore(t: Tables, c: ConvId, limit: int, before: int): seq<Message>
    requires LogOk(t)
    decreases |Upto(t, c, before)|
  {
    var page := ListRecent(t, c, limit, before);
    if page == [] then [] else
      RecentIsPageDown(t, c, limit, before);
      ReverseAt(Last(Upto(t, c, before), Clamp(limit, 200, 50)), 0);
      page + PagesBefore(t, c, limit, page[|page| - 1].seqNo)
  }

  lemma {:induction false} PagesBeforeAre(t: Tables, c: ConvId, limit: int, before: int)
    requires LogOk(t)
    ensures PagesBefore(t, c, limit, before) == Reverse(Upto(t, c, before))
    decreases |Upto(t, c, before)|
  {
    var page := ListRecent(t, c, limit, before);
    var last := Last(Upto(t, c, before), Clamp(limit, 200, 50));
    if page != [] {
      RecentIsPageDown(t, c, limit, before);
      ReverseAt(last, 0);
      PagesBeforeAre(t, c, limit, page[|page| - 1].seqNo);
      ReverseAppend(Upto(t, c, page[|page| - 1].seqNo), last);
    } else {
      assert last != [] ==> Reverse(last) != [];
    }
  }

  /** Paging downwards from the newest lists every surviving message once, newest first. */
  lemma PagesBeforeListAll(t: Tables, c: ConvId, limit: int)
    requires LogOk(t)
    ensures var pages := PagesBefore(t, c, limit, 0);
      && Descending(pages, SeqOf)
      && forall m :: m in pages <==> m in t.messages && m.conv == c
  {
    InConvAscending(t.messages, c);
    InConvElements(t.messages, c);
    PagesBeforeAre(t, c, limit, 0);
    ReverseDescends(InConv(t.messages, c), SeqOf);
  }

  // ---- the jump window ----------------------------------------------------------------------

  /** A window is one unbroken stretch of the surviving conversation, with the target in it. */
  lemma AroundIsContiguous(t: Tables, c: ConvId, around: int, window: int) returns (i: nat, j: nat)
    requires LogOk(t)
    ensures var s := InConv(t.messages, c);
      && i <= j <= |s| && ListAround(t, c, around, window) == s[i..j]
      && j - i <= 2 * Clamp(window, 200, 25)
      && forall m :: m in t.messages && m.conv == c && m.seqNo == around ==> m in ListAround(t, c, around, window)
  {
    var s := InConv(t.messages, c);
    InConvAscending(t.messages, c);
    InConvElements(t.messages, c);
    i, j := AroundIsBlock(s, SeqOf, around, Clamp(window, 200, 25));
    InSlice(s, SeqOf, around, i, j);
  }

  lemma TopIsHighest(t: Tables, c: ConvId, m: Message)
    requires LogOk(t) && m in t.messages && m.conv == c
    ensures InConv(t.messages, c) != []
    ensures var top := InConv(t.messages, c)[|InConv(t.messages, c)| - 1];
      top in t.messages && top.conv == c && (m == top || m.seqNo < top.seqNo)
  {
    var s := InConv(t.messages, c);
    InConvAscending(t.messages, c);
    InConvElements(t.messages, c);
    var k :| 0 <= k < |s| && s[k] == m;
    assert s[|s| - 1] in s;
    assert k < |s| - 1 ==> SeqOf(s[k]) < SeqOf(s[|s| - 1]);
  }

  /** The pointer repair picks the row a `seq DESC` query puts first. */
  lemma NewestIsHighest(t: Tables, c: ConvId, m: Message)
    requires LogOk(t) && m in t.messages && m.conv == c
    ensures Newest(t.messages, c) == Some(m.id) <==> forall n :: n in t.messages && n.conv == c ==> n.seqNo <= m.seqNo
  {
    TopIsHighest(t, c, m);
    var top := InConv(t.messages, c)[|InConv(t.messages, c)| - 1];
    if top.id == m.id {
      IdsAreUnique(t.messages, top, m);
    }
    forall n | n in t.messages && n.conv == c ensures n.seqNo <= top.seqNo {
      TopIsHighest(t, c, n);
    }
  }
}
