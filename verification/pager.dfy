/** The paging arithmetic and the page-button bar that the admin event,
    session and venue lists and the storefront venue list each carry a
    copy of: total pages as a ceiling, the "showing start-end" range, the
    window of page buttons with ellipses, Previous/Next, and the
    `goToPage` range guard. */
module Pager {
  import opened Js

  /** `Math.ceil(a / b)` for a non-negative count and a positive page size. */
  function CeilDiv(a: nat, b: nat): (r: nat)
    requires b > 0
    ensures r * b >= a
    ensures r == 0 || (r - 1) * b < a
  {
    (a + b - 1) / b
  }

  // -----------------------------------------------------------------------
  // The page-button window

  datatype Item = Page(n: int) | Ellipsis

  /** Page i gets a button: the first, the last, and every page within two
      of the current one. */
  predicate Shown(current: int, totalPages: int, i: int) {
    i == 1 || i == totalPages || (current - 2 <= i && i <= current + 2)
  }

  /** One turn of the button loop. */
  function Emit(current: int, totalPages: int, i: int): seq<Item> {
    if Shown(current, totalPages, i) then [Page(i)]
    else if i == current - 3 || i == current + 3 then [Ellipsis]
    else []
  }

  /** Page numbers rise from left to right. */
  predicate Increasing(items: seq<Item>) {
    forall j, k :: 0 <= j < k < |items| && items[j].Page? && items[k].Page? ==> items[j].n < items[k].n
  }

  /** What the loop emits for i = lo, ..., hi - 1. */
  function Scan(current: int, totalPages: int, lo: int, hi: int): seq<Item>
    decreases hi - lo
  {
    if lo >= hi then [] else Emit(current, totalPages, lo) + Scan(current, totalPages, lo + 1, hi)
  }

  /** Every page button in items lies in [lo, hi) and is a shown page. */
  predicate PagesWithin(current: int, totalPages: int, lo: int, hi: int, items: seq<Item>) {
    forall k :: 0 <= k < |items| && items[k].Page? ==>
      lo <= items[k].n < hi && Shown(current, totalPages, items[k].n)
  }

  lemma {:induction false} ScanBounds(current: int, totalPages: int, lo: int, hi: int)
    ensures PagesWithin(current, totalPages, lo, hi, Scan(current, totalPages, lo, hi))
    decreases hi - lo
  {
    if lo < hi {
      ScanBounds(current, totalPages, lo + 1, hi);
      var head := Emit(current, totalPages, lo);
      var rest := Scan(current, totalPages, lo + 1, hi);
      var items := Scan(current, totalPages, lo, hi);
      assert items == head + rest;
      forall k | 0 <= k < |items| && items[k].Page?
        ensures lo <= items[k].n < hi && Shown(current, totalPages, items[k].n)
      {
        if k >= |head| {
          assert items[k] == rest[k - |head|];
        }
      }
    }
  }

  lemma {:induction false} ScanComplete(current: int, totalPages: int, lo: int, hi: int)
    ensures forall i :: lo <= i < hi && Shown(current, totalPages, i) ==> Page(i) in Scan(current, totalPages, lo, hi)
    decreases hi - lo
  {
    if lo < hi {
      ScanComplete(current, totalPages, lo + 1, hi);
    }
  }

  lemma {:induction false} ScanIncreasing(current: int, totalPages: int, lo: int, hi: int)
    ensures Increasing(Scan(current, totalPages, lo, hi))
    decreases hi - lo
  {
    if lo < hi {
      ScanIncreasing(current, totalPages, lo + 1, hi);
      ScanBounds(current, totalPages, lo + 1, hi);
      var head := Emit(current, totalPages, lo);
      var rest := Scan(current, totalPages, lo + 1, hi);
      var items := head + rest;
      assert forall k :: |head| <= k < |items| ==> items[k] == rest[k - |head|];
    }
  }

  /** The buttons between Previous and Next, as `renderPagination` emits
      them for `i = 1 .. totalPages`. Whatever the current page, the page
      buttons are exactly {1, totalPages} together with the pages within
      two of the current one, clipped to [1, totalPages], in increasing
      order. */
  function PageItems(current: int, totalPages: int): (items: seq<Item>)
    ensures forall k :: 0 <= k < |items| && items[k].Page? ==> 1 <= items[k].n <= totalPages
    ensures forall i :: 1 <= i <= totalPages ==>
      (Page(i) in items <==> (i == 1 || i == totalPages || (current - 2 <= i && i <= current + 2)))
    ensures Increasing(items)
  {
    var items := Scan(current, totalPages, 1, totalPages + 1);
    ScanBounds(current, totalPages, 1, totalPages + 1);
    ScanComplete(current, totalPages, 1, totalPages + 1);
    ScanIncreasing(current, totalPages, 1, totalPages + 1);
    assert forall i :: Page(i) in items ==> exists k :: 0 <= k < |items| && items[k] == Page(i);
    items
  }

  // -----------------------------------------------------------------------
  // The same window in closed form

  /** Page(lo), Page(lo + 1), ..., Page(hi). */
  function Run(lo: int, hi: int): (items: seq<Item>)
    ensures |items| == if lo <= hi then hi - lo + 1 else 0
    ensures forall k :: 0 <= k < |items| ==> items[k] == Page(lo + k)
    decreases hi - lo
  {
    if lo > hi then [] else [Page(lo)] + Run(lo + 1, hi)
  }

  function Lo(current: int): int {
    if current - 2 > 1 then current - 2 else 1
  }

  function Hi(current: int, totalPages: int): int {
    if current + 2 < totalPages then current + 2 else totalPages
  }

  /** First page, an ellipsis when pages 2 .. current - 3 are hidden, the
      pages current - 2 .. current + 2, an ellipsis when pages current + 3 ..
      totalPages - 1 are hidden, and the last page. */
  function Window(current: int, totalPages: int): seq<Item>
    requires 1 <= current <= totalPages
  {
    var lo, hi := Lo(current), Hi(current, totalPages);
    var mid := Run(lo, hi);
    var withRight :=
      if hi < totalPages - 1 then mid + [Ellipsis, Page(totalPages)]
      else if hi < totalPages then mid + [Page(totalPages)]
      else mid;
    if lo > 2 then [Page(1), Ellipsis] + withRight
    else if lo > 1 then [Page(1)] + withRight
    else withRight
  }

  lemma {:induction false} ScanSplit(c: int, t: int, lo: int, mid: int, hi: int)
    requires lo <= mid <= hi
    ensures Scan(c, t, lo, hi) == Scan(c, t, lo, mid) + Scan(c, t, mid, hi)
    decreases mid - lo
  {
    if lo < mid {
      ScanSplit(c, t, lo + 1, mid, hi);
      AppendAssoc(Emit(c, t, lo), Scan(c, t, lo + 1, mid), Scan(c, t, mid, hi));
    }
  }

  /** Inside the window every page is emitted. */
  lemma {:induction false} ScanAllShown(c: int, t: int, lo: int, hi: int)
    requires c - 2 <= lo && hi <= c + 2
    ensures Scan(c, t, lo, hi + 1) == Run(lo, hi)
    decreases hi - lo
  {
    if lo <= hi {
      assert Emit(c, t, lo) == [Page(lo)];
      ScanAllShown(c, t, lo + 1, hi);
    }
  }

  /** Strictly between the first page and the left ellipsis, or between
      the right ellipsis and the last page, nothing is emitted. */
  lemma {:induction false} ScanHidden(c: int, t: int, lo: int, hi: int)
    requires (1 < lo && hi <= c - 3 && c <= t) || (1 <= c && c + 3 < lo && hi <= t)
    ensures Scan(c, t, lo, hi) == []
    decreases hi - lo
  {
    if lo < hi {
      assert Emit(c, t, lo) == [];
      ScanHidden(c, t, lo + 1, hi);
    }
  }

  /** The loop's output before the window. */
  lemma ScanLeft(c: int, t: int)
    requires 1 <= c <= t
    ensures Scan(c, t, 1, Lo(c)) ==
      if Lo(c) > 2 then [Page(1), Ellipsis] else if Lo(c) > 1 then [Page(1)] else []
  {
    var lo := Lo(c);
    if lo > 2 {
      ScanSplit(c, t, 2, lo - 1, lo);
      ScanHidden(c, t, 2, lo - 1);
      assert Emit(c, t, lo - 1) == [Ellipsis];
      assert Scan(c, t, lo - 1, lo) == [Ellipsis];
    }
    if lo > 1 {
      assert Scan(c, t, 1, lo) == [Page(1)] + Scan(c, t, 2, lo);
    }
  }

  /** The loop's output after the window. */
  lemma ScanRight(c: int, t: int)
    requires 1 <= c <= t
    ensures Scan(c, t, Hi(c, t) + 1, t + 1) ==
      if Hi(c, t) < t - 1 then [Ellipsis, Page(t)] else if Hi(c, t) < t then [Page(t)] else []
  {
    var hi := Hi(c, t);
    if hi < t {
      ScanSplit(c, t, hi + 1, t, t + 1);
      ScanLast(c, t);
      ScanGap(c, t);
      if hi + 1 < t {
        assert [Ellipsis] + [Page(t)] == [Ellipsis, Page(t)];
      } else {
        assert [] + [Page(t)] == [Page(t)];
      }
    } else {
      assert Scan(c, t, hi + 1, t + 1) == [];
    }
  }

  /** The last page is always emitted. */
  lemma ScanLast(c: int, t: int)
    ensures Scan(c, t, t, t + 1) == [Page(t)]
  {
    assert Emit(c, t, t) == [Page(t)];
    assert Scan(c, t, t + 1, t + 1) == [];
  }

  /** Between the window and the last page: one ellipsis, or nothing when
      the window reaches the page before the last. */
  lemma ScanGap(c: int, t: int)
    requires 1 <= c && Hi(c, t) < t
    ensures Scan(c, t, Hi(c, t) + 1, t) == if Hi(c, t) + 1 < t then [Ellipsis] else []
  {
    var hi := Hi(c, t);
    if hi + 1 < t {
      assert Emit(c, t, hi + 1) == [Ellipsis];
      ScanHidden(c, t, hi + 2, t);
      assert Scan(c, t, hi + 1, t) == [Ellipsis] + Scan(c, t, hi + 2, t);
    } else {
      assert Scan(c, t, hi + 1, t) == [];
    }
  }

  lemma ScanIsWindow(c: int, t: int)
    requires 1 <= c <= t
    ensures Scan(c, t, 1, t + 1) == Window(c, t)
  {
    var lo, hi := Lo(c), Hi(c, t);
    assert 1 <= lo <= c <= hi <= t;
    ScanSplit(c, t, 1, lo, t + 1);
    ScanSplit(c, t, lo, hi + 1, t + 1);
    ScanAllShown(c, t, lo, hi);
    ScanLeft(c, t);
    ScanRight(c, t);
    var left := if lo > 2 then [Page(1), Ellipsis] else if lo > 1 then [Page(1)] else [];
    var right := if hi < t - 1 then [Ellipsis, Page(t)] else if hi < t then [Page(t)] else [];
    assert Scan(c, t, 1, t + 1) == left + (Run(lo, hi) + right);
    WindowParts(c, t);
  }

  /** The closed form read as three parts. */
  lemma WindowParts(c: int, t: int)
    requires 1 <= c <= t
    ensures var lo, hi := Lo(c), Hi(c, t);
      Window(c, t) ==
        (if lo > 2 then [Page(1), Ellipsis] else if lo > 1 then [Page(1)] else []) +
        (Run(lo, hi) + (if hi < t - 1 then [Ellipsis, Page(t)] else if hi < t then [Page(t)] else []))
  {
    var lo, hi := Lo(c), Hi(c, t);
    var right := if hi < t - 1 then [Ellipsis, Page(t)] else if hi < t then [Page(t)] else [];
    assert right == [] ==> Run(lo, hi) + right == Run(lo, hi);
    if lo <= 1 {
      assert [] + (Run(lo, hi) + right) == Run(lo, hi) + right;
    }
  }

  /** For a current page inside [1, totalPages] the loop emits exactly the
      closed-form window. */
  lemma PageItemsIsWindow(current: int, totalPages: int)
    requires 1 <= current <= totalPages
    ensures PageItems(current, totalPages) == Window(current, totalPages)
  {
    ScanIsWindow(current, totalPages);
  }

  /** The bar reads: a page button, then repeatedly either the button of
      the next page, or an ellipsis followed by the button of a later page,
      the skipped pages including current - 3 or current + 3. So, with
      Increasing, exactly one ellipsis marks each run of hidden pages and
      none appears anywhere else. */
  predicate GapsMarked(current: int, items: seq<Item>)
    decreases |items|
  {
    if |items| == 0 then true
    else if |items| == 1 then items[0].Page?
    else
      && items[0].Page?
      && if items[1].Page? then
           items[1].n == items[0].n + 1 && GapsMarked(current, items[1..])
         else
           && |items| >= 3 && items[2].Page?
           && (items[0].n < current - 3 < items[2].n || items[0].n < current + 3 < items[2].n)
           && GapsMarked(current, items[2..])
  }

  /** A run of buttons may be put in front of a marked bar that continues
      from its last page. */
  lemma {:induction false} RunThen(c: int, lo: int, hi: int, tail: seq<Item>)
    requires lo <= hi
    requires GapsMarked(c, [Page(hi)] + tail)
    ensures GapsMarked(c, Run(lo, hi) + tail)
    decreases hi - lo
  {
    if lo < hi {
      RunThen(c, lo + 1, hi, tail);
      var rest := Run(lo + 1, hi) + tail;
      assert rest[0] == Page(lo + 1);
      assert (Run(lo, hi) + tail) == [Page(lo)] + rest;
      assert ([Page(lo)] + rest)[1..] == rest;
    } else {
      assert Run(lo, hi) == [Page(hi)];
    }
  }

  lemma WindowGaps(current: int, totalPages: int)
    requires 1 <= current <= totalPages
    ensures GapsMarked(current, Window(current, totalPages))
  {
    var c, t := current, totalPages;
    var lo, hi := Lo(c), Hi(c, t);
    var tail := if hi < t - 1 then [Ellipsis, Page(t)] else if hi < t then [Page(t)] else [];
    assert GapsMarked(c, [Page(hi)] + tail) by {
      var w := [Page(hi)] + tail;
      if hi < t - 1 {
        assert w[2..] == [Page(t)];
      } else if hi < t {
        assert w[1..] == [Page(t)];
      }
    }
    RunThen(c, lo, hi, tail);
    var mid := Run(lo, hi) + tail;
    assert Run(lo, hi) + tail == mid;
    assert mid[0] == Page(lo);
    if lo > 2 {
      assert Window(c, t) == [Page(1), Ellipsis] + mid;
      assert ([Page(1), Ellipsis] + mid)[2..] == mid;
    } else if lo > 1 {
      assert Window(c, t) == [Page(1)] + mid;
      assert ([Page(1)] + mid)[1..] == mid;
    } else {
      assert Window(c, t) == mid;
    }
  }

  /** Page buttons of a bar whose current page is in range: sorted,
      within [1, totalPages], and with every gap marked by one ellipsis
      that stands for page current - 3 or current + 3. */
  lemma PageItemsGaps(current: int, totalPages: int)
    requires 1 <= current <= totalPages
    ensures GapsMarked(current, PageItems(current, totalPages))
  {
    PageItemsIsWindow(current, totalPages);
    WindowGaps(current, totalPages);
  }

  // -----------------------------------------------------------------------
  // goToPage and the bar around the window

  /** The `goToPage` guard: pages outside [1, totalPages] are ignored. */
  predicate Accepts(totalPages: int, p: int) {
    1 <= p <= totalPages
  }

  datatype Nav = Nav(page: int, reload: bool)

  /** `goToPage(p)`: the page to show next and whether a reload starts. */
  function GoToPage(current: int, totalPages: int, p: int): (r: Nav)
    ensures r.reload <==> Accepts(totalPages, p)
    ensures r.reload ==> r.page == p
    ensures !r.reload ==> r.page == current
  {
    if p < 1 || p > totalPages then Nav(current, false) else Nav(p, true)
  }

  /** The page-state invariant 1 <= current <= max(totalPages, 1). */
  predicate InRange(current: int, totalPages: int) {
    1 <= current && (current <= totalPages || current == 1)
  }

  lemma GoToPageKeepsRange(current: int, totalPages: int, p: int)
    requires InRange(current, totalPages)
    ensures InRange(GoToPage(current, totalPages, p).page, totalPages)
  {
  }

  /** Previous, the page items, Next. A disabled button does nothing; an
      enabled one calls `goToPage` with its target. */
  datatype Bar = Bar(prevDisabled: bool, prevTarget: int, items: seq<Item>, nextDisabled: bool, nextTarget: int)

  function MakeBar(current: int, totalPages: int): (b: Bar)
    ensures b.prevDisabled <==> current == 1
    ensures b.nextDisabled <==> current == totalPages
    ensures b.items == PageItems(current, totalPages)
    ensures b.prevTarget == current - 1 && b.nextTarget == current + 1
    ensures 1 <= current <= totalPages ==>
      (!b.prevDisabled ==> Accepts(totalPages, b.prevTarget))
      && (!b.nextDisabled ==> Accepts(totalPages, b.nextTarget))
      && (forall k :: 0 <= k < |b.items| && b.items[k].Page? ==> Accepts(totalPages, b.items[k].n))
  {
    Bar(current == 1, current - 1, PageItems(current, totalPages), current == totalPages, current + 1)
  }

  /** Previous and Next are inverse moves: from any page after the first,
      Previous goes one page back, and Next on that page comes back; and
      from any page before the last, Next goes one page on. */
  lemma PrevThenNext(current: int, totalPages: int)
    requires 1 <= current <= totalPages
    ensures var b := MakeBar(current, totalPages);
      && (!b.prevDisabled ==>
            var back := GoToPage(current, totalPages, b.prevTarget);
            back == Nav(current - 1, true)
            && GoToPage(back.page, totalPages, MakeBar(back.page, totalPages).nextTarget) == Nav(current, true))
      && (!b.nextDisabled ==> GoToPage(current, totalPages, b.nextTarget) == Nav(current + 1, true))
  {
  }

  /** The bar of the guarded copies: nothing at all when there are no
      records or at most one page. */
  function GuardedBar(current: int, totalRecords: int, totalPages: int): (r: Option<Bar>)
    ensures r.None? <==> totalRecords == 0 || totalPages <= 1
    ensures r.Some? ==> r.value == MakeBar(current, totalPages)
  {
    if totalRecords == 0 || totalPages <= 1 then None else Some(MakeBar(current, totalPages))
  }

  // -----------------------------------------------------------------------
  // "showing start-end"

  datatype Span = Span(start: int, end: int)

  function Min(a: int, b: int): int { if a <= b then a else b }

  /** The guarded range: start is 0 for an empty list. */
  function Range(current: int, pageSize: nat, totalRecords: nat): (r: Span)
    requires pageSize > 0
    ensures totalRecords == 0 ==> r.start == 0
    ensures totalRecords == 0 && current >= 0 ==> r == Span(0, 0)
    ensures totalRecords > 0 ==> r == RangeUnguarded(current, pageSize, totalRecords)
  {
    var start := if totalRecords > 0 then (current - 1) * pageSize + 1 else 0;
    Span(start, Min(current * pageSize, totalRecords))
  }

  /** The range of the copy without the empty-list guard. */
  function RangeUnguarded(current: int, pageSize: nat, totalRecords: nat): (r: Span)
    requires pageSize > 0
    ensures r.end <= totalRecords
    ensures current >= 1 ==> r.start >= 1
  {
    Span((current - 1) * pageSize + 1, Min(current * pageSize, totalRecords))
  }

  lemma MulMono(a: int, b: int, n: nat)
    requires a <= b
    ensures a * n <= b * n
  {
  }

  /** On a page in range of a non-empty list the range is a non-empty
      stretch of at most pageSize records, and it is exactly the records
      that belong to the current page: record j sits on page
      ceil(j / pageSize). */
  lemma RangeIsCurrentPage(current: int, pageSize: nat, totalRecords: nat)
    requires pageSize > 0 && totalRecords > 0
    requires 1 <= current <= CeilDiv(totalRecords, pageSize)
    ensures 1 <= Range(current, pageSize, totalRecords).start
    ensures Range(current, pageSize, totalRecords).start <= Range(current, pageSize, totalRecords).end
    ensures Range(current, pageSize, totalRecords).end - Range(current, pageSize, totalRecords).start + 1 <= pageSize
    ensures forall j :: 1 <= j <= totalRecords ==>
      (Range(current, pageSize, totalRecords).start <= j <= Range(current, pageSize, totalRecords).end
       <==> CeilDiv(j, pageSize) == current)
  {
    var r := Range(current, pageSize, totalRecords);
    var tp := CeilDiv(totalRecords, pageSize);
    MulMono(current - 1, tp - 1, pageSize);
    assert (current - 1) * pageSize < totalRecords;
    assert r.start == (current - 1) * pageSize + 1;
    assert current * pageSize == (current - 1) * pageSize + pageSize;
    forall j | 1 <= j <= totalRecords
      ensures r.start <= j <= r.end <==> CeilDiv(j, pageSize) == current
    {
      var q := CeilDiv(j, pageSize);
      if r.start <= j <= r.end {
        if q < current {
          MulMono(q, current - 1, pageSize);
        } else if q > current {
          MulMono(current, q - 1, pageSize);
        }
      } else if q == current {
        assert false;
      }
    }
  }

  /** On an empty list the guarded range reads "showing 0-0" on every
      page; without the guard it ends at 0 but starts after its end, and
      on the first page it reads "showing 1-0". */
  lemma UnguardedEmptyRange(current: int, pageSize: nat)
    requires pageSize > 0 && current >= 1
    ensures Range(current, pageSize, 0) == Span(0, 0)
    ensures RangeUnguarded(current, pageSize, 0).end == 0
    ensures RangeUnguarded(current, pageSize, 0).start > RangeUnguarded(current, pageSize, 0).end
    ensures current == 1 ==> RangeUnguarded(current, pageSize, 0) == Span(1, 0)
  {
  }
}
