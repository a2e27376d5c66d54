/**
 * The page numbers visited by the loop of `PdfHelper.GetPagesBitmapsFromPdf`,
 * which counts up from the start page while the page exists and lies below
 * the start plus the number of pages to take, that sum being computed in
 * 32-bit `int` arithmetic.
 */
module PageRange {
  import opened DotNet

  function Min(a: int, b: int): int { if a <= b then a else b }
  function Max(a: int, b: int): int { if a <= b then b else a }

  /** The loop's exclusive upper bound `startPage + pagesToTake`, wrapped to `int`. */
  function LoopBound(startPage: Int32, pagesToTake: Int32): (bound: Int32)
    ensures IntMin <= startPage + pagesToTake <= IntMax ==> bound == startPage + pagesToTake
  {
    Wrap32(startPage + pagesToTake)
  }

  /** The pages the loop visits, in the order it visits them. */
  function VisitedPages(startPage: Int32, pagesToTake: Int32, pageCount: int): (pages: seq<int>)
    ensures forall i :: 0 <= i < |pages| ==> pages[i] == startPage + i
  {
    var stop := Min(pageCount + 1, LoopBound(startPage, pagesToTake));
    seq(Max(0, stop - startPage), i => startPage + i)
  }

  /**
   * A page is visited exactly when it passes the loop condition and is not
   * below the start, and the visits are in strictly ascending order.
   */
  lemma VisitedPagesMatchLoopCondition(startPage: Int32, pagesToTake: Int32, pageCount: int)
    ensures forall p :: p in VisitedPages(startPage, pagesToTake, pageCount) <==>
      startPage <= p && p <= pageCount && p < LoopBound(startPage, pagesToTake)
    ensures var pages := VisitedPages(startPage, pagesToTake, pageCount);
      forall i, j :: 0 <= i < j < |pages| ==> pages[i] < pages[j]
  {
    var pages := VisitedPages(startPage, pagesToTake, pageCount);
    forall p | startPage <= p && p <= pageCount && p < LoopBound(startPage, pagesToTake)
      ensures p in pages
    {
      assert pages[p - startPage] == p;
    }
  }

  /**
   * Without overflow, the visited pages are exactly `startPage, …,
   * min(pageCount, startPage + pagesToTake - 1)`, one per page.
   */
  lemma VisitedPagesWithoutOverflow(startPage: Int32, pagesToTake: Int32, pageCount: int)
    requires IntMin <= startPage + pagesToTake <= IntMax
    ensures var pages := VisitedPages(startPage, pagesToTake, pageCount);
      && |pages| == Max(0, Min(pageCount, startPage + pagesToTake - 1) - startPage + 1)
      && forall p :: p in pages <==> startPage <= p <= Min(pageCount, startPage + pagesToTake - 1)
  {
    VisitedPagesMatchLoopCondition(startPage, pagesToTake, pageCount);
  }

  /**
   * A start beyond the last page visits nothing, and so does a
   * non-positive number of pages to take whose sum with the start does not
   * wrap around.
   */
  lemma EmptyRanges(startPage: Int32, pagesToTake: Int32, pageCount: int)
    ensures startPage > pageCount ==> VisitedPages(startPage, pagesToTake, pageCount) == []
    ensures pagesToTake <= 0 && IntMin <= startPage + pagesToTake ==>
      VisitedPages(startPage, pagesToTake, pageCount) == []
  {
  }

  /**
   * When `startPage + pagesToTake` overflows `int` (for instance start 1
   * and `int.MaxValue` pages), the bound wraps to a negative number and no
   * page is visited at all.
   */
  lemma OverflowVisitsNothing(startPage: Int32, pagesToTake: Int32, pageCount: int)
    requires startPage >= 1 && startPage + pagesToTake > IntMax
    ensures VisitedPages(startPage, pagesToTake, pageCount) == []
  {
    assert LoopBound(startPage, pagesToTake) < 0;
  }

  /**
   * When `startPage + pagesToTake` falls below `int.MinValue`, the bound
   * wraps to a large positive number: the loop visits pages from the
   * (negative) start up to `min(pageCount, startPage + pagesToTake + 2^32 - 1)`.
   */
  lemma NegativeOverflowVisitsFromStart(startPage: Int32, pagesToTake: Int32, pageCount: int)
    requires startPage + pagesToTake < IntMin
    ensures var pages := VisitedPages(startPage, pagesToTake, pageCount);
      && LoopBound(startPage, pagesToTake) == startPage + pagesToTake + 0x1_0000_0000
      && |pages| == Max(0, Min(pageCount, startPage + pagesToTake + 0x1_0000_0000 - 1) - startPage + 1)
      && forall p :: p in pages <==> startPage <= p <= Min(pageCount, startPage + pagesToTake + 0x1_0000_0000 - 1)
  {
    VisitedPagesMatchLoopCondition(startPage, pagesToTake, pageCount);
  }

  /** The range `Function1.Run` asks for, start 1 and all pages, is every page in order. */
  lemma FullRange(pageCount: int)
    requires 0 <= pageCount < IntMax
    ensures var pages := VisitedPages(1, pageCount, pageCount);
      |pages| == pageCount && forall i :: 0 <= i < pageCount ==> pages[i] == i + 1
  {
  }
}
