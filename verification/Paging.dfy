/** The two paging orders: the in-memory repository filters and then pages,
    the SQL repository pages with 32-bit parameters and then filters. */
module Paging {
  import opened MachineInt

  /** Failed stands for a slice panic in Go or an error from the database. */
  datatype Page<+T> = Rows(rows: seq<T>) | Failed {
    /** This page followed by the ones after it. */
    function Then(later: Page<T>): Page<T> {
      if Rows? && later.Rows? then Rows(rows + later.rows) else Failed
    }
  }

  function Min(a: int, b: int): int {
    if a < b then a else b
  }

  function Filter<T>(s: seq<T>, keep: T -> bool): seq<T> {
    if s == [] then []
    else Filter(s[..|s| - 1], keep) + if keep(s[|s| - 1]) then [s[|s| - 1]] else []
  }

  // ---------- One page ----------

  /** Filtered results cut to offset and limit; a negative offset makes the slice expression panic. */
  function SlicePage<T>(results: seq<T>, offset: int, limit: int): Page<T> {
    if offset >= |results| then Rows([])
    else if offset < 0 then Failed
    else
      var rest := results[offset..];
      Rows(if 0 < limit < |rest| then rest[..limit] else rest)
  }

  const DEFAULT_LIMIT := 50

  function SqlLimit(limit: int): (l: int)
    ensures 0 < l <= MAX_INT32
  {
    if ToInt32(limit) <= 0 then DEFAULT_LIMIT else ToInt32(limit)
  }

  /** LIMIT and OFFSET over a fixed row order; PostgreSQL rejects a negative OFFSET. */
  function SqlPage<T>(list: seq<T>, offset: int, limit: int): Page<T> {
    var off := ToInt32(offset);
    if off < 0 then Failed
    else Rows(list[Min(off, |list|)..Min(off + SqlLimit(limit), |list|)])
  }

  /** The page is the window of at most limit results from the offset on, all of them if limit is not positive;
      an offset panics exactly if it is negative. */
  lemma SlicePageIsWindow<T>(results: seq<T>, offset: int, limit: int)
    ensures var page := SlicePage(results, offset, limit);
            && (page.Failed? <==> offset < 0)
            && (page.Rows? ==>
                  var left := if offset < |results| then |results| - offset else 0;
                  && |page.rows| == (if limit > 0 && limit < left then limit else left)
                  && forall i | 0 <= i < |page.rows| :: page.rows[i] == results[offset + i])
  {
  }

  /** Within int32 the SQL page is the same window, except that it holds 50 rows when no limit is given. */
  lemma SqlPageIsWindow<T>(list: seq<T>, offset: int, limit: int)
    requires -MAX_INT32 - 1 <= offset <= MAX_INT32 && -MAX_INT32 - 1 <= limit <= MAX_INT32
    ensures var page := SqlPage(list, offset, limit);
            && (page.Failed? <==> offset < 0)
            && page == SlicePage(list, offset, if limit > 0 then limit else 50)
  {
    SmallStays(offset);
    SmallStays(limit);
    hide ToInt32;
    if 0 <= offset < |list| {
      var rest, l := list[offset..], SqlLimit(limit);
      assert list[offset..Min(offset + l, |list|)] == rest[..Min(l, |rest|)];
    }
  }

  lemma SmallStays(x: int)
    requires -MAX_INT32 - 1 <= x <= MAX_INT32
    ensures ToInt32(x) == x
  {
  }

  // ---------- All pages ----------

  /** The pages at offset, offset + size, offset + 2*size, ... up to the end of the results. */
  function SlicePages<T>(results: seq<T>, offset: nat, size: int): Page<T>
    requires size > 0
    decreases |results| - offset
  {
    if offset >= |results| then Rows([])
    else SlicePage(results, offset, size).Then(SlicePages(results, offset + size, size))
  }

  function FilterPage<T>(p: Page<T>, keep: T -> bool): Page<T> {
    match p
    case Rows(rows) => Rows(Filter(rows, keep))
    case Failed => Failed
  }

  /** Likewise for the SQL repository, which filters each page after fetching it. */
  function SqlPages<T>(list: seq<T>, keep: T -> bool, offset: nat, size: int): Page<T>
    requires size > 0
    decreases |list| - offset
  {
    if offset >= |list| then Rows([])
    else FilterPage(SqlPage(list, offset, size), keep).Then(SqlPages(list, keep, offset + size, size))
  }

  /** Filter, then page: the pages of any size put together are the filtered results. */
  lemma {:induction false} SlicePagesPartition<T>(results: seq<T>, offset: nat, size: int)
    requires size > 0 && offset <= |results|
    ensures SlicePages(results, offset, size) == Rows(results[offset..])
    decreases |results| - offset
  {
    if offset + size < |results| {
      SlicePagesPartition(results, offset + size, size);
      assert results[offset..][..size] + results[offset + size..] == results[offset..];
    } else if offset < |results| {
      assert SlicePages(results, offset + size, size) == Rows([]);
    }
  }

  lemma {:induction false} FilterAppend<T>(xs: seq<T>, ys: seq<T>, keep: T -> bool)
    ensures Filter(xs + ys, keep) == Filter(xs, keep) + Filter(ys, keep)
  {
    if ys == [] {
      assert xs + ys == xs;
    } else {
      assert (xs + ys)[..|xs + ys| - 1] == xs + ys[..|ys| - 1];
      FilterAppend(xs, ys[..|ys| - 1], keep);
    }
  }

  /** The last offset that a client asks for. */
  function LastOffset(length: nat, offset: nat, size: int): (last: nat)
    requires size > 0
    ensures offset <= last
    decreases length - offset
  {
    if offset + size >= length then offset else LastOffset(length, offset + size, size)
  }

  lemma EmptyFilter<T>(keep: T -> bool)
    ensures Filter([], keep) == []
  {
  }

  lemma SqlPageWithinInt32<T>(list: seq<T>, offset: int, size: int)
    requires 0 < size <= MAX_INT32 && 0 <= offset <= MAX_INT32 && offset < |list|
    ensures SqlPage(list, offset, size) == Rows(list[offset..Min(offset + size, |list|)])
  {
  }

  lemma {:induction false} SqlPagesWithinInt32<T>(list: seq<T>, keep: T -> bool, offset: nat, size: int)
    requires 0 < size <= MAX_INT32 && offset <= |list| && LastOffset(|list|, offset, size) <= MAX_INT32
    ensures SqlPages(list, keep, offset, size) == Rows(Filter(list[offset..], keep))
    decreases |list| - offset
  {
    hide SqlPage, Filter;
    if offset < |list| {
      var page := list[offset..Min(offset + size, |list|)];
      SqlPageWithinInt32(list, offset, size);
      if offset + size < |list| {
        SqlPagesWithinInt32(list, keep, offset + size, size);
        FilterAppend(page, list[offset + size..], keep);
        assert page + list[offset + size..] == list[offset..];
      } else {
        assert SqlPages(list, keep, offset + size, size) == Rows([]);
        assert page == list[offset..] && Filter(page, keep) + [] == Filter(page, keep);
      }
    } else {
      EmptyFilter(keep);
      assert list[offset..] == [];
    }
  }

  /** What a caller can check: the page size and every offset survive int32, or one page holds all. */
  predicate SqlPagesCover(length: nat, size: int)
    requires size > 0
  {
    (size <= MAX_INT32 && LastOffset(length, 0, size) <= MAX_INT32) || length <= SqlLimit(size)
  }

  /** Page, then filter: under that condition the possibly short pages put together are the filtered list. */
  lemma SqlPagesPartition<T>(list: seq<T>, keep: T -> bool, size: int)
    requires size > 0 && SqlPagesCover(|list|, size)
    ensures SqlPages(list, keep, 0, size) == Rows(Filter(list, keep))
  {
    assert list[0..] == list;
    if size <= MAX_INT32 && LastOffset(|list|, 0, size) <= MAX_INT32 {
      SqlPagesWithinInt32(list, keep, 0, size);
    } else {
      LimitWithinSize(size);
      assert SqlPage(list, 0, size) == Rows(list);
      assert SqlPages(list, keep, size, size) == Rows([]);
    }
  }

  lemma LimitWithinSize(size: int)
    requires size > 0
    ensures size <= MAX_INT32 ==> SqlLimit(size) == size
    ensures size > MAX_INT32 ==> 2 * SqlLimit(size) <= size
  {
  }

  /** An offset past the int32 range turns negative, and the query fails. */
  lemma {:induction false} OffsetOverflow<T>(list: seq<T>, keep: T -> bool, offset: nat, size: int)
    requires 0 < size <= MAX_INT32 && offset <= 2 * MAX_INT32 && offset < |list|
    requires LastOffset(|list|, offset, size) > MAX_INT32
    ensures SqlPages(list, keep, offset, size) == Failed
    decreases |list| - offset
  {
    if offset <= MAX_INT32 {
      OffsetOverflow(list, keep, offset + size, size);
    } else {
      assert ToInt32(offset) < 0;
    }
  }

  lemma {:induction false} FilterIsShorter<T>(s: seq<T>, keep: T -> bool)
    ensures |Filter(s, keep)| <= |s|
    ensures (forall x <- s :: keep(x)) ==> Filter(s, keep) == s
  {
    if s != [] {
      var front, last := s[..|s| - 1], s[|s| - 1];
      FilterIsShorter(front, keep);
      assert last in s && forall x <- front :: x in s;
      assert s == front + [last];
      assert Filter(s, keep) == Filter(front, keep) + if keep(last) then [last] else [];
      hide Filter;
    }
  }

  /** A page size past the int32 range fetches at most half of what each step skips. */
  lemma {:induction false} HalfPages<T>(list: seq<T>, keep: T -> bool, offset: nat, size: int)
    requires size > MAX_INT32 && offset < |list|
    ensures var p := SqlPages(list, keep, offset, size);
            && (p.Rows? ==> 2 * |p.rows| < |list| - offset + size)
            && (p.Rows? && |list| - offset <= size ==> |p.rows| <= SqlLimit(size))
    decreases |list| - offset
  {
    LimitWithinSize(size);
    var page := SqlPage(list, offset, size);
    if page.Rows? {
      FilterIsShorter(page.rows, keep);
      if offset + size < |list| {
        HalfPages(list, keep, offset + size, size);
      } else {
        assert SqlPages(list, keep, offset + size, size) == Rows([]);
      }
    }
  }

  /** Outside that condition rows are lost or the query fails: with nothing filtered out, paging yields
      the whole list exactly under it. */
  lemma SqlPagesExactly<T>(list: seq<T>, size: int)
    requires size > 0
    ensures SqlPages(list, _ => true, 0, size) == Rows(list) <==> SqlPagesCover(|list|, size)
  {
    var keep := (x: T) => true;
    if SqlPagesCover(|list|, size) {
      SqlPagesPartition(list, keep, size);
      FilterIsShorter(list, keep);
    } else if size <= MAX_INT32 {
      OffsetOverflow(list, keep, 0, size);
    } else {
      HalfPages(list, keep, 0, size);
    }
  }

  /** A page size of 2^32 + 1 reaches the database as LIMIT 1: of two rows only the first is ever shown. */
  lemma HugePagesLoseRows<T>(first: T, second: T)
    ensures SqlPages([first, second], _ => true, 0, TWO_TO_32 + 1) == Rows([first])
  {
    var list, keep, size := [first, second], (x: T) => true, TWO_TO_32 + 1;
    assert SqlLimit(size) == 1;
    assert SqlPage(list, 0, size) == Rows([first]);
    assert Filter([first], keep) == [first];
    assert SqlPages(list, keep, size, size) == Rows([]);
  }
}
