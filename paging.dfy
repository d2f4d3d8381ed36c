/**
 * PagedResponse.of: the page envelope and its derived navigation flags.
 *
 * The page count is `(int) Math.ceil((double) totalElements / size)`. The
 * quotient is taken exactly here; the `(int)` cast of a double saturates
 * (section 5.1.3 of the Java Language Specification): NaN becomes 0, and
 * values beyond the int range become the nearest bound. So a zero size
 * gives 0 for no elements and Integer.MAX_VALUE (or MIN_VALUE) otherwise.
 * `totalPages - 1` in the flags is int arithmetic and wraps at MIN_VALUE.
 */
module Paging {
  import Numbers

  datatype PagedResponse<T> = PagedResponse(
    content: seq<T>,
    page: int,
    size: int,
    totalElements: int,
    totalPages: int,
    first: bool,
    last: bool,
    hasNext: bool,
    hasPrevious: bool)

  /** The least q with a <= q * b: Math.ceil(a / b) for a positive b. */
  function CeilDiv(a: int, b: int): (q: int)
    requires b > 0
    ensures (q - 1) * b < a <= q * b
  {
    CeilDivBounds(a, b);
    -((-a) / b)
  }

  lemma CeilDivBounds(a: int, b: int)
    requires b > 0
    ensures (-((-a) / b) - 1) * b < a <= -((-a) / b) * b
  {
    var f := (-a) / b;
    assert f * b <= -a < f * b + b;
    assert (-f - 1) * b == -(f * b) - b;
    assert -f * b == -(f * b);
  }

  /** The ceiling is the only integer with that bracketing. */
  lemma CeilDivUnique(a: int, b: int, q: int)
    requires b > 0 && (q - 1) * b < a <= q * b
    ensures q == CeilDiv(a, b)
  {
    var c := CeilDiv(a, b);
    CancelFactor(q - 1, c, b);
    CancelFactor(c - 1, q, b);
  }

  lemma CancelFactor(x: int, y: int, b: int)
    requires b > 0 && x * b < y * b
    ensures x < y
  {
    assert (y - x) * b > 0;
  }

  lemma MulMonotone(x: int, y: int, b: int)
    requires b > 0 && x <= y
    ensures x * b <= y * b
  {
    assert y * b - x * b == (y - x) * b;
  }

  /** The `(int)` cast of a double that holds an integer value: saturation at the int bounds. */
  function SaturateInt32(x: int): (r: int)
    ensures Numbers.INT32_MIN <= r <= Numbers.INT32_MAX
    ensures Numbers.INT32_MIN <= x <= Numbers.INT32_MAX ==> r == x
    ensures x > Numbers.INT32_MAX ==> r == Numbers.INT32_MAX
    ensures x < Numbers.INT32_MIN ==> r == Numbers.INT32_MIN
  {
    if x > Numbers.INT32_MAX then Numbers.INT32_MAX
    else if x < Numbers.INT32_MIN then Numbers.INT32_MIN
    else x
  }

  /**
   * `(int) Math.ceil((double) totalElements / size)`. A non-zero size gives
   * the ceiling of the exact quotient, saturated; a zero size gives the
   * cast of NaN (0) or of an infinity (a bound).
   */
  function PageCount(totalElements: int, size: int): (n: int)
    ensures Numbers.INT32_MIN <= n <= Numbers.INT32_MAX
    ensures size > 0 && (Numbers.INT32_MIN - 1) * size < totalElements <= Numbers.INT32_MAX * size
            ==> (n - 1) * size < totalElements <= n * size
    ensures size > 0 && totalElements > Numbers.INT32_MAX * size ==> n == Numbers.INT32_MAX
    ensures size > 0 && totalElements <= (Numbers.INT32_MIN - 1) * size ==> n == Numbers.INT32_MIN
    ensures size < 0 ==> n == PageCount(-totalElements, -size)
    ensures size == 0 ==> (n == 0 <==> totalElements == 0)
    ensures size == 0 && totalElements > 0 ==> n == Numbers.INT32_MAX
    ensures size == 0 && totalElements < 0 ==> n == Numbers.INT32_MIN
    decreases if size < 0 then 1 else 0
  {
    if size == 0 then
      (if totalElements > 0 then Numbers.INT32_MAX else if totalElements < 0 then Numbers.INT32_MIN else 0)
    else if size < 0 then
      PageCount(-totalElements, -size)
    else
      var q := CeilDiv(totalElements, size);
      SaturationBounds(totalElements, size, q);
      SaturateInt32(q)
  }

  /** Where the ceiling leaves the int range, in terms of the numerator. */
  lemma SaturationBounds(a: int, b: int, q: int)
    requires b > 0 && (q - 1) * b < a <= q * b
    ensures q > Numbers.INT32_MAX <==> a > Numbers.INT32_MAX * b
    ensures q < Numbers.INT32_MIN <==> a <= (Numbers.INT32_MIN - 1) * b
  {
    if q > Numbers.INT32_MAX {
      MulMonotone(Numbers.INT32_MAX, q - 1, b);
    } else {
      MulMonotone(q, Numbers.INT32_MAX, b);
    }
    if q < Numbers.INT32_MIN {
      MulMonotone(q, Numbers.INT32_MIN - 1, b);
    } else {
      MulMonotone(Numbers.INT32_MIN - 1, q - 1, b);
    }
  }

  /** PagedResponse.of(content, page, size, totalElements). */
  function Of<T>(content: seq<T>, page: int, size: int, totalElements: int): (r: PagedResponse<T>)
    ensures r.content == content && r.page == page && r.size == size && r.totalElements == totalElements
    ensures r.totalPages == PageCount(totalElements, size)
    ensures r.first <==> page == 0
    ensures r.hasPrevious <==> page > 0
    ensures r.hasNext <==> !r.last
    ensures r.totalPages > Numbers.INT32_MIN ==> (r.last <==> page >= r.totalPages - 1)
    ensures r.totalPages == Numbers.INT32_MIN ==> (r.last <==> page >= Numbers.INT32_MAX)
    ensures size > 0 && Numbers.INT32_MIN * size < totalElements <= Numbers.INT32_MAX * size
            ==> (r.last <==> (page + 1) * size >= totalElements)
  {
    var totalPages := PageCount(totalElements, size);
    var lastIndex := Numbers.WrapInt32(totalPages - 1) as int;
    assert totalPages == Numbers.INT32_MIN ==> lastIndex == Numbers.INT32_MAX;
    InRangeLast(page, size, totalElements);
    PagedResponse(content, page, size, totalElements, totalPages,
      page == 0, page >= lastIndex, page < lastIndex, page > 0)
  }

  /** Within the int range the count is never MIN_VALUE, and the last flag means no element lies beyond the page. */
  lemma InRangeLast(page: int, size: int, total: int)
    ensures size > 0 && Numbers.INT32_MIN * size < total <= Numbers.INT32_MAX * size
            ==> PageCount(total, size) > Numbers.INT32_MIN
                && (page >= PageCount(total, size) - 1 <==> (page + 1) * size >= total)
  {
    if size > 0 && Numbers.INT32_MIN * size < total <= Numbers.INT32_MAX * size {
      var n := PageCount(total, size);
      MulMonotone(Numbers.INT32_MIN - 1, Numbers.INT32_MIN, size);
      LastMeansNoMoreElements(page, size, total, n);
    }
  }

  lemma LastMeansNoMoreElements(page: int, size: int, total: int, totalPages: int)
    requires size > 0 && (totalPages - 1) * size < total <= totalPages * size
    ensures page >= totalPages - 1 <==> (page + 1) * size >= total
  {
    if page >= totalPages - 1 {
      MulMonotone(totalPages, page + 1, size);
    } else {
      MulMonotone(page + 1, totalPages - 1, size);
    }
  }

  /** An empty result has no pages whatever the size, zero included, and every non-negative page is the last one. */
  lemma EmptyResult<T>(content: seq<T>, page: int, size: int)
    requires page >= 0
    ensures Of(content, page, size, 0).totalPages == 0
    ensures Of(content, page, size, 0).last && !Of(content, page, size, 0).hasNext
  {
    if size > 0 {
      CeilDivUnique(0, size, 0);
    } else if size < 0 {
      CeilDivUnique(0, -size, 0);
    }
  }

  /** A zero size with elements divides by zero into +Infinity, which the cast turns into Integer.MAX_VALUE. */
  lemma ZeroSizeSaturates<T>(content: seq<T>, page: int, totalElements: int)
    requires totalElements > 0
    ensures Of(content, page, 0, totalElements).totalPages == Numbers.INT32_MAX
    ensures Of(content, page, 0, totalElements).last <==> page >= Numbers.INT32_MAX - 1
  {
  }

  /** A full page count: totalElements a multiple of size gives exactly that many pages, within the int range. */
  lemma ExactPages<T>(content: seq<T>, page: int, size: int, pages: int)
    requires size > 0 && Numbers.INT32_MIN <= pages <= Numbers.INT32_MAX
    ensures Of(content, page, size, pages * size).totalPages == pages
  {
    CeilDivUnique(pages * size, size, pages);
  }
}
