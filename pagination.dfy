/**
 * The pagination of the symbol listing: the defaults and bounds of a listing request, the
 * offset the repository query skips, the number of the last page, and the window of rows a
 * page shows.
 */
module Pagination {
  import opened Wrappers

  const DefaultPage: int := 1
  const DefaultCount: int := 10
  const MaxCount: int := 100

  /** The body of a listing request; an omitted field is `None`. */
  datatype PaginationDto = PaginationDto(page: Option<int>, count: Option<int>)

  /**
   * The bounds validation enforces on a page and a count given as numbers: a page of at least 1
   * and a count from 1 to 100. An explicit `null` skips these checks as an omitted field does,
   * but is not represented here: `None` is an omitted field.
   */
  predicate IsValid(dto: PaginationDto) {
    && (dto.page.Some? ==> dto.page.value >= 1)
    && (dto.count.Some? ==> 1 <= dto.count.value <= MaxCount)
  }

  /** The page asked for, 1 when omitted. */
  function PageOf(dto: PaginationDto): (page: int)
    requires IsValid(dto)
    ensures page >= 1
    ensures dto.page.None? ==> page == DefaultPage
    ensures dto.page.Some? ==> page == dto.page.value
  {
    match dto.page
    case None => DefaultPage
    case Some(p) => p
  }

  /** The page size asked for, 10 when omitted. */
  function CountOf(dto: PaginationDto): (count: int)
    requires IsValid(dto)
    ensures 1 <= count <= MaxCount
    ensures dto.count.None? ==> count == DefaultCount
    ensures dto.count.Some? ==> count == dto.count.value
  {
    match dto.count
    case None => DefaultCount
    case Some(c) => c
  }

  /** The number of rows before page `page`: `(page - 1) * count`. */
  function Skip(page: int, count: int): nat
    requires page >= 1 && count >= 1
  {
    (page - 1) * count
  }

  /** `Math.ceil(total / count)`: the fewest pages of `count` rows that hold `total` rows. */
  function LastPage(total: nat, count: int): nat
    requires count >= 1
  {
    (total + count - 1) / count
  }

  /** `LastPage` is the ceiling of `total / count`: 0 for no rows, else the pages just hold them. */
  lemma LastPageIsCeiling(total: nat, count: int)
    requires count >= 1
    ensures total == 0 ==> LastPage(total, count) == 0
    ensures total > 0 ==> (LastPage(total, count) - 1) * count < total <= LastPage(total, count) * count
  {
    var q, r := (total + count - 1) / count, (total + count - 1) % count;
    assert total + count - 1 == q * count + r;
    assert (q - 1) * count == q * count - count;
  }

  /**
   * `s[skip..skip + take]`, cut at the end of `s`: the rows a query with `skip` and `take`
   * returns from the ordered rows `s`.
   */
  function Window<T>(s: seq<T>, skip: nat, take: nat): (w: seq<T>)
    ensures |w| == if skip >= |s| then 0 else if skip + take <= |s| then take else |s| - skip
    ensures forall i :: 0 <= i < |w| ==> w[i] == s[skip + i]
  {
    if skip >= |s| then [] else if skip + take <= |s| then s[skip..skip + take] else s[skip..]
  }

  /** A page shows rows exactly when its number is at most the last page's. */
  lemma PageNonEmptyIff<T>(s: seq<T>, page: int, count: int)
    requires page >= 1 && count >= 1
    ensures |Window(s, Skip(page, count), count)| > 0 <==> page <= LastPage(|s|, count)
  {
    var last := LastPage(|s|, count);
    LastPageIsCeiling(|s|, count);
    if page <= last {
      assert (page - 1) * count <= (last - 1) * count;
    } else {
      assert last * count <= (page - 1) * count;
    }
  }

  /**
   * Every row appears on some page: the row at index `k` of the ordered rows is row `k % count`
   * of page `k / count + 1`, and that page is not past the last.
   */
  lemma RowOnItsPage<T>(s: seq<T>, count: int, k: nat) returns (page: int, pos: nat)
    requires count >= 1 && k < |s|
    ensures page == k / count + 1 && pos == k % count
    ensures 1 <= page <= LastPage(|s|, count)
    ensures pos < |Window(s, Skip(page, count), count)| && Window(s, Skip(page, count), count)[pos] == s[k]
  {
    page, pos := k / count + 1, k % count;
    assert Skip(page, count) + pos == k;
    PageNonEmptyIff(s, page, count);
  }
}
