/**
 * The result table: a case-insensitive search over every cell, a click-to-sort
 * comparator that puts missing cells last, and pagination over the filtered,
 * sorted rows. The five pieces of view state live in `Table`, whose handlers
 * update them in place.
 */
module DataTable {
  import opened Text
  import opened Values
  import opened Sequences

  datatype Direction = Asc | Desc

  /** The sizes the "Rows per page" selector offers. */
  const PageSizes: seq<nat> := [25, 50, 100, 500]
  const DefaultPageSize: nat := 25

  // ---------------------------------------------------------------------------
  // Search

  /** Some cell of the row, shown as a string and lower-cased, contains the lower-cased term. */
  predicate MatchesSearch(row: Row, term: string, fmt: real -> string) {
    exists c | c in row :: Contains(ToLower(Display(row, c, fmt)), ToLower(term))
  }

  function SearchFn(term: string, fmt: real -> string): Row -> bool {
    (row: Row) => MatchesSearch(row, term, fmt)
  }

  function Search(rows: seq<Row>, term: string, fmt: real -> string): seq<Row> {
    Filter(SearchFn(term, fmt), rows)
  }

  /** The search keeps exactly the matching rows, in their original order. */
  lemma SearchKeepsMatchingRowsInOrder(rows: seq<Row>, term: string, fmt: real -> string)
    ensures IsSubsequence(Search(rows, term, fmt), rows)
    ensures forall r :: r in Search(rows, term, fmt) <==> r in rows && MatchesSearch(r, term, fmt)
    ensures forall r :: multiset(Search(rows, term, fmt))[r]
                          == if MatchesSearch(r, term, fmt) then multiset(rows)[r] else 0
  {
    FilterIsSubsequence(SearchFn(term, fmt), rows);
    FilterMultiset(SearchFn(term, fmt), rows);
  }

  /**
   * The empty term is contained in every string, so it matches every row that
   * has at least one cell; a row with no cells at all has no value to match.
   */
  lemma EmptySearchTerm(rows: seq<Row>, fmt: real -> string)
    ensures forall r :: MatchesSearch(r, "", fmt) <==> r != map[]
    ensures (forall i :: 0 <= i < |rows| ==> rows[i] != map[]) ==> Search(rows, "", fmt) == rows
  {
    forall r: Row ensures MatchesSearch(r, "", fmt) <==> r != map[] {
      if r != map[] {
        var c :| c in r;
        assert OccursAt(ToLower(Display(r, c, fmt)), "", 0);
      }
    }
    if forall i :: 0 <= i < |rows| ==> rows[i] != map[] {
      FilterAll(SearchFn("", fmt), rows);
    }
  }

  // ---------------------------------------------------------------------------
  // Sorting

  /**
   * The table's compare function on column `col`: a missing cell sorts after
   * everything (before the direction is applied), two numbers compare
   * numerically, and anything else compares as lower-cased strings by
   * `locale`, the result of `localeCompare`.
   */
  function Compare(a: Row, b: Row, col: string, dir: Direction,
                   locale: (string, string) -> int, fmt: real -> string): real
  {
    if col !in a then 1.0
    else if col !in b then -1.0
    else match (a[col], b[col])
      case (VNum(x), VNum(y)) => if dir == Asc then x - y else y - x
      case _ =>
        var c := locale(ToLower(Display(a, col, fmt)), ToLower(Display(b, col, fmt))) as real;
        if dir == Asc then c else -c
  }

  /** `a` may stay before `b`: the compare function is not positive, and two missing cells tie. */
  function TableOrder(col: string, dir: Direction, locale: (string, string) -> int,
                      fmt: real -> string): (Row, Row) -> bool
  {
    (a: Row, b: Row) => Compare(a, b, col, dir, locale, fmt) <= 0.0 || (col !in a && col !in b)
  }

  /** Every row either lacks `col` or holds a number there. */
  predicate NumericColumn(rows: seq<Row>, col: string) {
    forall i :: 0 <= i < |rows| ==> col !in rows[i] || rows[i][col].VNum?
  }

  /** On a numeric column the table's order is a total preorder, in either direction. */
  lemma NumericColumnPreorder(rows: seq<Row>, col: string, dir: Direction,
                              locale: (string, string) -> int, fmt: real -> string)
    requires NumericColumn(rows, col)
    ensures TotalPreorderOn(TableOrder(col, dir, locale, fmt), rows)
  {
  }

  /**
   * Between two present cells the direction only swaps the arguments: a
   * descending comparison is the ascending one read backwards, given that
   * `localeCompare` is antisymmetric on the two strings.
   */
  lemma DirectionFlips(a: Row, b: Row, col: string, locale: (string, string) -> int, fmt: real -> string)
    requires col in a && col in b
    requires var sa, sb := ToLower(Display(a, col, fmt)), ToLower(Display(b, col, fmt));
             locale(sb, sa) == -locale(sa, sb)
    ensures TableOrder(col, Desc, locale, fmt)(a, b) == TableOrder(col, Asc, locale, fmt)(b, a)
  {
  }

  /**
   * Whenever the compare function is a total preorder on the rows (as it is on
   * a column of strings under a consistent `localeCompare`, or on a numeric
   * column): the sorted rows are a permutation, ordered by the compare
   * function, every row lacking the column comes after every row that has it,
   * whichever the direction, and rows that compare equal keep their order.
   */
  lemma TableSort(rows: seq<Row>, col: string, dir: Direction,
                  locale: (string, string) -> int, fmt: real -> string)
    requires TotalPreorderOn(TableOrder(col, dir, locale, fmt), rows)
    ensures var r: seq<Row> := SortBy(TableOrder(col, dir, locale, fmt), rows);
            && multiset(r) == multiset(rows)
            && (forall i, j :: 0 <= i < j < |r| && col !in r[i] ==> col !in r[j])
    ensures SortedBy(TableOrder(col, dir, locale, fmt), SortBy(TableOrder(col, dir, locale, fmt), rows))
    ensures var le := TableOrder(col, dir, locale, fmt);
            forall y :: TotalPreorderOn(le, rows + [y]) ==> Same(le, y, SortBy(le, rows)) == Same(le, y, rows)
  {
    var le := TableOrder(col, dir, locale, fmt);
    SortByPermutes(le, rows);
    SortBySorted(le, rows);
    forall y | TotalPreorderOn(le, rows + [y]) ensures Same(le, y, SortBy(le, rows)) == Same(le, y, rows) {
      SortByStable(le, rows, y);
    }
  }

  /** Sorting a numeric column orders the numbers in the chosen direction and puts missing cells last. */
  lemma NumericSort(rows: seq<Row>, col: string, dir: Direction,
                    locale: (string, string) -> int, fmt: real -> string)
    requires NumericColumn(rows, col)
    ensures var r: seq<Row> := SortBy(TableOrder(col, dir, locale, fmt), rows);
            && multiset(r) == multiset(rows)
            && (forall i, j :: 0 <= i < j < |r| && col !in r[i] ==> col !in r[j])
            && NumericColumn(r, col)
            && (forall i, j :: 0 <= i < j < |r| && col in r[i] && col in r[j] ==>
                  if dir == Asc then r[i][col].n <= r[j][col].n else r[i][col].n >= r[j][col].n)
  {
    var le := TableOrder(col, dir, locale, fmt);
    var r: seq<Row> := SortBy(le, rows);
    SortByPermutes(le, rows);
    NumericColumnPreorder(rows, col, dir, locale, fmt);
    SortBySorted(le, rows);
    forall i | 0 <= i < |r| ensures col !in r[i] || r[i][col].VNum? {
      assert r[i] in r;
      assert r[i] in multiset(rows);
    }
  }

  /** The rows the table shows before paging: searched, then sorted when a column is chosen. */
  function FilteredAndSorted(rows: seq<Row>, term: string, sortColumn: Option<string>, dir: Direction,
                             locale: (string, string) -> int, fmt: real -> string): seq<Row>
  {
    var found := Search(rows, term, fmt);
    if sortColumn.Some? && sortColumn.value != "" then
      SortBy(TableOrder(sortColumn.value, dir, locale, fmt), found)
    else found
  }

  /** Without a sort column the view is the search result in table order; with one it is a rearrangement of it. */
  lemma ViewRearrangesSearch(rows: seq<Row>, term: string, sortColumn: Option<string>, dir: Direction,
                             locale: (string, string) -> int, fmt: real -> string)
    ensures var v := FilteredAndSorted(rows, term, sortColumn, dir, locale, fmt);
            multiset(v) == multiset(Search(rows, term, fmt))
    ensures sortColumn.None? ==> FilteredAndSorted(rows, term, sortColumn, dir, locale, fmt) == Search(rows, term, fmt)
  {
    if sortColumn.Some? && sortColumn.value != "" {
      SortByPermutes(TableOrder(sortColumn.value, dir, locale, fmt), Search(rows, term, fmt));
    }
  }

  // ---------------------------------------------------------------------------
  // Pagination

  /** `Math.ceil(n / pageSize)`: the fewest pages of `pageSize` rows that hold `n` rows. */
  function TotalPages(n: nat, pageSize: nat): (r: nat)
    requires pageSize > 0
    ensures n <= r * pageSize
    ensures r == 0 || (r - 1) * pageSize < n
  {
    var r := (n + pageSize - 1) / pageSize;
    DivBounds(n + pageSize - 1, pageSize);
    r
  }

  lemma DivBounds(m: nat, d: nat)
    requires d > 0
    ensures (m / d) * d <= m < (m / d) * d + d
  {
  }

  /** `data.slice(start, start + pageSize)` with `start = (page - 1) * pageSize`; slicing clamps to the length. */
  function Page(rows: seq<Row>, page: nat, pageSize: nat): (r: seq<Row>)
    requires page >= 1 && pageSize > 0
    ensures |r| <= pageSize
  {
    var start := (page - 1) * pageSize;
    var lo := if start < |rows| then start else |rows|;
    var hi := if start + pageSize < |rows| then start + pageSize else |rows|;
    rows[lo..hi]
  }

  /** Pages 1 to `k`, one after the other. */
  function PagesUpTo(rows: seq<Row>, k: nat, pageSize: nat): seq<Row>
    requires pageSize > 0
  {
    if k == 0 then [] else PagesUpTo(rows, k - 1, pageSize) + Page(rows, k, pageSize)
  }

  lemma {:induction false} PagesUpToPrefix(rows: seq<Row>, k: nat, pageSize: nat)
    requires pageSize > 0
    ensures var m := if k * pageSize < |rows| then k * pageSize else |rows|;
            PagesUpTo(rows, k, pageSize) == rows[..m]
  {
    if k > 0 {
      PagesUpToPrefix(rows, k - 1, pageSize);
      assert (k - 1) * pageSize + pageSize == k * pageSize;
    }
  }

  /** Reading pages 1 to `TotalPages` in turn gives back every row, in order. */
  lemma PagesCoverRows(rows: seq<Row>, pageSize: nat)
    requires pageSize > 0
    ensures PagesUpTo(rows, TotalPages(|rows|, pageSize), pageSize) == rows
  {
    PagesUpToPrefix(rows, TotalPages(|rows|, pageSize), pageSize);
  }

  /** The first row number in "Showing a to b of n". */
  function ShowingFrom(page: nat, pageSize: nat): nat
    requires page >= 1
  {
    (page - 1) * pageSize + 1
  }

  /** The last row number in "Showing a to b of n". */
  function ShowingTo(page: nat, pageSize: nat, n: nat): nat {
    if page * pageSize < n then page * pageSize else n
  }

  /** On a page that exists, "Showing a to b" names exactly the rows on it, and there is at least one. */
  lemma ShowingRangeIsThePage(rows: seq<Row>, page: nat, pageSize: nat)
    requires pageSize > 0 && 1 <= page <= TotalPages(|rows|, pageSize)
    ensures var a, b := ShowingFrom(page, pageSize), ShowingTo(page, pageSize, |rows|);
            1 <= a <= b <= |rows| && Page(rows, page, pageSize) == rows[a - 1..b]
  {
    assert (page - 1) * pageSize <= (TotalPages(|rows|, pageSize) - 1) * pageSize by {
      MulMonotone(page - 1, TotalPages(|rows|, pageSize) - 1, pageSize);
    }
    assert (page - 1) * pageSize + pageSize == page * pageSize;
  }

  lemma MulMonotone(a: nat, b: nat, c: nat)
    requires a <= b
    ensures a * c <= b * c
  {
  }

  // ---------------------------------------------------------------------------
  // View state

  class Table {
    var searchTerm: string
    var sortColumn: Option<string>
    var sortDirection: Direction
    var currentPage: nat
    var pageSize: nat

    /** The page is at least 1 and the page size one of the offered sizes. */
    ghost predicate Valid()
      reads this
    {
      currentPage >= 1 && pageSize in PageSizes
    }

    /** The initial state: no search, no sort column, ascending, page 1 of 25 rows. */
    constructor()
      ensures Valid()
      ensures searchTerm == "" && sortColumn == None && sortDirection == Asc
      ensures currentPage == 1 && pageSize == DefaultPageSize
    {
      searchTerm := "";
      sortColumn := None;
      sortDirection := Asc;
      currentPage := 1;
      pageSize := DefaultPageSize;
    }

    /** The filtered and sorted rows for `data`. */
    function Rows(data: seq<Row>, locale: (string, string) -> int, fmt: real -> string): seq<Row>
      reads this
    {
      FilteredAndSorted(data, searchTerm, sortColumn, sortDirection, locale, fmt)
    }

    function PageCount(data: seq<Row>, locale: (string, string) -> int, fmt: real -> string): nat
      reads this
      requires Valid()
    {
      TotalPages(|Rows(data, locale, fmt)|, pageSize)
    }

    /** The rows of the current page. */
    function PageRows(data: seq<Row>, locale: (string, string) -> int, fmt: real -> string): seq<Row>
      reads this
      requires Valid()
    {
      Page(Rows(data, locale, fmt), currentPage, pageSize)
    }

    /** The page controls are shown only when there is more than one page. */
    predicate ShowsPagination(data: seq<Row>, locale: (string, string) -> int, fmt: real -> string)
      reads this
      requires Valid()
    {
      PageCount(data, locale, fmt) > 1
    }

    /**
     * Clicking a column header: the same column toggles the direction, another
     * column becomes the sort column in ascending order; either way back to page 1.
     */
    method HandleSort(column: string)
      requires Valid()
      modifies this
      ensures Valid()
      ensures old(sortColumn) == Some(column) ==>
                sortColumn == Some(column) && sortDirection == (if old(sortDirection) == Asc then Desc else Asc)
      ensures old(sortColumn) != Some(column) ==> sortColumn == Some(column) && sortDirection == Asc
      ensures currentPage == 1
      ensures searchTerm == old(searchTerm) && pageSize == old(pageSize)
    {
      if sortColumn == Some(column) {
        sortDirection := if sortDirection == Asc then Desc else Asc;
      } else {
        sortColumn := Some(column);
        sortDirection := Asc;
      }
      currentPage := 1;
    }

    /** Choosing a page size from the selector; back to page 1. */
    method HandlePageSizeChange(newPageSize: nat)
      requires Valid() && newPageSize in PageSizes
      modifies this
      ensures Valid()
      ensures pageSize == newPageSize && currentPage == 1
      ensures searchTerm == old(searchTerm) && sortColumn == old(sortColumn) && sortDirection == old(sortDirection)
    {
      pageSize := newPageSize;
      currentPage := 1;
    }

    /** Typing in the search box changes the term and nothing else, not even the page. */
    method SetSearchTerm(term: string)
      requires Valid()
      modifies this
      ensures Valid()
      ensures searchTerm == term
      ensures sortColumn == old(sortColumn) && sortDirection == old(sortDirection)
      ensures currentPage == old(currentPage) && pageSize == old(pageSize)
    {
      searchTerm := term;
    }

    /** "Previous": one page back, never below page 1. */
    method PreviousPage(data: seq<Row>, locale: (string, string) -> int, fmt: real -> string)
      requires Valid() && ShowsPagination(data, locale, fmt)
      modifies this
      ensures Valid()
      ensures currentPage == if old(currentPage) > 1 then old(currentPage) - 1 else 1
      ensures old(currentPage) <= PageCount(data, locale, fmt) ==> currentPage <= PageCount(data, locale, fmt)
      ensures searchTerm == old(searchTerm) && sortColumn == old(sortColumn)
      ensures sortDirection == old(sortDirection) && pageSize == old(pageSize)
    {
      currentPage := if currentPage - 1 > 1 then currentPage - 1 else 1;
    }

    /** "Next": one page on, never past the last page. */
    method NextPage(data: seq<Row>, locale: (string, string) -> int, fmt: real -> string)
      requires Valid() && ShowsPagination(data, locale, fmt)
      modifies this
      ensures Valid()
      ensures var last := PageCount(data, locale, fmt);
              currentPage == if old(currentPage) + 1 < last then old(currentPage) + 1 else last
      ensures 1 <= currentPage <= PageCount(data, locale, fmt)
      ensures searchTerm == old(searchTerm) && sortColumn == old(sortColumn)
      ensures sortDirection == old(sortDirection) && pageSize == old(pageSize)
    {
      var last := TotalPages(|Rows(data, locale, fmt)|, pageSize);
      currentPage := if currentPage + 1 < last then currentPage + 1 else last;
    }
  }
}
