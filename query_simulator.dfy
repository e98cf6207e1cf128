/**
 * The mock interpreter of `parseAndExecuteQuery` and the CSV text that
 * `exportToCSV` builds. The interpreter does not parse SQL: it lower-cases and
 * trims the query and then runs a fixed pipeline of substring tests over it
 * (pick a dataset, apply one of four WHERE shapes, project columns, apply one
 * of three ORDER BY shapes, keep at most 100 rows).
 *
 * `Interpret` states the pipeline as a function of the query; the method
 * `ParseAndExecuteQuery` follows the source's statement order (a scan with
 * `break`, variables reassigned stage by stage, a loop that rebuilds each row)
 * and is proved to compute `Interpret`. The lemmas state what each stage
 * promises.
 */
module QuerySimulator {
  import opened Text
  import opened Values
  import opened Sequences
  import opened SampleData

  /** A result without its execution time, which the caller adds. */
  datatype QueryResult = QueryResult(data: seq<Row>, columns: seq<string>, rowCount: nat)

  /** The row cap that stands in for a LIMIT clause. */
  const MaxRows: nat := 100

  /** `query.toLowerCase().trim()`. */
  function Normalize(query: string): (nq: string)
    ensures nq == [] || (!IsWhitespace(nq[0]) && !IsWhitespace(nq[|nq| - 1]))
    ensures forall i :: 0 <= i < |nq| ==> !('A' <= nq[i] <= 'Z')
  {
    TrimLowerHasNoUpper(query);
    Trim(ToLower(query))
  }

  // ---------------------------------------------------------------------------
  // Choosing the dataset

  /** The first index at or after `i` whose dataset name occurs in `nq`, or -1. */
  function MentionedFrom(nq: string, catalog: seq<Dataset>, i: nat): (k: int)
    requires i <= |catalog|
    ensures k == -1 || (i <= k < |catalog| && Contains(nq, catalog[k].name))
    ensures forall j :: i <= j < |catalog| && (k == -1 || j < k) ==> !Contains(nq, catalog[j].name)
    decreases |catalog| - i
  {
    if i == |catalog| then -1
    else if Contains(nq, catalog[i].name) then i
    else MentionedFrom(nq, catalog, i + 1)
  }

  /**
   * The dataset the query runs against: the first one, in catalog order, whose
   * name is a substring of the query, and the first of the catalog when none is.
   */
  function ResolveDataset(nq: string, catalog: seq<Dataset>): (d: Dataset)
    requires |catalog| > 0
    ensures (forall k :: 0 <= k < |catalog| ==> !Contains(nq, catalog[k].name)) ==> d == catalog[0]
    ensures forall k :: 0 <= k < |catalog| && Contains(nq, catalog[k].name)
                        && (forall j :: 0 <= j < k ==> !Contains(nq, catalog[j].name))
                        ==> d == catalog[k]
  {
    var k := MentionedFrom(nq, catalog, 0);
    if k < 0 then catalog[0] else catalog[k]
  }

  // ---------------------------------------------------------------------------
  // WHERE

  /** The one filter a WHERE clause can select, with its threshold. */
  datatype WhereFilter =
    | SalaryAbove(threshold: real)
    | AmountAbove(threshold: real)
    | StockBelow(threshold: real)
    | EngineeringOnly
    | NoFilter

  /** The text after the first `where`, trimmed; None when the query has no `where`. */
  function WhereClause(nq: string): Option<string> {
    if Contains(nq, "where") then Some(Trim(Substring(nq, IndexOf(nq, "where") + 5, |nq|)))
    else None
  }

  function Pow10(n: nat): (r: nat)
    ensures r >= 1
  {
    if n == 0 then 1 else 10 * Pow10(n - 1)
  }

  /** `parseFloat` of `ds.fs`, a digit run with a fraction part (possibly empty). */
  function DecimalValue(ds: string, fs: string): real
    requires AllDigits(ds) && AllDigits(fs)
  {
    NatOf(ds) as real + NatOf(fs) as real / Pow10(|fs|) as real
  }

  /**
   * The `field\s*op\s*` part of a threshold expression tried at index `i` of
   * `s`: the index just after it, where the number must start, or -1.
   */
  function OperandStart(s: string, i: nat, field: string, op: char): (d: int)
    requires i <= |s|
    ensures d == -1 || i + |field| < d <= |s|
  {
    if !(i + |field| <= |s| && s[i..i + |field|] == field) then -1
    else
      var j := SkipWhitespace(s, i + |field|);
      if j == |s| || s[j] != op then -1
      else SkipWhitespace(s, j + 1)
  }

  /**
   * The group `(\d+)`, or with `frac` the group `(\d+\.?\d*)`, at index `d`:
   * the number it captures, read the way `parseInt` or `parseFloat` reads it.
   */
  function NumberFrom(s: string, d: nat, frac: bool): Option<real>
    requires d <= |s|
  {
    var e := DigitsEnd(s, d);
    if e == d then None
    else if frac && e < |s| && s[e] == '.' then Some(DecimalValue(s[d..e], s[e + 1..DigitsEnd(s, e + 1)]))
    else Some(NatOf(s[d..e]) as real)
  }

  /** The whole threshold expression tried at index `i`: the captured number, if it matches there. */
  function NumberAt(s: string, i: nat, field: string, op: char, frac: bool): Option<real>
    requires i <= |s|
  {
    var d := OperandStart(s, i, field, op);
    if d < 0 then None else NumberFrom(s, d, frac)
  }

  /** The least index from `i` to `n` that satisfies `p`, or -1. */
  function LeastFrom(p: nat -> bool, i: nat, n: nat): (k: int)
    requires i <= n
    ensures k == -1 || (i <= k <= n && p(k))
    ensures forall m :: i <= m <= n && (k == -1 || m < k) ==> !p(m)
    decreases n - i
  {
    if p(i) then i
    else if i == n then -1
    else LeastFrom(p, i + 1, n)
  }

  /** The indices of `s` at which the threshold expression matches. */
  function MatchesAt(s: string, field: string, op: char, frac: bool): nat -> bool {
    (m: nat) => m <= |s| && NumberAt(s, m, field, op, frac).Some?
  }

  /** Where `s.match(re)` finds its leftmost match at or after index `i`, or -1. */
  function FirstMatchFrom(s: string, i: nat, field: string, op: char, frac: bool): (k: int)
    requires i <= |s|
    ensures k == -1 || (i <= k <= |s| && NumberAt(s, k, field, op, frac).Some?)
    ensures forall m :: i <= m <= |s| && (k == -1 || m < k) ==> NumberAt(s, m, field, op, frac).None?
  {
    var p := MatchesAt(s, field, op, frac);
    var k := LeastFrom(p, i, |s|);
    assert forall m: nat :: m <= |s| ==> (p(m) <==> NumberAt(s, m, field, op, frac).Some?);
    k
  }

  /** The number the leftmost match captures, or `default` when the expression does not match. */
  function Threshold(s: string, field: string, op: char, frac: bool, default: real): real {
    var k := FirstMatchFrom(s, 0, field, op, frac);
    if k < 0 then default else NumberAt(s, k, field, op, frac).value
  }

  /** The first of the four recognised shapes that the clause contains. */
  function ClauseFilter(wc: string): WhereFilter {
    if Contains(wc, "salary >") then SalaryAbove(Threshold(wc, "salary", '>', false, 0.0))
    else if Contains(wc, "amount >") then AmountAbove(Threshold(wc, "amount", '>', true, 0.0))
    else if Contains(wc, "stock_quantity <") then StockBelow(Threshold(wc, "stock_quantity", '<', false, 999.0))
    else if Contains(wc, "department = 'engineering'") then EngineeringOnly
    else NoFilter
  }

  function WhereFilterOf(nq: string): WhereFilter {
    match WhereClause(nq)
    case None => NoFilter
    case Some(wc) => ClauseFilter(wc)
  }

  /**
   * The filter's row test. The numeric tests start with the truthiness of the
   * field (`row.salary && …`), so a missing field or a 0 never passes.
   */
  predicate Keeps(f: WhereFilter, row: Row) {
    match f
    case SalaryAbove(t) => NumberOr0(row, "salary") != 0.0 && NumberOr0(row, "salary") > t
    case AmountAbove(t) => NumberOr0(row, "amount") != 0.0 && NumberOr0(row, "amount") > t
    case StockBelow(t) => NumberOr0(row, "stock_quantity") != 0.0 && NumberOr0(row, "stock_quantity") < t
    case EngineeringOnly => StringOrEmpty(row, "department") != "" && ToLower(StringOrEmpty(row, "department")) == "engineering"
    case NoFilter => true
  }

  function KeepsFn(f: WhereFilter): Row -> bool {
    row => Keeps(f, row)
  }

  /** `resultData.filter(...)`, or the rows untouched when no shape was recognised. */
  function ApplyWhere(f: WhereFilter, rows: seq<Row>): seq<Row> {
    if f.NoFilter? then rows else Filter(KeepsFn(f), rows)
  }

  // ---------------------------------------------------------------------------
  // SELECT column projection

  function TrimEach(parts: seq<string>): (r: seq<string>)
    ensures |r| == |parts|
    ensures forall i :: 0 <= i < |parts| ==> r[i] == Trim(parts[i])
  {
    seq(|parts|, i requires 0 <= i < |parts| => Trim(parts[i]))
  }

  /**
   * The trimmed comma-separated tokens between `select` and `from`, or None
   * when the query asks for no projection: no `select`, a `select *`, or no
   * `from` after the first `select`.
   */
  function SelectedColumns(nq: string): Option<seq<string>> {
    if Contains(nq, "select") && !Contains(nq, "select *") then
      var selectIndex := IndexOf(nq, "select");
      var fromIndex := IndexOf(nq, "from");
      if fromIndex > selectIndex then
        Some(TrimEach(Split(Trim(Substring(nq, selectIndex + 6, fromIndex)), ',')))
      else None
    else None
  }

  /** Some token equals the column name or contains it. */
  predicate Requested(tokens: seq<string>, col: string) {
    exists t | t in tokens :: t == col || Contains(t, col)
  }

  function RequestedFn(tokens: seq<string>): string -> bool {
    col => Requested(tokens, col)
  }

  /** The declared columns, in declared order, that some token asks for. */
  function ProjectColumns(cols: seq<string>, tokens: seq<string>): seq<string> {
    Filter(RequestedFn(tokens), cols)
  }

  /** The row rebuilt with the columns of `cols` that it defines. */
  function ProjectRow(row: Row, cols: seq<string>): (r: Row)
    ensures r.Keys == row.Keys * (set c | c in cols)
    ensures forall c :: c in r ==> r[c] == row[c]
  {
    map c | c in cols && c in row :: row[c]
  }

  function ProjectRows(rows: seq<Row>, cols: seq<string>): (r: seq<Row>)
    ensures |r| == |rows|
    ensures forall i :: 0 <= i < |rows| ==> r[i] == ProjectRow(rows[i], cols)
  {
    seq(|rows|, i requires 0 <= i < |rows| => ProjectRow(rows[i], cols))
  }

  // ---------------------------------------------------------------------------
  // ORDER BY

  datatype OrderShape = SalaryDesc | AmountDesc | NameAsc | Unordered

  /** The first of the three recognised shapes that the text after the first `order by` contains. */
  function OrderShapeOf(nq: string): OrderShape {
    if Contains(nq, "order by") then
      var oc := Trim(Substring(nq, IndexOf(nq, "order by") + 8, |nq|));
      if Contains(oc, "salary desc") then SalaryDesc
      else if Contains(oc, "amount desc") then AmountDesc
      else if Contains(oc, "name") then NameAsc
      else Unordered
    else Unordered
  }

  /** `(b[col] || 0) - (a[col] || 0) <= 0`: `a` may stay before `b`. */
  function Descending(col: string): (Row, Row) -> bool {
    (a: Row, b: Row) => NumberOr0(a, col) >= NumberOr0(b, col)
  }

  /** `(a.name || '').localeCompare(b.name || '') <= 0`, with `collate` standing for that test. */
  function ByName(collate: (string, string) -> bool): (Row, Row) -> bool {
    (a: Row, b: Row) => collate(StringOrEmpty(a, "name"), StringOrEmpty(b, "name"))
  }

  function ApplyOrder(shape: OrderShape, rows: seq<Row>, collate: (string, string) -> bool): seq<Row> {
    match shape
    case SalaryDesc => SortBy(Descending("salary"), rows)
    case AmountDesc => SortBy(Descending("amount"), rows)
    case NameAsc => SortBy(ByName(collate), rows)
    case Unordered => rows
  }

  // ---------------------------------------------------------------------------
  // The whole pipeline

  /** `resultData.slice(0, 100)` when there are more than 100 rows. */
  function Cap(rows: seq<Row>): (r: seq<Row>)
    ensures |r| <= MaxRows
    ensures |r| == if |rows| <= MaxRows then |rows| else MaxRows
    ensures r == rows[..|r|]
  {
    if |rows| > MaxRows then rows[..MaxRows] else rows
  }

  /** The result columns: the declared ones, or the requested ones when the query projects. */
  function SelectStage(nq: string, declared: seq<string>): seq<string> {
    match SelectedColumns(nq)
    case None => declared
    case Some(tokens) => ProjectColumns(declared, tokens)
  }

  /** The rows rebuilt with the result columns when the query projects. */
  function ProjectStage(nq: string, rows: seq<Row>, columns: seq<string>): seq<Row> {
    if SelectedColumns(nq).Some? then ProjectRows(rows, columns) else rows
  }

  /** What `parseAndExecuteQuery` returns for `query` over `catalog`. */
  function Interpret(query: string, catalog: seq<Dataset>, collate: (string, string) -> bool): QueryResult
    requires |catalog| > 0
  {
    var nq := Normalize(query);
    var d := ResolveDataset(nq, catalog);
    var columns := SelectStage(nq, d.columns);
    var projected := ProjectStage(nq, ApplyWhere(WhereFilterOf(nq), d.data), columns);
    var data := Cap(ApplyOrder(OrderShapeOf(nq), projected, collate));
    QueryResult(data, columns, |data|)
  }

  // ---------------------------------------------------------------------------
  // What each stage promises

  /** The WHERE stage keeps exactly the rows its filter accepts, in their original order. */
  lemma WhereKeepsAcceptedRowsInOrder(f: WhereFilter, rows: seq<Row>)
    ensures IsSubsequence(ApplyWhere(f, rows), rows)
    ensures forall r :: r in ApplyWhere(f, rows) <==> r in rows && Keeps(f, r)
    ensures f.NoFilter? ==> ApplyWhere(f, rows) == rows
    ensures forall r :: multiset(ApplyWhere(f, rows))[r] == if Keeps(f, r) then multiset(rows)[r] else 0
  {
    if f.NoFilter? {
      SubsequenceOfSelf(rows);
    } else {
      FilterIsSubsequence(KeepsFn(f), rows);
      FilterMultiset(KeepsFn(f), rows);
    }
  }

  /** The numeric filters test the field's truthiness first: a missing or zero field never passes. */
  lemma NumericFiltersRejectMissingOrZero(row: Row, t: real)
    ensures NumberOr0(row, "salary") == 0.0 ==> !Keeps(SalaryAbove(t), row)
    ensures NumberOr0(row, "amount") == 0.0 ==> !Keeps(AmountAbove(t), row)
    ensures NumberOr0(row, "stock_quantity") == 0.0 ==> !Keeps(StockBelow(t), row)
  {
  }

  /** A clause without any digit matches no threshold expression, so the defaults 0, 0 and 999 apply. */
  lemma ThresholdDefaults(wc: string)
    requires forall i :: 0 <= i < |wc| ==> !IsDigit(wc[i])
    ensures Contains(wc, "salary >") ==> ClauseFilter(wc) == SalaryAbove(0.0)
    ensures !Contains(wc, "salary >") && Contains(wc, "amount >") ==> ClauseFilter(wc) == AmountAbove(0.0)
    ensures !Contains(wc, "salary >") && !Contains(wc, "amount >") && Contains(wc, "stock_quantity <")
            ==> ClauseFilter(wc) == StockBelow(999.0)
  {
    forall field: string, op: char, frac: bool, k: nat | k <= |wc|
      ensures NumberAt(wc, k, field, op, frac).None?
    {
      var d := OperandStart(wc, k, field, op);
      if d >= 0 {
        assert DigitsEnd(wc, d) == d;
      }
    }
    assert FirstMatchFrom(wc, 0, "salary", '>', false) == -1;
    assert FirstMatchFrom(wc, 0, "amount", '>', true) == -1;
    assert FirstMatchFrom(wc, 0, "stock_quantity", '<', false) == -1;
  }

  /** `salary\s*>\s*` matches at the start of `salary > …` and the number starts at index 9. */
  lemma OperandAfterPrefix(wc: string, field: string, op: char)
    requires |field| == 6 && 10 <= |wc| && !IsWhitespace(op)
    requires wc[..9] == field + [' ', op, ' '] && !IsWhitespace(wc[9])
    ensures OperandStart(wc, 0, field, op) == 9
  {
    assert wc[0..6] == wc[..9][..6];
    assert wc[6] == wc[..9][6] && wc[7] == wc[..9][7] && wc[8] == wc[..9][8];
    assert SkipWhitespace(wc, 7) == 7;
    assert SkipWhitespace(wc, 9) == 9;
  }

  /** Reading a number written after `salary >` gives the number back as the threshold. */
  lemma SalaryClauseRoundTrip(n: nat, rest: string)
    requires rest == [] || !IsDigit(rest[0])
    ensures ClauseFilter("salary > " + ShowNat(n) + rest) == SalaryAbove(n as real)
  {
    var ds := ShowNat(n);
    var wc := "salary > " + ds + rest;
    assert wc[..8] == "salary >";
    assert OccursAt(wc, "salary >", 0);
    OperandAfterPrefix(wc, "salary", '>');
    assert wc[9..9 + |ds|] == ds;
    DigitsEndAt(wc, 9, 9 + |ds|);
    NatOfShowNat(n);
    assert NumberAt(wc, 0, "salary", '>', false) == Some(n as real);
  }

  /** The group `(\d+\.?\d*)` at the start of `n.ds…` captures `n.ds`. */
  lemma DecimalFrom(p: string, n: nat, ds: string, rest: string)
    requires AllDigits(ds)
    requires rest == [] || !IsDigit(rest[0])
    ensures NumberFrom(p + ShowNat(n) + "." + ds + rest, |p|, true) == Some(DecimalValue(ShowNat(n), ds))
  {
    var ns := ShowNat(n);
    var wc := p + ns + "." + ds + rest;
    var e := |p| + |ns|;
    var f := e + 1 + |ds|;
    assert wc == (p + ns) + ("." + ds + rest);
    assert wc[|p|..e] == ns by {
      assert wc[..e] == p + ns;
    }
    assert wc[e + 1..f] == ds;
    assert wc[e] == '.';
    assert f == |wc| || wc[f] == rest[0];
    NumberFromDecimal(wc, |p|, e, f);
  }

  /** Digits from `d` to `e`, a point, and digits from `e + 1` to `f`: the group captures them all. */
  lemma NumberFromDecimal(wc: string, d: nat, e: nat, f: nat)
    requires d < e && e + 1 <= f <= |wc|
    requires AllDigits(wc[d..e]) && wc[e] == '.' && AllDigits(wc[e + 1..f])
    requires f == |wc| || !IsDigit(wc[f])
    ensures NumberFrom(wc, d, true) == Some(DecimalValue(wc[d..e], wc[e + 1..f]))
  {
    forall k | d <= k < e ensures IsDigit(wc[k]) {
      assert wc[k] == wc[d..e][k - d];
    }
    DigitsEndAt(wc, d, e);
    forall k | e + 1 <= k < f ensures IsDigit(wc[k]) {
      assert wc[k] == wc[e + 1..f][k - e - 1];
    }
    DigitsEndAt(wc, e + 1, f);
  }

  /** `amount >` also reads a fraction: `n.ds` is read as the decimal n.ds. */
  lemma AmountClauseRoundTrip(n: nat, ds: string, rest: string)
    requires AllDigits(ds)
    requires rest == [] || !IsDigit(rest[0])
    requires !Contains("amount > " + ShowNat(n) + "." + ds + rest, "salary >")
    ensures ClauseFilter("amount > " + ShowNat(n) + "." + ds + rest) == AmountAbove(DecimalValue(ShowNat(n), ds))
  {
    var wc := "amount > " + ShowNat(n) + "." + ds + rest;
    assert wc[..8] == "amount >";
    assert OccursAt(wc, "amount >", 0);
    OperandAfterPrefix(wc, "amount", '>');
    DecimalFrom("amount > ", n, ds, rest);
    assert NumberAt(wc, 0, "amount", '>', true) == Some(DecimalValue(ShowNat(n), ds));
    assert FirstMatchFrom(wc, 0, "amount", '>', true) == 0;
  }

  /** The recognised engineering clause selects the department filter and nothing before it. */
  lemma EngineeringClause()
    ensures ClauseFilter("department = 'engineering'") == EngineeringOnly
  {
    var wc := "department = 'engineering'";
    NoComparison(wc);
    ContainsSlice(wc, 0, |wc|);
    assert wc[0..|wc|] == wc;
    EngineeringWithoutComparison(wc);
  }

  lemma NoComparison(wc: string)
    requires wc == "department = 'engineering'"
    ensures Free(wc, '>') && Free(wc, '<')
  {
  }

  /** A clause with no `>` and no `<` that holds the department test selects it. */
  lemma EngineeringWithoutComparison(wc: string)
    requires Free(wc, '>') && Free(wc, '<')
    requires Contains(wc, "department = 'engineering'")
    ensures ClauseFilter(wc) == EngineeringOnly
  {
    MissingCharNotContained(wc, "salary >", 7);
    MissingCharNotContained(wc, "amount >", 7);
    MissingCharNotContained(wc, "stock_quantity <", 15);
  }

  /** The projected columns are the requested declared columns, in declared order. */
  lemma ProjectionKeepsDeclaredOrder(cols: seq<string>, tokens: seq<string>)
    ensures IsSubsequence(ProjectColumns(cols, tokens), cols)
    ensures forall c :: c in ProjectColumns(cols, tokens) <==> c in cols && Requested(tokens, c)
  {
    FilterIsSubsequence(RequestedFn(tokens), cols);
  }

  /** A rebuilt row of a complete row has exactly the projected columns. */
  lemma ProjectRowHasExactly(row: Row, declared: seq<string>, cols: seq<string>)
    requires HasExactly(row, declared)
    requires forall c :: c in cols ==> c in declared
    ensures HasExactly(ProjectRow(row, cols), cols)
  {
  }

  /** Projecting twice on the same columns changes nothing more. */
  lemma ProjectRowIdempotent(row: Row, cols: seq<string>)
    ensures ProjectRow(ProjectRow(row, cols), cols) == ProjectRow(row, cols)
  {
  }

  lemma DescendingIsPreorder(col: string, rows: seq<Row>)
    ensures TotalPreorderOn(Descending(col), rows)
  {
  }

  /**
   * `salary desc` and `amount desc`: the rows are rearranged, not changed;
   * the key (0 when missing) never increases; and rows with equal keys keep
   * their relative order.
   */
  lemma DescendingSort(col: string, rows: seq<Row>)
    ensures multiset(SortBy(Descending(col), rows)) == multiset(rows)
    ensures var r := SortBy(Descending(col), rows);
            |r| == |rows| && forall i, j :: 0 <= i < j < |r| ==> NumberOr0(r[i], col) >= NumberOr0(r[j], col)
    ensures forall y :: Same(Descending(col), y, SortBy(Descending(col), rows)) == Same(Descending(col), y, rows)
  {
    var le := Descending(col);
    SortByPermutes(le, rows);
    DescendingIsPreorder(col, rows);
    SortBySorted(le, rows);
    forall y ensures Same(le, y, SortBy(le, rows)) == Same(le, y, rows) {
      DescendingIsPreorder(col, rows + [y]);
      SortByStable(le, rows, y);
    }
  }

  /** A descending sort on a column no row has (one removed by projection) keeps the order. */
  lemma DescendingWithoutColumn(col: string, rows: seq<Row>)
    requires forall i :: 0 <= i < |rows| ==> col !in rows[i]
    ensures SortBy(Descending(col), rows) == rows
  {
    DescendingIsPreorder(col, rows);
    SortByAllEquivalent(Descending(col), rows);
  }

  /**
   * Ordering by `name`, with a collation that is a total preorder on the rows'
   * names: a rearrangement, ascending, and stable.
   */
  lemma NameSort(rows: seq<Row>, collate: (string, string) -> bool)
    requires TotalPreorderOn(ByName(collate), rows)
    ensures multiset(SortBy(ByName(collate), rows)) == multiset(rows)
    ensures var r := SortBy(ByName(collate), rows);
            forall i, j :: 0 <= i < j < |r| ==> collate(StringOrEmpty(r[i], "name"), StringOrEmpty(r[j], "name"))
    ensures forall y :: TotalPreorderOn(ByName(collate), rows + [y]) ==>
              Same(ByName(collate), y, SortBy(ByName(collate), rows)) == Same(ByName(collate), y, rows)
  {
    var le := ByName(collate);
    SortByPermutes(le, rows);
    SortBySorted(le, rows);
    forall y | TotalPreorderOn(le, rows + [y]) ensures Same(le, y, SortBy(le, rows)) == Same(le, y, rows) {
      SortByStable(le, rows, y);
    }
  }

  /** Ordering by a `name` no row has keeps the order, given that "" collates with itself. */
  lemma NameSortWithoutColumn(rows: seq<Row>, collate: (string, string) -> bool)
    requires forall i :: 0 <= i < |rows| ==> "name" !in rows[i]
    requires collate("", "")
    ensures SortBy(ByName(collate), rows) == rows
  {
    forall a | a in rows ensures StringOrEmpty(a, "name") == "" {
    }
    SortByAllEquivalent(ByName(collate), rows);
  }

  /** Every ORDER BY shape rearranges the rows without changing them. */
  lemma OrderPermutes(shape: OrderShape, rows: seq<Row>, collate: (string, string) -> bool)
    ensures multiset(ApplyOrder(shape, rows, collate)) == multiset(rows)
    ensures |ApplyOrder(shape, rows, collate)| == |rows|
  {
    match shape
    case SalaryDesc => SortByPermutes(Descending("salary"), rows);
    case AmountDesc => SortByPermutes(Descending("amount"), rows);
    case NameAsc => SortByPermutes(ByName(collate), rows);
    case Unordered =>
  }

  /** Projection rebuilds rows one for one; on complete rows the rebuilt rows have exactly the result columns. */
  lemma ProjectStageShape(nq: string, rows: seq<Row>, declared: seq<string>)
    ensures |ProjectStage(nq, rows, SelectStage(nq, declared))| == |rows|
    ensures IsSubsequence(SelectStage(nq, declared), declared)
    ensures (forall row :: row in rows ==> HasExactly(row, declared))
            ==> forall row :: row in ProjectStage(nq, rows, SelectStage(nq, declared))
                              ==> HasExactly(row, SelectStage(nq, declared))
  {
    var cols := SelectStage(nq, declared);
    if SelectedColumns(nq).Some? {
      ProjectionKeepsDeclaredOrder(declared, SelectedColumns(nq).value);
      if forall row :: row in rows ==> HasExactly(row, declared) {
        ProjectedRowsHaveExactly(rows, declared, cols);
      }
    } else {
      SubsequenceOfSelf(declared);
    }
  }

  /** Rebuilding complete rows on some of their columns gives rows with exactly those columns. */
  lemma ProjectedRowsHaveExactly(rows: seq<Row>, declared: seq<string>, cols: seq<string>)
    requires forall row :: row in rows ==> HasExactly(row, declared)
    requires forall c :: c in cols ==> c in declared
    ensures forall row :: row in ProjectRows(rows, cols) ==> HasExactly(row, cols)
  {
    forall row | row in ProjectRows(rows, cols) ensures HasExactly(row, cols) {
      var k :| 0 <= k < |rows| && ProjectRows(rows, cols)[k] == row;
      ProjectRowHasExactly(rows[k], declared, cols);
    }
  }

  /** Rows surviving the ORDER BY stage and the cap are rows of its input. */
  lemma OrderedAndCappedRows(shape: OrderShape, rows: seq<Row>, collate: (string, string) -> bool)
    ensures var r := Cap(ApplyOrder(shape, rows, collate));
            |r| == (if |rows| <= MaxRows then |rows| else MaxRows)
            && forall row :: row in r ==> row in rows
  {
    var ordered := ApplyOrder(shape, rows, collate);
    OrderPermutes(shape, rows, collate);
    forall row | row in Cap(ordered) ensures row in rows {
      assert row in multiset(ordered);
    }
  }

  /**
   * The shape of every result: at most 100 rows and `rowCount` their number,
   * which is the number of rows the WHERE stage keeps, capped; the columns are
   * the dataset's declared columns or a subsequence of them; without a
   * projection every row is a row the WHERE stage kept; and when the dataset's
   * rows are complete, every result row has exactly the result columns.
   */
  lemma ResultShape(query: string, catalog: seq<Dataset>, collate: (string, string) -> bool)
    requires |catalog| > 0
    ensures var r := Interpret(query, catalog, collate);
            var nq := Normalize(query);
            var d := ResolveDataset(nq, catalog);
            var kept := ApplyWhere(WhereFilterOf(nq), d.data);
            && r.rowCount == |r.data| <= MaxRows
            && |r.data| == (if |kept| <= MaxRows then |kept| else MaxRows)
            && IsSubsequence(r.columns, d.columns)
            && (SelectedColumns(nq).None? ==> r.columns == d.columns)
            && (SelectedColumns(nq).None? ==> forall row :: row in r.data ==> row in kept)
            && ((forall row :: row in d.data ==> HasExactly(row, d.columns))
                ==> forall row :: row in r.data ==> HasExactly(row, r.columns))
  {
    var nq := Normalize(query);
    var d := ResolveDataset(nq, catalog);
    var kept := ApplyWhere(WhereFilterOf(nq), d.data);
    var cols := SelectStage(nq, d.columns);
    var projected := ProjectStage(nq, kept, cols);
    WhereKeepsAcceptedRowsInOrder(WhereFilterOf(nq), d.data);
    ProjectStageShape(nq, kept, d.columns);
    OrderedAndCappedRows(OrderShapeOf(nq), projected, collate);
  }

  // ---------------------------------------------------------------------------
  // The CSV text of exportToCSV

  /** `"${row[col]}"`: the displayed value between double quotes, with nothing escaped. */
  function Quoted(row: Row, col: string, fmt: real -> string): (q: string)
    ensures |q| >= 2 && q[0] == '"' && q[|q| - 1] == '"'
    ensures q[1..|q| - 1] == Display(row, col, fmt)
  {
    var q := "\"" + Display(row, col, fmt) + "\"";
    assert q[1..|q| - 1] == Display(row, col, fmt);
    q
  }

  function QuotedCells(row: Row, cols: seq<string>, fmt: real -> string): (r: seq<string>)
    ensures |r| == |cols|
    ensures forall j :: 0 <= j < |cols| ==> r[j] == Quoted(row, cols[j], fmt)
  {
    seq(|cols|, j requires 0 <= j < |cols| => Quoted(row, cols[j], fmt))
  }

  /** One data line: the row's quoted cells, in column order, joined by commas. */
  function RowLine(row: Row, cols: seq<string>, fmt: real -> string): string {
    Join(QuotedCells(row, cols, fmt), ',')
  }

  /** The header line followed by one line per row. */
  function CsvLines(data: seq<Row>, cols: seq<string>, fmt: real -> string): (r: seq<string>)
    ensures |r| == |data| + 1
    ensures r[0] == Join(cols, ',')
    ensures forall i :: 0 <= i < |data| ==> r[i + 1] == RowLine(data[i], cols, fmt)
  {
    var body := RowLines(data, cols, fmt);
    var r := [Join(cols, ',')] + body;
    assert forall i :: 0 <= i < |data| ==> r[i + 1] == body[i];
    r
  }

  /** One line per row, in row order. */
  function RowLines(data: seq<Row>, cols: seq<string>, fmt: real -> string): (r: seq<string>)
    ensures |r| == |data|
    ensures forall i :: 0 <= i < |data| ==> r[i] == RowLine(data[i], cols, fmt)
  {
    seq(|data|, i requires 0 <= i < |data| => RowLine(data[i], cols, fmt))
  }

  /** The text `exportToCSV` puts in the downloaded file. */
  function CsvContent(data: seq<Row>, cols: seq<string>, fmt: real -> string): string {
    Join(CsvLines(data, cols, fmt), '\n')
  }

  /**
   * When neither the column names nor the displayed values hold a line break,
   * the CSV text splits back into the header and one line per row: `|data| + 1`
   * lines, `|data|` line breaks.
   */
  lemma CsvHasOneLinePerRow(data: seq<Row>, cols: seq<string>, fmt: real -> string)
    requires forall j :: 0 <= j < |cols| ==> Free(cols[j], '\n')
    requires forall i, j :: 0 <= i < |data| && 0 <= j < |cols| ==> Free(Display(data[i], cols[j], fmt), '\n')
    ensures Split(CsvContent(data, cols, fmt), '\n') == CsvLines(data, cols, fmt)
    ensures |Split(CsvContent(data, cols, fmt), '\n')| == |data| + 1
    ensures CountChar(CsvContent(data, cols, fmt), '\n') == |data|
  {
    var lines := CsvLines(data, cols, fmt);
    forall k | 0 <= k < |lines| ensures Free(lines[k], '\n') {
      if k == 0 {
        JoinFree(cols, ',', '\n');
      } else {
        RowLineFree(data[k - 1], cols, fmt, '\n');
      }
    }
    SplitJoin(lines, '\n');
    JoinSeparatorCount(lines, '\n');
  }

  /** A data line holds a character other than `,` and `"` only where a displayed value does. */
  lemma RowLineFree(row: Row, cols: seq<string>, fmt: real -> string, c: char)
    requires c != ',' && c != '"'
    requires forall j :: 0 <= j < |cols| ==> Free(Display(row, cols[j], fmt), c)
    ensures Free(RowLine(row, cols, fmt), c)
  {
    var cells := QuotedCells(row, cols, fmt);
    forall j | 0 <= j < |cols| ensures Free(cells[j], c) {
      var v := Display(row, cols[j], fmt);
      assert cells[j] == "\"" + v + "\"";
    }
    JoinFree(cells, ',', c);
  }

  /**
   * When no displayed value holds a comma, a data line splits back into its
   * quoted cells. Values are not escaped, so this is the only case in which
   * the fields of a line can be recovered.
   */
  lemma RowLineFields(row: Row, cols: seq<string>, fmt: real -> string)
    requires |cols| >= 1
    requires forall j :: 0 <= j < |cols| ==> Free(Display(row, cols[j], fmt), ',')
    ensures Split(RowLine(row, cols, fmt), ',') == QuotedCells(row, cols, fmt)
  {
    var cells := QuotedCells(row, cols, fmt);
    forall j | 0 <= j < |cols| ensures Free(cells[j], ',') {
      var v := Display(row, cols[j], fmt);
      assert cells[j] == "\"" + v + "\"";
    }
    SplitJoin(cells, ',');
  }

  /** The rows of `filteredRow`: a `forEach` over the columns copies each cell the row defines. */
  method FilterRow(row: Row, cols: seq<string>) returns (filteredRow: Row)
    ensures filteredRow == ProjectRow(row, cols)
  {
    filteredRow := map[];
    for j := 0 to |cols|
      invariant filteredRow == ProjectRow(row, cols[..j])
    {
      var col := cols[j];
      assert cols[..j + 1] == cols[..j] + [col];
      if col in row {
        filteredRow := filteredRow[col := row[col]];
      }
    }
    assert cols[..|cols|] == cols;
  }

  /** The `for … of datasets` scan with its `break`, then the fallback to `datasets[0]`. */
  method FindTargetDataset(normalizedQuery: string, catalog: seq<Dataset>) returns (dataset: Dataset)
    requires |catalog| > 0
    ensures dataset == ResolveDataset(normalizedQuery, catalog)
  {
    var targetDataset: Option<Dataset> := None;
    var i := 0;
    while i < |catalog|
      invariant 0 <= i <= |catalog|
      invariant targetDataset == None
      invariant forall j :: 0 <= j < i ==> !Contains(normalizedQuery, catalog[j].name)
    {
      if Contains(normalizedQuery, catalog[i].name) {
        targetDataset := Some(catalog[i]);
        break;
      }
      i := i + 1;
    }
    dataset := if targetDataset.Some? then targetDataset.value else catalog[0];
  }

  /** The WHERE block: the first recognised shape, if any, filters the rows. */
  method FilterWhere(normalizedQuery: string, rows: seq<Row>) returns (resultData: seq<Row>)
    ensures resultData == ApplyWhere(WhereFilterOf(normalizedQuery), rows)
  {
    resultData := rows;
    if Contains(normalizedQuery, "where") {
      var whereIndex := IndexOf(normalizedQuery, "where");
      var whereClause := Trim(Substring(normalizedQuery, whereIndex + 5, |normalizedQuery|));
      if Contains(whereClause, "salary >") {
        var salaryThreshold := Threshold(whereClause, "salary", '>', false, 0.0);
        resultData := ApplyWhere(SalaryAbove(salaryThreshold), resultData);
      } else if Contains(whereClause, "amount >") {
        var amountThreshold := Threshold(whereClause, "amount", '>', true, 0.0);
        resultData := ApplyWhere(AmountAbove(amountThreshold), resultData);
      } else if Contains(whereClause, "stock_quantity <") {
        var stockThreshold := Threshold(whereClause, "stock_quantity", '<', false, 999.0);
        resultData := ApplyWhere(StockBelow(stockThreshold), resultData);
      } else if Contains(whereClause, "department = 'engineering'") {
        resultData := ApplyWhere(EngineeringOnly, resultData);
      }
    }
  }

  /** The SELECT block: narrows the columns and rebuilds every row with them. */
  method SelectColumns(normalizedQuery: string, rows: seq<Row>, columns: seq<string>)
    returns (resultData: seq<Row>, resultColumns: seq<string>)
    ensures SelectedColumns(normalizedQuery).None? ==> resultData == rows && resultColumns == columns
    ensures SelectedColumns(normalizedQuery).Some? ==>
              && resultColumns == ProjectColumns(columns, SelectedColumns(normalizedQuery).value)
              && resultData == ProjectRows(rows, resultColumns)
  {
    resultData, resultColumns := rows, columns;
    if Contains(normalizedQuery, "select") && !Contains(normalizedQuery, "select *") {
      var selectIndex := IndexOf(normalizedQuery, "select");
      var fromIndex := IndexOf(normalizedQuery, "from");
      if fromIndex > selectIndex {
        var selectClause := Trim(Substring(normalizedQuery, selectIndex + 6, fromIndex));
        var selectedColumns := TrimEach(Split(selectClause, ','));
        resultColumns := ProjectColumns(resultColumns, selectedColumns);
        resultData := MapFilterRow(resultData, resultColumns);
      }
    }
  }

  /** The `resultData.map(...)` over the rows, one `FilterRow` per row. */
  method MapFilterRow(rows: seq<Row>, cols: seq<string>) returns (projected: seq<Row>)
    ensures projected == ProjectRows(rows, cols)
  {
    projected := [];
    var k := 0;
    while k < |rows|
      invariant 0 <= k <= |rows|
      invariant |projected| == k
      invariant forall m :: 0 <= m < k ==> projected[m] == ProjectRow(rows[m], cols)
    {
      var filteredRow := FilterRow(rows[k], cols);
      projected := projected + [filteredRow];
      k := k + 1;
    }
  }

  /** The ORDER BY block: at most one stable sort of the rows. */
  method SortRows(normalizedQuery: string, rows: seq<Row>, collate: (string, string) -> bool)
    returns (resultData: seq<Row>)
    ensures resultData == ApplyOrder(OrderShapeOf(normalizedQuery), rows, collate)
  {
    resultData := rows;
    if Contains(normalizedQuery, "order by") {
      var orderIndex := IndexOf(normalizedQuery, "order by");
      var orderClause := Trim(Substring(normalizedQuery, orderIndex + 8, |normalizedQuery|));
      if Contains(orderClause, "salary desc") {
        assert OrderShapeOf(normalizedQuery) == SalaryDesc;
        resultData := SortBy(Descending("salary"), resultData);
      } else if Contains(orderClause, "amount desc") {
        assert OrderShapeOf(normalizedQuery) == AmountDesc;
        resultData := SortBy(Descending("amount"), resultData);
      } else if Contains(orderClause, "name") {
        assert OrderShapeOf(normalizedQuery) == NameAsc;
        resultData := SortBy(ByName(collate), resultData);
      }
    }
  }

  /** `parseAndExecuteQuery`: the stages in the source's order, then the 100-row cap. */
  method ParseAndExecuteQuery(query: string, catalog: seq<Dataset>, collate: (string, string) -> bool)
    returns (result: QueryResult)
    requires |catalog| > 0
    ensures result == Interpret(query, catalog, collate)
  {
    var normalizedQuery := Trim(ToLower(query));
    var targetDataset := FindTargetDataset(normalizedQuery, catalog);
    var resultData := targetDataset.data;
    var resultColumns := targetDataset.columns;
    resultData := FilterWhere(normalizedQuery, resultData);
    resultData, resultColumns := SelectColumns(normalizedQuery, resultData, resultColumns);
    resultData := SortRows(normalizedQuery, resultData, collate);
    if |resultData| > MaxRows {
      resultData := resultData[..MaxRows];
    }
    result := QueryResult(resultData, resultColumns, |resultData|);
  }
}
