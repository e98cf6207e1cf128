/**
 * One run of the interpreter worked out in full: the `employees` sample query
 * `SELECT name, salary FROM employees WHERE salary > 80000 ORDER BY salary DESC`.
 * Each lemma settles one stage of the pipeline for this query; the normalised
 * query is handled as four short pieces.
 */
module SampleQueryRun {
  import opened Text
  import opened Values
  import opened Sequences
  import opened SampleData
  import opened QuerySimulator

  const P1: string := "select name, salary "
  const P2: string := "from employees "
  const P3: string := "where salary > 80000 "
  const P4: string := "order by salary desc"

  /** A string made of the four pieces, in order. */
  predicate Assembled(nq: string) {
    |nq| == 76 && nq[..20] == P1 && nq[20..35] == P2 && nq[35..56] == P3 && nq[56..] == P4
  }

  /** The normalised query. */
  function NQ(): (nq: string)
    ensures Assembled(nq)
  {
    var nq := P1 + P2 + P3 + P4;
    assert nq[..20] == P1;
    assert nq[20..35] == P2;
    assert nq[35..56] == P3;
    assert nq[56..] == P4;
    nq
  }

  /** The query lower-cased and trimmed. */
  lemma NormalizedTopEarners()
    ensures Normalize(TopEarnersQuery) == NQ()
  {
    var u1, u2, u3, u4 := "SELECT name, salary ", "FROM employees ", "WHERE salary > 80000 ", "ORDER BY salary DESC";
    LowerPieces();
    ToLowerAppend(u1 + u2 + u3, u4);
    ToLowerAppend(u1 + u2, u3);
    ToLowerAppend(u1, u2);
    var nq := NQ();
    assert nq[0] == nq[..20][0] == 's' && nq[75] == nq[56..][19] == 'c';
    TrimOfTrimmed(nq);
  }

  /** Each upper-case piece of the catalog query lower-cases to its normalised piece. */
  lemma LowerPieces()
    ensures ToLower("SELECT name, salary ") == P1 && ToLower("FROM employees ") == P2
    ensures ToLower("WHERE salary > 80000 ") == P3 && ToLower("ORDER BY salary DESC") == P4
  {
    LowerSelectPiece();
    LowerFromPiece();
    LowerWherePiece();
    LowerOrderPiece();
  }

  lemma LowerSelectPiece()
    ensures ToLower("SELECT name, salary ") == P1
  {
    assert LowerChar('S') == 's' && LowerChar('E') == 'e' && LowerChar('L') == 'l';
    assert LowerChar('C') == 'c' && LowerChar('T') == 't';
  }

  lemma LowerFromPiece()
    ensures ToLower("FROM employees ") == P2
  {
    assert LowerChar('F') == 'f' && LowerChar('R') == 'r' && LowerChar('O') == 'o' && LowerChar('M') == 'm';
  }

  lemma LowerWherePiece()
    ensures ToLower("WHERE salary > 80000 ") == P3
  {
    assert LowerChar('W') == 'w' && LowerChar('H') == 'h' && LowerChar('E') == 'e' && LowerChar('R') == 'r';
  }

  lemma LowerOrderPiece()
    ensures ToLower("ORDER BY salary DESC") == P4
  {
    assert LowerChar('O') == 'o' && LowerChar('R') == 'r' && LowerChar('D') == 'd' && LowerChar('E') == 'e';
    assert LowerChar('B') == 'b' && LowerChar('Y') == 'y' && LowerChar('S') == 's' && LowerChar('C') == 'c';
  }

  /** `employees` is the first catalog name the query mentions. */
  lemma TopEarnersDataset(nq: string)
    requires Assembled(nq)
    ensures ResolveDataset(nq, Datasets) == Employees
  {
    SliceOfSlice(nq, 20, 35, 5, 14);
    assert P2[5..14] == "employees";
    assert OccursAt(nq, "employees", 25);
    assert Datasets[0].name == "employees";
    assert Contains(nq, Datasets[0].name);
    assert MentionedFrom(nq, Datasets, 0) == 0;
  }

  lemma PiecesWithoutW()
    ensures Free(P1, 'w') && Free(P2, 'w')
  {
  }

  /** The first `where` is at index 35. */
  lemma TopEarnersWhereIndex(nq: string)
    requires Assembled(nq)
    ensures IndexOf(nq, "where") == 35
  {
    PiecesWithoutW();
    FreeConcat(P1, P2, 'w');
    assert nq[..35] == nq[..20] + nq[20..35] == P1 + P2;
    assert nq[35..40] == nq[35..56][..5] == P3[..5] == "where";
    FirstOccurrence(nq, "where", 0, 35);
  }

  lemma TailAfterWhere(nq: string)
    requires Assembled(nq)
    ensures nq[40..76] == " " + ("salary > " + "80000" + (" " + P4))
  {
    SliceOfSlice(nq, 35, 56, 5, 21);
    assert nq[40..76] == nq[40..56] + nq[56..];
    ConditionText();
  }

  lemma ConditionText()
    ensures P3[5..21] + P4 == " " + ("salary > " + "80000" + (" " + P4))
  {
    assert P3[5..21] == " " + "salary > " + "80000" + " ";
  }

  /** The WHERE clause is the text after `where`, trimmed. */
  lemma TopEarnersWhereClause(nq: string)
    requires Assembled(nq)
    ensures WhereClause(nq) == Some("salary > " + "80000" + (" " + P4))
  {
    TopEarnersWhereIndex(nq);
    TailAfterWhere(nq);
    ClauseEnds("salary > " + "80000" + (" " + P4));
    assert nq[40..] == nq[40..76];
    WhereClauseAfter(nq, 35, "salary > " + "80000" + (" " + P4));
  }

  lemma ClauseEnds(wc: string)
    requires wc == "salary > " + "80000" + (" " + P4)
    ensures |wc| == 35 && !IsWhitespace(wc[0]) && !IsWhitespace(wc[34])
  {
    assert wc[0] == 's' && wc[34] == 'c';
  }

  /** When the first `where` is followed by one blank and a trimmed text, the clause is that text. */
  lemma WhereClauseAfter(nq: string, i: nat, wc: string)
    requires IndexOf(nq, "where") == i
    requires i + 5 <= |nq| && nq[i + 5..] == " " + wc
    requires |wc| > 0 && !IsWhitespace(wc[0]) && !IsWhitespace(wc[|wc| - 1])
    ensures WhereClause(nq) == Some(wc)
  {
    assert nq[i + 5..|nq|] == nq[i + 5..];
    assert Substring(nq, i + 5, |nq|) == " " + wc;
    TrimBlankPrefix(wc);
  }

  lemma TrimBlankPrefix(wc: string)
    requires |wc| > 0 && !IsWhitespace(wc[0]) && !IsWhitespace(wc[|wc| - 1])
    ensures Trim(" " + wc) == wc
  {
    var t := " " + wc;
    assert IsWhitespace(t[0]) && t[1] == wc[0] && t[|wc|] == wc[|wc| - 1];
    TrimSlice(t, 1, |wc| + 1);
    assert t[1..|wc| + 1] == wc;
  }

  /** The clause selects the salary filter with threshold 80000. */
  lemma TopEarnersWhere(nq: string)
    requires Assembled(nq)
    ensures WhereFilterOf(nq) == SalaryAbove(80000.0)
  {
    TopEarnersWhereClause(nq);
    ShowEightyThousand();
    SalaryWhere(nq, 80000, " " + P4);
  }

  lemma ShowEightyThousand()
    ensures ShowNat(80000) == "80000"
  {
  }

  /** A query whose WHERE clause is `salary > n` followed by a non-digit selects the salary filter. */
  lemma SalaryWhere(nq: string, n: nat, rest: string)
    requires rest == [] || !IsDigit(rest[0])
    requires WhereClause(nq) == Some("salary > " + ShowNat(n) + rest)
    ensures WhereFilterOf(nq) == SalaryAbove(n as real)
  {
    SalaryClauseRoundTrip(n, rest);
  }

  /** An employee row's salary cell is the record's salary. */
  lemma EmployeeSalary(e: Employee)
    ensures NumberOr0(e.ToRow(), "salary") == e.salary
  {
    assert e.ToRow()["salary"] == VNum(e.salary);
  }

  /** The salary filter keeps rows 0, 2, 4 and 7 of `employees`. */
  lemma TopEarnersTests()
    ensures var f := KeepsFn(SalaryAbove(80000.0));
            var rows := Employees.data;
            && f(rows[0]) && !f(rows[1]) && f(rows[2]) && !f(rows[3])
            && f(rows[4]) && !f(rows[5]) && !f(rows[6]) && f(rows[7])
  {
    var e := EmployeeRecords;
    assert e[0].salary == 95000.0 && e[1].salary == 72000.0 && e[2].salary == 88000.0 && e[3].salary == 65000.0;
    assert e[4].salary == 102000.0 && e[5].salary == 78000.0 && e[6].salary == 69000.0 && e[7].salary == 91000.0;
    SalaryTests(e, Employees.data);
  }

  /** Rows built from eight records whose salaries fall above and below 80000 as the catalog's do. */
  lemma SalaryTests(e: seq<Employee>, rows: seq<Row>)
    requires |e| == 8 && |rows| == 8
    requires forall i :: 0 <= i < 8 ==> rows[i] == e[i].ToRow()
    requires e[0].salary > 80000.0 && e[1].salary <= 80000.0 && e[2].salary > 80000.0 && e[3].salary <= 80000.0
    requires e[4].salary > 80000.0 && e[5].salary <= 80000.0 && e[6].salary <= 80000.0 && e[7].salary > 80000.0
    ensures var f := KeepsFn(SalaryAbove(80000.0));
            && f(rows[0]) && !f(rows[1]) && f(rows[2]) && !f(rows[3])
            && f(rows[4]) && !f(rows[5]) && !f(rows[6]) && f(rows[7])
  {
    forall i | 0 <= i < 8 ensures NumberOr0(rows[i], "salary") == e[i].salary {
      EmployeeSalary(e[i]);
    }
  }

  /** The four employees earning more than 80000, in catalog order. */
  lemma TopEarnersKept()
    ensures var rows := Employees.data;
            ApplyWhere(SalaryAbove(80000.0), rows) == [rows[0], rows[2], rows[4], rows[7]]
  {
    TopEarnersTests();
    SalaryFilterOfEight(Employees.data);
  }

  lemma SalaryFilterOfEight(rows: seq<Row>)
    requires |rows| == 8
    requires var f := KeepsFn(SalaryAbove(80000.0));
             && f(rows[0]) && !f(rows[1]) && f(rows[2]) && !f(rows[3])
             && f(rows[4]) && !f(rows[5]) && !f(rows[6]) && f(rows[7])
    ensures ApplyWhere(SalaryAbove(80000.0), rows) == [rows[0], rows[2], rows[4], rows[7]]
  {
    FilterOfEight(KeepsFn(SalaryAbove(80000.0)), rows);
  }

  // ---------------------------------------------------------------------------
  // SELECT name, salary

  lemma PiecesWithoutStar()
    ensures Free(P1, '*') && Free(P2, '*') && Free(P3, '*') && Free(P4, '*')
  {
  }

  /** The query has no `select *`: it holds no `*` at all. */
  lemma TopEarnersNotSelectAll(nq: string)
    requires Assembled(nq)
    ensures !Contains(nq, "select *")
  {
    PiecesWithoutStar();
    AssembledFree(nq, '*');
    MissingCharNotContained(nq, "select *", 7);
  }

  /** A character missing from all four pieces is missing from the query. */
  lemma AssembledFree(nq: string, c: char)
    requires Assembled(nq)
    requires Free(P1, c) && Free(P2, c) && Free(P3, c) && Free(P4, c)
    ensures Free(nq, c)
  {
    forall i | 0 <= i < |nq| ensures nq[i] != c {
      if i < 20 {
        assert nq[i] == nq[..20][i];
      } else if i < 35 {
        assert nq[i] == nq[20..35][i - 20];
      } else if i < 56 {
        assert nq[i] == nq[35..56][i - 35];
      } else {
        assert nq[i] == nq[56..][i - 56];
      }
    }
  }

  lemma PiecesWithoutF()
    ensures Free(P1, 'f')
  {
  }

  /** `select` starts the query and the first `from` is at index 20. */
  lemma TopEarnersSelectFrom(nq: string)
    requires Assembled(nq)
    ensures IndexOf(nq, "select") == 0
    ensures IndexOf(nq, "from") == 20
  {
    assert nq[0..6] == nq[..20][..6] == P1[..6] == "select";
    assert OccursAt(nq, "select", 0);
    PiecesWithoutF();
    assert nq[20..24] == nq[20..35][..4] == P2[..4] == "from";
    FirstOccurrence(nq, "from", 0, 20);
  }

  lemma SelectClauseTrimmed()
    ensures Trim(" name, salary ") == "name, salary"
  {
    SelectClausePadded("name, salary", " name, salary ");
    TrimBlankEnds("name, salary");
  }

  lemma SelectClausePadded(clause: string, padded: string)
    requires clause == "name, salary" && padded == " name, salary "
    ensures |clause| > 0 && !IsWhitespace(clause[0]) && !IsWhitespace(clause[|clause| - 1])
    ensures " " + clause + " " == padded
  {
    assert clause[0] == 'n' && clause[11] == 'y';
  }

  /** One blank at each end of a string without white space at its ends is trimmed off. */
  lemma TrimBlankEnds(wc: string)
    requires |wc| > 0 && !IsWhitespace(wc[0]) && !IsWhitespace(wc[|wc| - 1])
    ensures Trim(" " + wc + " ") == wc
  {
    var t := " " + wc + " ";
    assert IsWhitespace(t[0]) && IsWhitespace(t[|wc| + 1]) && t[1] == wc[0] && t[|wc|] == wc[|wc| - 1];
    TrimSlice(t, 1, |wc| + 1);
    assert t[1..|wc| + 1] == wc;
  }

  lemma SelectClauseSplit()
    ensures Split("name, salary", ',') == ["name", " salary"]
  {
    var a, b := "name", " salary";
    SelectClausePieces(a, b, "name, salary");
    SplitJoin([a, b], ',');
    JoinCons(a, [b], ',');
  }

  lemma SelectClausePieces(a: string, b: string, clause: string)
    requires a == "name" && b == " salary" && clause == "name, salary"
    ensures Free(a, ',') && Free(b, ',')
    ensures a + [','] + b == clause
  {
  }

  lemma SelectTokensTrimmed()
    ensures TrimEach(["name", " salary"]) == ["name", "salary"]
  {
    var a, b := "name", "salary";
    TokenEnds(a, b, " salary");
    TrimOfTrimmed(a);
    TrimBlankPrefix(b);
    TrimEachPair(a, " " + b);
  }

  lemma TokenEnds(a: string, b: string, pb: string)
    requires a == "name" && b == "salary" && pb == " salary"
    ensures |a| > 0 && !IsWhitespace(a[0]) && !IsWhitespace(a[|a| - 1])
    ensures |b| > 0 && !IsWhitespace(b[0]) && !IsWhitespace(b[|b| - 1])
    ensures " " + b == pb
  {
    assert a[0] == 'n' && a[3] == 'e' && b[0] == 's' && b[5] == 'y';
  }

  /** Trimming each of two tokens. */
  lemma TrimEachPair(a: string, b: string)
    ensures TrimEach([a, b]) == [Trim(a), Trim(b)]
  {
  }

  /** `" name, salary "` splits into the tokens `name` and `salary`. */
  lemma SelectTokens()
    ensures TrimEach(Split(Trim(" name, salary "), ',')) == ["name", "salary"]
  {
    SelectClauseTrimmed();
    SelectClauseSplit();
    SelectTokensTrimmed();
  }

  lemma TopEarnersSelectClause(nq: string)
    requires Assembled(nq)
    ensures Substring(nq, 6, 20) == " name, salary "
  {
    assert nq[6..20] == nq[..20][6..];
  }

  /** The query projects on the tokens `name` and `salary`. */
  lemma TopEarnersSelected(nq: string)
    requires Assembled(nq)
    ensures SelectedColumns(nq) == Some(["name", "salary"])
  {
    TopEarnersNotSelectAll(nq);
    TopEarnersSelectFrom(nq);
    TopEarnersSelectClause(nq);
    SelectedBetween(nq, 20, " name, salary ");
    SelectTokens();
  }

  /** With `select` at 0 and the first `from` further on, the tokens come from the text between them. */
  lemma SelectedBetween(nq: string, f: int, clause: string)
    requires IndexOf(nq, "select") == 0 && IndexOf(nq, "from") == f && f > 0
    requires !Contains(nq, "select *") && Substring(nq, 6, f) == clause
    ensures SelectedColumns(nq) == Some(TrimEach(Split(Trim(clause), ',')))
  {
  }

  /** Which `employees` columns the tokens `name` and `salary` request. */
  lemma RequestedEmployeeColumns()
    ensures var p := RequestedFn(["name", "salary"]);
            var cols := EmployeeColumns;
            !p(cols[0]) && p(cols[1]) && !p(cols[2]) && p(cols[3]) && !p(cols[4]) && !p(cols[5])
  {
    var cols := EmployeeColumns;
    assert cols[0] == "id" && cols[1] == "name" && cols[2] == "department";
    assert cols[3] == "salary" && cols[4] == "hire_date" && cols[5] == "email";
    MissingCharNotContained("name", "id", 0);
    MissingCharNotContained("salary", "id", 0);
    NotRequested("id");
    LongerNotContained("name", "department");
    LongerNotContained("salary", "department");
    NotRequested("department");
    LongerNotContained("name", "hire_date");
    LongerNotContained("salary", "hire_date");
    NotRequested("hire_date");
    LongerNotContained("name", "email");
    MissingCharNotContained("salary", "email", 0);
    NotRequested("email");
    TokenRequested(0);
    TokenRequested(1);
  }

  /** A column neither token is nor contains is not requested. */
  lemma NotRequested(col: string)
    requires col != "name" && col != "salary"
    requires !Contains("name", col) && !Contains("salary", col)
    ensures !Requested(["name", "salary"], col)
  {
    var tokens := ["name", "salary"];
    assert forall t :: t in tokens ==> t == "name" || t == "salary";
  }

  /** Each token requests the column of its own name. */
  lemma TokenRequested(i: nat)
    requires i < 2
    ensures Requested(["name", "salary"], ["name", "salary"][i])
  {
    var tokens := ["name", "salary"];
    assert tokens[i] in tokens;
  }

  /** Filtering six columns of which the second and fourth pass. */
  lemma FilterOfSix(p: string -> bool, cols: seq<string>)
    requires |cols| == 6
    requires !p(cols[0]) && p(cols[1]) && !p(cols[2]) && p(cols[3]) && !p(cols[4]) && !p(cols[5])
    ensures Filter(p, cols) == [cols[1], cols[3]]
  {
    var a, b := cols[..3], cols[3..];
    assert cols == a + b;
    FilterAppend(p, a, b);
    assert a[0] == cols[0] && a[1] == cols[1] && a[2] == cols[2];
    assert b[0] == cols[3] && b[1] == cols[4] && b[2] == cols[5];
    FilterSecondOfThree(p, a);
    FilterFirstOfThree(p, b);
  }

  lemma FilterSecondOfThree<T>(p: T -> bool, s: seq<T>)
    requires |s| == 3 && !p(s[0]) && p(s[1]) && !p(s[2])
    ensures Filter(p, s) == [s[1]]
  {
    FilterPrefixStep(p, s, 0);
    FilterPrefixStep(p, s, 1);
    FilterPrefixStep(p, s, 2);
    assert s[..0] == [] && s[..3] == s;
  }

  lemma FilterFirstOfThree<T>(p: T -> bool, s: seq<T>)
    requires |s| == 3 && p(s[0]) && !p(s[1]) && !p(s[2])
    ensures Filter(p, s) == [s[0]]
  {
    FilterPrefixStep(p, s, 0);
    FilterPrefixStep(p, s, 1);
    FilterPrefixStep(p, s, 2);
    assert s[..0] == [] && s[..3] == s;
  }

  /** Of the `employees` columns, exactly `name` and `salary` are requested. */
  lemma TopEarnersColumns()
    ensures ProjectColumns(EmployeeColumns, ["name", "salary"]) == ["name", "salary"]
  {
    RequestedEmployeeColumns();
    FilterOfSix(RequestedFn(["name", "salary"]), EmployeeColumns);
  }

  /** An employee row cut down to `name` and `salary`. */
  function NameSalary(name: string, salary: real): Row {
    map["name" := VStr(name), "salary" := VNum(salary)]
  }

  lemma EmployeeProjection(e: Employee)
    ensures ProjectRow(e.ToRow(), ["name", "salary"]) == NameSalary(e.name, e.salary)
  {
    var r := ProjectRow(e.ToRow(), ["name", "salary"]);
    assert r.Keys == {"name", "salary"};
  }

  /** The four kept rows cut down to `name` and `salary`, in table order. */
  lemma TopEarnersProjected()
    ensures var rows := Employees.data;
            ProjectRows([rows[0], rows[2], rows[4], rows[7]], ["name", "salary"])
              == [NameSalary("John Doe", 95000.0), NameSalary("Mike Johnson", 88000.0),
                  NameSalary("David Brown", 102000.0), NameSalary("Lisa Anderson", 91000.0)]
  {
    var e := EmployeeRecords;
    EmployeeProjection(e[0]);
    EmployeeProjection(e[2]);
    EmployeeProjection(e[4]);
    EmployeeProjection(e[7]);
  }

  // ---------------------------------------------------------------------------
  // ORDER BY salary DESC

  lemma PiecesWithoutB()
    ensures Free(P1, 'b') && Free(P2, 'b') && Free(P3, 'b') && Free(P4[..6], 'b')
  {
  }

  /** The first `order by` is at index 56: no `b` comes six places after an earlier index. */
  lemma TopEarnersOrderIndex(nq: string)
    requires Assembled(nq)
    ensures IndexOf(nq, "order by") == 56
  {
    PiecesWithoutB();
    FreeConcat(P1, P2, 'b');
    FreeConcat(P1 + P2, P3, 'b');
    FreeConcat(P1 + P2 + P3, P4[..6], 'b');
    assert nq[..56] == nq[..20] + nq[20..35] + nq[35..56] == P1 + P2 + P3;
    assert nq[56..62] == nq[56..][..6] == P4[..6];
    assert nq[..62] == nq[..56] + nq[56..62];
    assert nq[56..64] == nq[56..][..8] == P4[..8] == "order by";
    FirstOccurrence(nq, "order by", 6, 56);
  }

  /** The text after `order by`, trimmed, is `salary desc`. */
  lemma TopEarnersOrderClause(nq: string)
    requires Assembled(nq)
    ensures Trim(Substring(nq, 64, 76)) == "salary desc"
  {
    assert Substring(nq, 64, 76) == nq[56..][8..] == P4[8..];
    OrderPieceTail("salary desc");
    TrimBlankPrefix("salary desc");
  }

  lemma OrderPieceTail(key: string)
    requires key == "salary desc"
    ensures P4[8..] == " " + key
    ensures |key| > 0 && !IsWhitespace(key[0]) && !IsWhitespace(key[|key| - 1])
  {
    assert key[0] == 's' && key[10] == 'c';
  }

  /** The query orders by descending salary. */
  lemma TopEarnersOrder(nq: string)
    requires Assembled(nq)
    ensures OrderShapeOf(nq) == SalaryDesc
  {
    TopEarnersOrderIndex(nq);
    TopEarnersOrderClause(nq);
    assert OccursAt("salary desc", "salary desc", 0);
  }

  /** Sorting four elements that compare as the four projected salaries do. */
  lemma SortOfFour<T>(le: (T, T) -> bool, s: seq<T>)
    requires |s| == 4
    requires le(s[0], s[1]) && !le(s[0], s[2]) && le(s[2], s[3]) && le(s[0], s[3]) && !le(s[1], s[3])
    ensures SortBy(le, s) == [s[2], s[0], s[3], s[1]]
  {
    assert s[..0] == [];
    assert s[..1][..0] == s[..0];
    assert SortBy(le, s[..1]) == [s[0]];
    assert s[..2][..1] == s[..1];
    assert Insert(le, s[1], [s[0]]) == [s[0], s[1]];
    assert SortBy(le, s[..2]) == [s[0], s[1]];
    assert s[..3][..2] == s[..2];
    assert Insert(le, s[2], [s[0], s[1]]) == [s[2], s[0], s[1]];
    assert SortBy(le, s[..3]) == [s[2], s[0], s[1]];
    assert s[..3] == s[..|s| - 1];
    assert Insert(le, s[3], [s[1]]) == [s[3], s[1]];
    assert Insert(le, s[3], [s[0], s[1]]) == [s[0], s[3], s[1]];
  }

  /** The projected rows by descending salary: David, John, Lisa, Mike. */
  lemma TopEarnersSorted()
    ensures SortBy(Descending("salary"),
                   [NameSalary("John Doe", 95000.0), NameSalary("Mike Johnson", 88000.0),
                    NameSalary("David Brown", 102000.0), NameSalary("Lisa Anderson", 91000.0)])
              == [NameSalary("David Brown", 102000.0), NameSalary("John Doe", 95000.0),
                  NameSalary("Lisa Anderson", 91000.0), NameSalary("Mike Johnson", 88000.0)]
  {
    var s := [NameSalary("John Doe", 95000.0), NameSalary("Mike Johnson", 88000.0),
              NameSalary("David Brown", 102000.0), NameSalary("Lisa Anderson", 91000.0)];
    assert NumberOr0(s[0], "salary") == 95000.0;
    assert NumberOr0(s[1], "salary") == 88000.0;
    assert NumberOr0(s[2], "salary") == 102000.0;
    assert NumberOr0(s[3], "salary") == 91000.0;
    SortOfFour(Descending("salary"), s);
  }

  // ---------------------------------------------------------------------------
  // The whole run

  /** The rows kept by the WHERE stage, projected on `name` and `salary`, in table order. */
  const ProjectedTopEarners: seq<Row> :=
    [NameSalary("John Doe", 95000.0), NameSalary("Mike Johnson", 88000.0),
     NameSalary("David Brown", 102000.0), NameSalary("Lisa Anderson", 91000.0)]

  /** The same rows by descending salary. */
  const SortedTopEarners: seq<Row> :=
    [NameSalary("David Brown", 102000.0), NameSalary("John Doe", 95000.0),
     NameSalary("Lisa Anderson", 91000.0), NameSalary("Mike Johnson", 88000.0)]

  /** The SELECT and WHERE stages over the `employees` table. */
  lemma TopEarnersProjection(nq: string)
    requires Assembled(nq)
    ensures SelectStage(nq, Employees.columns) == ["name", "salary"]
    ensures ProjectStage(nq, ApplyWhere(WhereFilterOf(nq), Employees.data), ["name", "salary"]) == ProjectedTopEarners
  {
    var rows := Employees.data;
    TopEarnersSelected(nq);
    TopEarnersColumns();
    TopEarnersWhere(nq);
    TopEarnersKept();
    TopEarnersProjected();
  }

  /** The ORDER BY stage and the row cap. */
  lemma TopEarnersOrdered(nq: string, collate: (string, string) -> bool)
    requires Assembled(nq)
    ensures Cap(ApplyOrder(OrderShapeOf(nq), ProjectedTopEarners, collate)) == SortedTopEarners
  {
    TopEarnersOrder(nq);
    TopEarnersSorted();
    assert Cap(SortedTopEarners) == SortedTopEarners;
  }

  /**
   * The sample query over the sample catalog returns the four employees paid
   * more than 80000, highest first, with just their name and salary.
   */
  lemma TopEarnersResult(collate: (string, string) -> bool)
    ensures Interpret(TopEarnersQuery, Datasets, collate)
              == QueryResult([NameSalary("David Brown", 102000.0), NameSalary("John Doe", 95000.0),
                              NameSalary("Lisa Anderson", 91000.0), NameSalary("Mike Johnson", 88000.0)],
                             ["name", "salary"], 4)
  {
    NormalizedTopEarners();
    var nq := NQ();
    TopEarnersDataset(nq);
    TopEarnersProjection(nq);
    TopEarnersOrdered(nq, collate);
  }
}
