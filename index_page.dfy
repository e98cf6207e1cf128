/**
 * The console page: it classifies a query before running it, sends create,
 * delete and dump queries through the confirmation gate, runs the rest
 * through the interpreter, and keeps the result, the last twenty runs, the
 * saved queries and the running total of returned rows.
 */
module IndexPage {
  import opened Text
  import opened Values
  import opened Sequences
  import opened SampleData
  import opened QuerySimulator
  import opened ConfirmationDialog
  import opened QueryHistory
  import opened SavedQueries

  // ---------------------------------------------------------------------------
  // Classifying a query

  /** Tests prefixes of the upper-cased, trimmed query. */
  function GetQueryType(query: string): QueryType {
    ClassifyUpper(Trim(ToUpper(query)))
  }

  /** The prefix tests, in the page's order. */
  function ClassifyUpper(u: string): QueryType {
    if StartsWith(u, "CREATE") || StartsWith(u, "INSERT") || StartsWith(u, "ALTER") then Create
    else if StartsWith(u, "DELETE") || StartsWith(u, "DROP") then Delete
    else if StartsWith(u, "DUMP") then Dump
    else Normal
  }

  lemma PrefixHead(u: string, p: string)
    requires |p| >= 2 && StartsWith(u, p)
    ensures u[0] == p[0] && u[1] == p[1]
  {
    assert u[..|p|][0] == u[0] && u[..|p|][1] == u[1];
  }

  /** A text starting with a delete keyword starts with no create keyword. */
  lemma DeleteExcludesCreate(u: string)
    requires StartsWith(u, "DELETE") || StartsWith(u, "DROP")
    ensures !StartsWith(u, "CREATE") && !StartsWith(u, "INSERT") && !StartsWith(u, "ALTER")
  {
    if StartsWith(u, "DELETE") {
      PrefixHead(u, "DELETE");
    } else {
      PrefixHead(u, "DROP");
    }
    if StartsWith(u, "CREATE") { PrefixHead(u, "CREATE"); }
    if StartsWith(u, "INSERT") { PrefixHead(u, "INSERT"); }
    if StartsWith(u, "ALTER") { PrefixHead(u, "ALTER"); }
  }

  /** A text starting with DUMP starts with no create or delete keyword. */
  lemma DumpExcludesOthers(u: string)
    requires StartsWith(u, "DUMP")
    ensures !StartsWith(u, "CREATE") && !StartsWith(u, "INSERT") && !StartsWith(u, "ALTER")
    ensures !StartsWith(u, "DELETE") && !StartsWith(u, "DROP")
  {
    PrefixHead(u, "DUMP");
    if StartsWith(u, "CREATE") { PrefixHead(u, "CREATE"); }
    if StartsWith(u, "INSERT") { PrefixHead(u, "INSERT"); }
    if StartsWith(u, "ALTER") { PrefixHead(u, "ALTER"); }
    if StartsWith(u, "DELETE") { PrefixHead(u, "DELETE"); }
    if StartsWith(u, "DROP") { PrefixHead(u, "DROP"); }
  }

  /** A text starting with UPDATE starts with none of the six keywords. */
  lemma UpdateExcludesAll(u: string)
    requires StartsWith(u, "UPDATE")
    ensures !StartsWith(u, "CREATE") && !StartsWith(u, "INSERT") && !StartsWith(u, "ALTER")
    ensures !StartsWith(u, "DELETE") && !StartsWith(u, "DROP") && !StartsWith(u, "DUMP")
  {
    PrefixHead(u, "UPDATE");
    if StartsWith(u, "CREATE") { PrefixHead(u, "CREATE"); }
    if StartsWith(u, "INSERT") { PrefixHead(u, "INSERT"); }
    if StartsWith(u, "ALTER") { PrefixHead(u, "ALTER"); }
    if StartsWith(u, "DELETE") { PrefixHead(u, "DELETE"); }
    if StartsWith(u, "DROP") { PrefixHead(u, "DROP"); }
    if StartsWith(u, "DUMP") { PrefixHead(u, "DUMP"); }
  }

  /**
   * The six prefixes exclude one another, so each kind is chosen exactly when
   * the text starts with one of its own keywords; anything else, UPDATE
   * included, is a normal query.
   */
  lemma QueryTypeByPrefix(query: string)
    ensures var u := Trim(ToUpper(query));
            && (GetQueryType(query) == Create <==>
                  StartsWith(u, "CREATE") || StartsWith(u, "INSERT") || StartsWith(u, "ALTER"))
            && (GetQueryType(query) == Delete <==> StartsWith(u, "DELETE") || StartsWith(u, "DROP"))
            && (GetQueryType(query) == Dump <==> StartsWith(u, "DUMP"))
            && (StartsWith(u, "UPDATE") ==> GetQueryType(query) == Normal)
  {
    var u := Trim(ToUpper(query));
    if StartsWith(u, "DELETE") || StartsWith(u, "DROP") {
      DeleteExcludesCreate(u);
    }
    if StartsWith(u, "DUMP") {
      DumpExcludesOthers(u);
    }
    if StartsWith(u, "UPDATE") {
      UpdateExcludesAll(u);
    }
  }

  /** Classification ignores the case of ASCII letters. */
  lemma QueryTypeIgnoresCase(query: string)
    ensures GetQueryType(ToLower(query)) == GetQueryType(query)
  {
    assert ToUpper(ToLower(query)) == ToUpper(query);
  }

  // ---------------------------------------------------------------------------
  // The lists the page keeps

  const MaxHistory: nat := 20

  /** The history after a run: the new item first, then at most 19 earlier ones. */
  function PushHistory(item: HistoryItem, history: seq<HistoryItem>): seq<HistoryItem> {
    [item] + (if |history| <= MaxHistory - 1 then history else history[..MaxHistory - 1])
  }

  /** The newest run comes first, the earlier ones keep their order, and at most 20 are kept. */
  lemma PushHistoryKeepsLatestTwenty(item: HistoryItem, history: seq<HistoryItem>)
    ensures var r := PushHistory(item, history);
            && r[0] == item
            && |r| == (if |history| < MaxHistory then |history| + 1 else MaxHistory)
            && r[1..] == history[..|r| - 1]
  {
  }

  function NotHistoryId(id: string): HistoryItem -> bool {
    (item: HistoryItem) => item.id != id
  }

  function DeleteHistoryItem(history: seq<HistoryItem>, id: string): seq<HistoryItem> {
    Filter(NotHistoryId(id), history)
  }

  /** Deleting by id drops exactly the items with that id and keeps the rest in order. */
  lemma DeleteHistoryItemRemovesId(history: seq<HistoryItem>, id: string)
    ensures var r := DeleteHistoryItem(history, id);
            && IsSubsequence(r, history)
            && (forall x :: x in r <==> x in history && x.id != id)
            && (forall x :: multiset(r)[x] == if x.id != id then multiset(history)[x] else 0)
  {
    FilterIsSubsequence(NotHistoryId(id), history);
    FilterMultiset(NotHistoryId(id), history);
  }

  /** A saved entry is added in front, and only when a non-empty name was given. */
  function SaveEntry(saved: seq<SavedQuery>, name: Option<string>, id: string, query: string): seq<SavedQuery> {
    if name.Some? && name.value != "" then [SavedQuery(id, name.value, query)] + saved else saved
  }

  lemma SaveEntryPrepends(saved: seq<SavedQuery>, name: Option<string>, id: string, query: string)
    ensures var r := SaveEntry(saved, name, id, query);
            && (name.None? || name.value == "" ==> r == saved)
            && (name.Some? && name.value != "" ==>
                  |r| == |saved| + 1 && r[0] == SavedQuery(id, name.value, query) && r[1..] == saved)
  {
  }

  function NotSavedId(id: string): SavedQuery -> bool {
    (q: SavedQuery) => q.id != id
  }

  function DeleteSavedQuery(saved: seq<SavedQuery>, id: string): seq<SavedQuery> {
    Filter(NotSavedId(id), saved)
  }

  lemma DeleteSavedQueryRemovesId(saved: seq<SavedQuery>, id: string)
    ensures var r := DeleteSavedQuery(saved, id);
            && IsSubsequence(r, saved)
            && (forall x :: x in r <==> x in saved && x.id != id)
            && (forall x :: multiset(r)[x] == if x.id != id then multiset(saved)[x] else 0)
  {
    FilterIsSubsequence(NotSavedId(id), saved);
    FilterMultiset(NotSavedId(id), saved);
  }

  // ---------------------------------------------------------------------------
  // Export

  /** The result shown in the table. */
  datatype ShownResult = ShownResult(data: seq<Row>, columns: seq<string>, executionTime: nat)

  /** The CSV text an export writes, or nothing when there are no rows to export. */
  function ExportCsv(result: ShownResult, fmt: real -> string): Option<string> {
    if |result.data| == 0 then None else Some(CsvContent(result.data, result.columns, fmt))
  }

  /**
   * An export is refused exactly when the result is empty; otherwise, when no
   * column name or shown value holds a line break, the file has a header line
   * and one line per row.
   */
  lemma ExportGuard(result: ShownResult, fmt: real -> string)
    requires forall j :: 0 <= j < |result.columns| ==> Free(result.columns[j], '\n')
    requires forall i, j :: 0 <= i < |result.data| && 0 <= j < |result.columns| ==>
               Free(Display(result.data[i], result.columns[j], fmt), '\n')
    ensures ExportCsv(result, fmt).None? <==> result.data == []
    ensures ExportCsv(result, fmt).Some? ==>
              |Split(ExportCsv(result, fmt).value, '\n')| == |result.data| + 1
  {
    if result.data != [] {
      CsvHasOneLinePerRow(result.data, result.columns, fmt);
    }
  }

  // ---------------------------------------------------------------------------
  // The page state

  /** The confirmation dialog's request: whether it is open, for which query, of which kind. */
  datatype ConfirmationRequest = ConfirmationRequest(open: bool, query: string, kind: DialogType)

  /**
   * `simulateQueryExecution`: the interpreter's rows and columns over the
   * sample catalog, stamped with the simulated delay (a whole number of
   * milliseconds from 50 to 349, standing for the random one).
   */
  method SimulateQueryExecution(query: string, executionTime: nat, collate: (string, string) -> bool)
    returns (result: ShownResult)
    requires 50 <= executionTime <= 349
    ensures var r := Interpret(query, Datasets, collate);
            result == ShownResult(r.data, r.columns, executionTime)
  {
    var r := ParseAndExecuteQuery(query, Datasets, collate);
    result := ShownResult(r.data, r.columns, executionTime);
  }

  /** What pressing Run led to. */
  datatype RunOutcome = Rejected | AwaitingConfirmation | Executed

  class Console {
    var currentQuery: string
    var queryResult: ShownResult
    var isLoading: bool
    var queryHistory: seq<HistoryItem>
    var savedQueries: seq<SavedQuery>
    var totalResultRows: nat
    var confirmation: ConfirmationRequest

    /** Between events nothing is loading and the history holds at most 20 runs. */
    ghost predicate Valid()
      reads this
    {
      !isLoading && |queryHistory| <= MaxHistory
    }

    constructor()
      ensures Valid()
      ensures currentQuery == "" && queryResult == ShownResult([], [], 0)
      ensures queryHistory == [] && savedQueries == [] && totalResultRows == 0
      ensures confirmation == ConfirmationRequest(false, "", Create)
    {
      currentQuery := "";
      queryResult := ShownResult([], [], 0);
      isLoading := false;
      queryHistory := [];
      savedQueries := [];
      totalResultRows := 0;
      confirmation := ConfirmationRequest(false, "", Create);
    }

    /** Choosing a dataset puts its first sample query in the editor. */
    method LoadSampleQuery(d: Dataset)
      modifies this
      ensures currentQuery == if |d.sampleQueries| > 0 then d.sampleQueries[0] else old(currentQuery)
      ensures queryResult == old(queryResult) && queryHistory == old(queryHistory)
      ensures savedQueries == old(savedQueries) && totalResultRows == old(totalResultRows)
      ensures confirmation == old(confirmation) && isLoading == old(isLoading)
    {
      if |d.sampleQueries| > 0 {
        currentQuery := d.sampleQueries[0];
      }
    }

    /**
     * Runs `query` over the sample catalog. `id` stands for the clock-based id
     * and `executionTime` for the simulated delay (a whole number of
     * milliseconds from 50 to 349).
     */
    method ExecuteQuery(query: string, id: string, executionTime: nat, collate: (string, string) -> bool)
      requires Valid() && 50 <= executionTime <= 349
      modifies this
      ensures Valid()
      ensures var r := Interpret(query, Datasets, collate);
              && queryResult == ShownResult(r.data, r.columns, executionTime)
              && totalResultRows == old(totalResultRows) + |r.data|
      ensures queryHistory == PushHistory(HistoryItem(id, query, executionTime), old(queryHistory))
      ensures savedQueries == old(savedQueries) && confirmation == old(confirmation)
      ensures currentQuery == old(currentQuery)
    {
      isLoading := true;
      var result := SimulateQueryExecution(query, executionTime, collate);
      ShowResult(result, HistoryItem(id, query, executionTime));
      isLoading := false;
    }

    /** The success branch of `executeQuery`: show the result, record the run, add its rows to the total. */
    method ShowResult(result: ShownResult, item: HistoryItem)
      requires |queryHistory| <= MaxHistory
      modifies this
      ensures queryResult == result
      ensures queryHistory == PushHistory(item, old(queryHistory)) && |queryHistory| <= MaxHistory
      ensures totalResultRows == old(totalResultRows) + |result.data|
      ensures savedQueries == old(savedQueries) && confirmation == old(confirmation)
      ensures currentQuery == old(currentQuery) && isLoading == old(isLoading)
    {
      queryResult := result;
      queryHistory := PushHistory(item, queryHistory);
      totalResultRows := totalResultRows + |result.data|;
    }

    /**
     * Pressing Run: a blank query is refused, a create, delete or dump query
     * opens the confirmation dialog without running, and any other query runs.
     */
    method RunQuery(query: string, id: string, executionTime: nat, collate: (string, string) -> bool)
      returns (outcome: RunOutcome)
      requires Valid() && 50 <= executionTime <= 349
      modifies this
      ensures Valid()
      ensures outcome == Rejected <==> Trim(query) == ""
      ensures outcome == AwaitingConfirmation <==> Trim(query) != "" && GetQueryType(query) != Normal
      ensures outcome != Executed ==>
                queryResult == old(queryResult) && queryHistory == old(queryHistory)
                && totalResultRows == old(totalResultRows)
      ensures outcome == Rejected ==> confirmation == old(confirmation)
      ensures outcome == AwaitingConfirmation ==>
                confirmation == ConfirmationRequest(true, query, GetQueryType(query))
      ensures outcome == Executed ==>
                var r := Interpret(query, Datasets, collate);
                && queryResult == ShownResult(r.data, r.columns, executionTime)
                && confirmation == old(confirmation)
                && queryHistory == PushHistory(HistoryItem(id, query, executionTime), old(queryHistory))
                && totalResultRows == old(totalResultRows) + |r.data|
      ensures savedQueries == old(savedQueries) && currentQuery == old(currentQuery)
    {
      if Trim(query) == "" {
        return Rejected;
      }
      var t := GetQueryType(query);
      if t != Normal {
        confirmation := ConfirmationRequest(true, query, t);
        return AwaitingConfirmation;
      }
      ExecuteQuery(query, id, executionTime, collate);
      outcome := Executed;
    }

    /** The dialog's confirmation: runs exactly the query the dialog was opened for and closes it. */
    method ConfirmQuery(id: string, executionTime: nat, collate: (string, string) -> bool)
      requires Valid() && 50 <= executionTime <= 349
      modifies this
      ensures Valid()
      ensures var r := Interpret(old(confirmation.query), Datasets, collate);
              && queryResult == ShownResult(r.data, r.columns, executionTime)
              && totalResultRows == old(totalResultRows) + |r.data|
      ensures queryHistory == PushHistory(HistoryItem(id, old(confirmation.query), executionTime), old(queryHistory))
      ensures confirmation == old(confirmation).(open := false)
      ensures savedQueries == old(savedQueries) && currentQuery == old(currentQuery)
    {
      var query := confirmation.query;
      ExecuteQuery(query, id, executionTime, collate);
      confirmation := confirmation.(open := false);
    }

    /**
     * A press of the dialog's action button, as the dialog and the page handle
     * it together: the query runs, and the dialog closes, exactly when the
     * dialog allows confirming with the text typed so far.
     */
    method PressConfirm(dialog: Dialog, id: string, executionTime: nat, collate: (string, string) -> bool)
      returns (ran: bool)
      requires Valid() && 50 <= executionTime <= 349 && confirmation.open
      modifies this, dialog
      ensures Valid()
      ensures ran == CanConfirm(old(confirmation.kind), old(dialog.confirmationText))
      ensures ran ==>
                var r := Interpret(old(confirmation.query), Datasets, collate);
                && queryResult == ShownResult(r.data, r.columns, executionTime)
                && totalResultRows == old(totalResultRows) + |r.data|
                && queryHistory == PushHistory(HistoryItem(id, old(confirmation.query), executionTime), old(queryHistory))
                && confirmation == old(confirmation).(open := false) && dialog.confirmationText == ""
      ensures !ran ==>
                && queryResult == old(queryResult) && totalResultRows == old(totalResultRows)
                && queryHistory == old(queryHistory) && confirmation == old(confirmation)
                && dialog.confirmationText == old(dialog.confirmationText)
      ensures savedQueries == old(savedQueries) && currentQuery == old(currentQuery)
    {
      var outcome := dialog.HandleConfirm(confirmation.kind);
      ran := outcome.confirm;
      if outcome.confirm {
        ConfirmQuery(id, executionTime, collate);
      }
    }

    /** Cancel or dismissal: the dialog closes and nothing runs. */
    method CloseDialog()
      modifies this
      ensures confirmation == old(confirmation).(open := false)
      ensures queryHistory == old(queryHistory) && queryResult == old(queryResult)
      ensures totalResultRows == old(totalResultRows) && savedQueries == old(savedQueries)
      ensures isLoading == old(isLoading) && currentQuery == old(currentQuery)
    {
      confirmation := confirmation.(open := false);
    }

    /** Saving under the name the user typed (`None` when the prompt was dismissed). */
    method SaveQuery(query: string, name: Option<string>, id: string)
      modifies this
      ensures savedQueries == SaveEntry(old(savedQueries), name, id, query)
      ensures queryHistory == old(queryHistory) && queryResult == old(queryResult)
      ensures totalResultRows == old(totalResultRows) && confirmation == old(confirmation)
      ensures isLoading == old(isLoading) && currentQuery == old(currentQuery)
    {
      savedQueries := SaveEntry(savedQueries, name, id, query);
    }

    /** Exporting the shown result as CSV; nothing is written when it has no rows. */
    method ExportCsvFile(fmt: real -> string) returns (file: Option<string>)
      ensures file.None? <==> |queryResult.data| == 0
      ensures file.Some? ==> file.value == CsvContent(queryResult.data, queryResult.columns, fmt)
    {
      file := ExportCsv(queryResult, fmt);
    }

    method RemoveHistoryItem(id: string)
      requires Valid()
      modifies this
      ensures Valid()
      ensures queryHistory == DeleteHistoryItem(old(queryHistory), id)
      ensures savedQueries == old(savedQueries) && totalResultRows == old(totalResultRows)
      ensures queryResult == old(queryResult) && currentQuery == old(currentQuery)
      ensures confirmation == old(confirmation)
    {
      FilterIsSubsequence(NotHistoryId(id), queryHistory);
      SubsequenceLength(DeleteHistoryItem(queryHistory, id), queryHistory);
      queryHistory := DeleteHistoryItem(queryHistory, id);
    }

    method ClearHistory()
      requires Valid()
      modifies this
      ensures Valid()
      ensures queryHistory == []
      ensures savedQueries == old(savedQueries) && totalResultRows == old(totalResultRows)
      ensures queryResult == old(queryResult) && currentQuery == old(currentQuery)
      ensures confirmation == old(confirmation)
    {
      queryHistory := [];
    }

    method RemoveSavedQuery(id: string)
      modifies this
      ensures savedQueries == DeleteSavedQuery(old(savedQueries), id)
      ensures queryHistory == old(queryHistory) && totalResultRows == old(totalResultRows)
      ensures queryResult == old(queryResult) && currentQuery == old(currentQuery)
      ensures confirmation == old(confirmation) && isLoading == old(isLoading)
    {
      savedQueries := DeleteSavedQuery(savedQueries, id);
    }
  }
}
