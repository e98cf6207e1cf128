/**
 * The query-history panel: the items it lists, the shortened form in which it
 * shows each query, and when it offers "Clear All" or its empty state.
 */
module QueryHistory {
  import opened Text

  /** One executed query. The timestamp is display-only and is not kept. */
  datatype HistoryItem = HistoryItem(id: string, query: string, executionTime: nat)

  const HistoryPreviewLength: nat := 60

  /** A query as the history list shows it. */
  function TruncateQuery(query: string): string {
    Truncate(query, HistoryPreviewLength)
  }

  /**
   * Short queries are shown as they are, longer ones as their first 60
   * characters and "..."; at most 63 characters result, they start with the
   * query's head, and shortening a shortened query changes nothing.
   */
  lemma TruncateQueryShape(query: string)
    ensures |query| <= 60 ==> TruncateQuery(query) == query
    ensures |query| > 60 ==> TruncateQuery(query) == query[..60] + "..."
    ensures |TruncateQuery(query)| <= 63
    ensures var k := if |query| < 60 then |query| else 60;
            TruncateQuery(query)[..k] == query[..k]
    ensures TruncateQuery(TruncateQuery(query)) == TruncateQuery(query)
  {
    TruncateProperties(query, HistoryPreviewLength);
  }

  /** "Clear All" is offered when there is something to clear. */
  predicate ShowsClearAll(history: seq<HistoryItem>) {
    |history| > 0
  }

  /** "No queries executed yet" is shown when the list is empty. */
  predicate ShowsEmptyState(history: seq<HistoryItem>) {
    |history| == 0
  }

  /** Exactly one of the two is shown. */
  lemma ClearAllOrEmptyState(history: seq<HistoryItem>)
    ensures ShowsClearAll(history) <==> !ShowsEmptyState(history)
    ensures ShowsEmptyState(history) <==> history == []
  {
  }
}
