/**
 * The saved-queries panel: the entries it lists, the shortened form in which
 * it shows each query, and its empty state.
 */
module SavedQueries {
  import opened Text

  /** A named query. The save time is display-only and is not kept. */
  datatype SavedQuery = SavedQuery(id: string, name: string, query: string)

  const SavedPreviewLength: nat := 50

  /** A query as the saved list shows it. */
  function TruncateQuery(query: string): string {
    Truncate(query, SavedPreviewLength)
  }

  /**
   * Short queries are shown as they are, longer ones as their first 50
   * characters and "..."; at most 53 characters result, they start with the
   * query's head, and shortening a shortened query changes nothing.
   */
  lemma TruncateQueryShape(query: string)
    ensures |query| <= 50 ==> TruncateQuery(query) == query
    ensures |query| > 50 ==> TruncateQuery(query) == query[..50] + "..."
    ensures |TruncateQuery(query)| <= 53
    ensures var k := if |query| < 50 then |query| else 50;
            TruncateQuery(query)[..k] == query[..k]
    ensures TruncateQuery(TruncateQuery(query)) == TruncateQuery(query)
  {
    TruncateProperties(query, SavedPreviewLength);
  }

  /** "No saved queries" is shown when the list is empty. */
  predicate ShowsEmptyState(saved: seq<SavedQuery>) {
    |saved| == 0
  }

  lemma EmptyStateIffNoneSaved(saved: seq<SavedQuery>)
    ensures ShowsEmptyState(saved) <==> saved == []
  {
  }
}
