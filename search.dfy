/** The free-text search shared by the withdrawal-request and admin lists:
    the query is trimmed and lower-cased, a blank query keeps every row, and
    any other query keeps the rows whose lower-cased search text contains it. */
module Search {
  import opened Wrappers
  import opened Text

  /** `query.trim().toLowerCase()`: empty exactly for a blank query. */
  function NormalizedQuery(query: string): (q: string)
    ensures q == [] <==> AllWhitespace(query)
    ensures |q| <= |query|
    ensures forall i :: 0 <= i < |q| ==> !IsAsciiUpper(q[i])
  {
    ToLower(Trim(query))
  }

  /** `${primary} ${secondary || ""}`: the text a row is searched by. */
  function SearchText(primary: string, secondary: Option<string>): string {
    primary + " " + secondary.GetOr("")
  }

  /** The row test `q ? text.toLowerCase().includes(q) : true`. */
  predicate QueryMatches(text: string, query: string) {
    var q := NormalizedQuery(query);
    q == [] || Contains(ToLower(text), q)
  }

  /** A blank or whitespace-only query keeps every row. */
  lemma BlankQueryMatchesAll(text: string, query: string)
    requires AllWhitespace(query)
    ensures QueryMatches(text, query)
  {
  }

  /** A query that is not blank keeps a row exactly when the lower-cased
      search text contains the trimmed, lower-cased query. */
  lemma NonBlankQueryMatches(text: string, query: string)
    requires !AllWhitespace(query)
    ensures QueryMatches(text, query) <==> Contains(ToLower(text), ToLower(Trim(query)))
    ensures Trim(query) != []
  {
  }

  /** Matching ignores letter case, in the query and in the row alike. */
  lemma QueryMatchesIgnoresCase(text: string, query: string)
    ensures QueryMatches(ToLower(text), ToLower(query)) == QueryMatches(text, query)
    ensures QueryMatches(ToLower(text), query) == QueryMatches(text, query)
    ensures QueryMatches(text, ToLower(query)) == QueryMatches(text, query)
  {
    ToLowerIdempotent(text);
    TrimToLower(query);
    ToLowerIdempotent(Trim(query));
  }

  /** Whitespace around the query does not change which rows it keeps. */
  lemma QueryMatchesIgnoresPadding(text: string, query: string, pad: string)
    requires AllWhitespace(pad)
    ensures QueryMatches(text, pad + query + pad) == QueryMatches(text, query)
  {
    TrimPadding(query, pad);
  }
}
