/** The search effect shared by the dashboard pages that search on the server: it runs
    whenever the term or the list changes and stores the list the table is drawn from. */
module ServerSearch {
  import opened Wrappers
  import opened JsText

  /** The list the search effect stores, given the list it had: under a blank term (one whose
      `trim()` is empty, see `TrimEmptyIffAllSpace`) the items themselves; otherwise the
      server's search result, or the old list when the search failed. */
  function Refreshed<T>(items: seq<T>, term: string, search: Outcome<seq<T>>, previous: seq<T>): (r: seq<T>)
    ensures IsBlank(term) ==> r == items
    ensures !IsBlank(term) ==> r == (if search.Returned? then search.value else previous)
  {
    if IsBlank(term) then items
    else if search.Returned? then search.value
    else previous
  }
}
