/** The `/search-album` page: the search box and the page number of the results. */
module SearchAlbumRoute {
  import opened Wrappers
  import opened Queries
  import opened PaginationControls

  /** `handlePageChange`'s guard: below 1, or past the known page count, the request is ignored. */
  function PageAfter(currentPage: int, newPage: int, pages: Option<int>): int {
    if newPage < 1 || (pages.Some? && newPage > pages.value) then currentPage else newPage
  }

  /**
   * The page stays at least 1 and, when the page count is known and the current
   * page is within it, within the page count. An accepted request is taken as is.
   */
  lemma PageAfterSpec(currentPage: int, newPage: int, pages: Option<int>)
    ensures currentPage >= 1 ==> PageAfter(currentPage, newPage, pages) >= 1
    ensures pages.Some? && currentPage <= pages.value ==> PageAfter(currentPage, newPage, pages) <= pages.value
    ensures PageAfter(currentPage, newPage, pages) == newPage <==>
      newPage == currentPage || (newPage >= 1 && (pages.None? || newPage <= pages.value))
  {
  }

  /** Any button press keeps a page within range within range, whatever the button. */
  lemma ButtonKeepsRange(b: Button, currentPage: int, pages: int)
    requires 1 <= currentPage <= pages
    ensures var next := PageAfter(currentPage, Target(b, currentPage, pages), Some(pages));
      1 <= next <= pages
  {
  }

  /** The pagination controls show only for a non-empty result list with more than one page. */
  predicate ShowPagination(resultCount: nat, pagination: Option<Pagination>) {
    resultCount > 0 && pagination.Some? && pagination.value.pages > 1
  }

  class SearchAlbumPage {
    var searchQuery: string
    var currentPage: int

    predicate Valid()
      reads this
    {
      currentPage >= 1
    }

    constructor()
      ensures Valid() && searchQuery == "" && currentPage == 1
    {
      searchQuery := "";
      currentPage := 1;
    }

    /** `handlePageChange`, with the page count of the results shown, if any. */
    method HandlePageChange(newPage: int, pages: Option<int>)
      requires Valid()
      modifies this
      ensures Valid()
      ensures currentPage == PageAfter(old(currentPage), newPage, pages)
      ensures searchQuery == old(searchQuery)
    {
      if newPage < 1 || (pages.Some? && newPage > pages.value) {
        return;
      }
      currentPage := newPage;
    }

    /** Typing in the search box: the query changes and the first page is shown again. */
    method OnQueryInput(value: string)
      requires Valid()
      modifies this
      ensures Valid()
      ensures searchQuery == value && currentPage == 1
    {
      searchQuery := value;
      currentPage := 1;
    }
  }
}
