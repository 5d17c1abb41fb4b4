/** The `Pagination` component: four buttons, each with a target page and a disabled flag. */
module PaginationControls {
  datatype Button = First | Previous | Next | Last

  /** The page a button asks for. */
  function Target(b: Button, currentPage: int, totalPages: int): int {
    match b
    case First => 1
    case Previous => currentPage - 1
    case Next => currentPage + 1
    case Last => totalPages
  }

  predicate Disabled(b: Button, currentPage: int, totalPages: int) {
    match b
    case First => currentPage == 1
    case Previous => currentPage == 1
    case Next => currentPage == totalPages
    case Last => currentPage == totalPages
  }

  /**
   * On a page within range, every enabled button asks for a page within range,
   * and a different page from the current one.
   */
  lemma EnabledTargetsInRange(b: Button, currentPage: int, totalPages: int)
    requires 1 <= currentPage <= totalPages
    requires !Disabled(b, currentPage, totalPages)
    ensures 1 <= Target(b, currentPage, totalPages) <= totalPages
    ensures Target(b, currentPage, totalPages) != currentPage
  {
  }

  /** On the only page, every button is disabled. */
  lemma SinglePageAllDisabled(b: Button)
    ensures Disabled(b, 1, 1)
  {
  }

  /** Off the range (a current page past the total), "Next" stays enabled and asks for a page past the end. */
  lemma PastTheEnd(currentPage: int, totalPages: int)
    requires currentPage > totalPages
    ensures !Disabled(Next, currentPage, totalPages) && Target(Next, currentPage, totalPages) > totalPages
  {
  }
}
