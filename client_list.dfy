/** The search box and the ten-per-page paging shared by the admin list pages
    (client/src/pages/admin-rewards.jsx, admin-customers.jsx and admin-transactions.jsx).
    Each page keeps `searchTerm` and `currentPage` in React state, filters the fetched rows
    by the term and shows `filtered.slice((currentPage - 1) * 10, (currentPage - 1) * 10 + 10)`. */
module ClientList {
  import opened Util

  /** `const [itemsPerPage] = useState(10)`. */
  const ItemsPerPage: nat := 10

  /** A text field of a listed row matches the term: `field?.toLowerCase().includes(term.toLowerCase())`,
      where a missing field gives `undefined`, which is falsy. */
  predicate FieldMatches(field: Option<string>, term: string)
  {
    field.Some? && ContainsIgnoringCase(field.value, term)
  }

  /** The rows of the current page. */
  function Visible<T>(filtered: seq<T>, page: int): seq<T>
  {
    PageSlice(filtered, page, ItemsPerPage)
  }

  /** What the page shows below the table: the pagination widget when some row matches, the
      "no ... found" text otherwise. */
  datatype Footer = PaginationBar(totalPages: nat) | NothingFound

  function FooterOf<T>(filtered: seq<T>): (f: Footer)
    ensures f.PaginationBar? <==> |filtered| > 0
  {
    if |filtered| > 0 then PaginationBar(TotalPages(filtered, ItemsPerPage)) else NothingFound
  }

  /** When the pagination widget is shown, it offers at least one page, and every page it
      offers holds between one and ten rows, the ones from (page - 1) * 10 on; together the
      pages show every matching row once, in order. */
  lemma FooterPagesHoldRows<T>(filtered: seq<T>, page: int)
    requires FooterOf(filtered).PaginationBar? && 1 <= page <= FooterOf(filtered).totalPages
    ensures FooterOf(filtered).totalPages >= 1
    ensures 1 <= |Visible(filtered, page)| <= ItemsPerPage
    ensures var start := (page - 1) * ItemsPerPage;
      && start + |Visible(filtered, page)| <= |filtered|
      && Visible(filtered, page) == filtered[start..start + |Visible(filtered, page)|]
    ensures Pages(filtered, ItemsPerPage, FooterOf(filtered).totalPages) == filtered
  {
    PageSliceShape(filtered, page, ItemsPerPage);
    PagesCoverAll(filtered, ItemsPerPage);
  }

  /** Page 1, where every search starts, shows the first ten matches (all of them if fewer). */
  lemma FirstPageShowsFirstRows<T>(filtered: seq<T>)
    ensures Visible(filtered, 1) == filtered[..if |filtered| < ItemsPerPage then |filtered| else ItemsPerPage]
  {
    assert SliceIndex(0, |filtered|) == 0;
  }

  /** A page past the last one shows no row. */
  lemma PagePastTheEndIsEmpty<T>(filtered: seq<T>, page: int)
    requires page > TotalPages(filtered, ItemsPerPage)
    ensures Visible(filtered, page) == []
  {
    var n := TotalPages(filtered, ItemsPerPage);
    MulMono(n, page - 1, ItemsPerPage);
    assert SliceIndex((page - 1) * ItemsPerPage, |filtered|) == |filtered|;
  }

  /** Every row on a page of a filtered list is one of the fetched rows, and the filter holds of it. */
  lemma VisibleRowsMatch<T>(rows: seq<T>, p: T -> bool, page: int, k: nat)
    requires k < |Visible(Filter(rows, p), page)|
    ensures Visible(Filter(rows, p), page)[k] in rows && p(Visible(Filter(rows, p), page)[k])
  {
    var f := Filter(rows, p);
    PageSliceAt(f, page, ItemsPerPage, k);
  }

  /** The status badge of the reward and customer lists: `value === 'active' ? 'Active' : 'Inactive'`. */
  function ActiveLabel(value: string): (text: string)
    ensures text == "Active" <==> value == "active"
    ensures text == "Active" || text == "Inactive"
  {
    if value == "active" then "Active" else "Inactive"
  }

  /** The state one list page keeps. */
  class ListView {
    var searchTerm: string
    var currentPage: int

    /** `useState("")` and `useState(1)`. */
    constructor ()
      ensures searchTerm == "" && currentPage == 1
    {
      searchTerm, currentPage := "", 1;
    }

    /** `handleSearchChange`: `setSearchTerm(value)`, and the effect keyed on `searchTerm`
        that runs when the term actually changed and puts the list back on page 1. */
    method Search(term: string)
      modifies this
      ensures searchTerm == term
      ensures currentPage == if term == old(searchTerm) then old(currentPage) else 1
    {
      if term != searchTerm {
        currentPage := 1;
      }
      searchTerm := term;
    }

    /** `handlePageChange(page)`: the page the pagination widget asks for, as given. */
    method ChangePage(page: int)
      modifies this
      ensures currentPage == page && searchTerm == old(searchTerm)
    {
      currentPage := page;
    }
  }
}
