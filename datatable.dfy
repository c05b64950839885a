/**
 * The `DataTable` component (src/components/DataTable.tsx) as an object: its
 * props `columns` and `data` are constants, its `useState` hooks are fields,
 * and each event handler is a method that updates them as the corresponding
 * setter does. `Filtered`, `Paginated` and `HandleQuery` compute what the
 * component derives from that state.
 */
module Component {
  import opened Wrappers
  import opened Values
  import opened Seqs
  import opened QueryBuilder
  import opened Filtering
  import opened Sorting
  import opened Paging
  import opened Table

  /** The page sizes the page-size selector offers. */
  const PageSizes: seq<int> := [5, 10, 25, 50]

  class DataTable {
    const columns: seq<Column>
    const data: seq<Record>
    var filters: Filters
    var sortBy: Option<SortSpec>
    var searchTerm: string
    var currentPage: int
    var itemsPerPage: int

    /** What every handler keeps: a page of at least 1, a positive page size, and no filter key twice. */
    predicate Valid()
      reads this
    {
      currentPage >= 1 && itemsPerPage >= 1 && DistinctKeys(filters)
    }

    /** The rows that survive search, filters and sort in the current state. */
    function FilteredRows(): seq<Record>
      reads this
    {
      FilteredData(data, searchTerm, filters, sortBy)
    }

    /** `totalPages` in the current state. */
    function PageCount(): (r: int)
      reads this
      requires itemsPerPage >= 1
      ensures r >= 0
      ensures r == 0 <==> FilteredRows() == []
    {
      TotalPages(|FilteredRows()|, itemsPerPage)
    }

    /** The initial state: no filters, no sort, empty search, page 1, 10 rows per page. */
    constructor (columns: seq<Column>, data: seq<Record>)
      ensures this.columns == columns && this.data == data
      ensures filters == [] && sortBy == None && searchTerm == ""
      ensures currentPage == 1 && itemsPerPage == 10
      ensures Valid()
    {
      this.columns := columns;
      this.data := data;
      filters := [];
      sortBy := None;
      searchTerm := "";
      currentPage := 1;
      itemsPerPage := 10;
    }

    /** Typing in the search box: only the term changes; the page is kept. */
    method SetSearchTerm(term: string)
      requires Valid()
      modifies this
      ensures searchTerm == term
      ensures filters == old(filters) && sortBy == old(sortBy)
      ensures currentPage == old(currentPage) && itemsPerPage == old(itemsPerPage)
      ensures Valid()
    {
      searchTerm := term;
    }

    /** Choosing a page size: only the size changes; the current page is not reset. */
    method SetItemsPerPage(size: int)
      requires Valid() && size in PageSizes
      modifies this
      ensures itemsPerPage == size
      ensures filters == old(filters) && sortBy == old(sortBy) && searchTerm == old(searchTerm)
      ensures currentPage == old(currentPage)
      ensures Valid()
    {
      itemsPerPage := size;
    }

    /** `handleSort(field)`. */
    method HandleSort(field: string)
      requires Valid()
      modifies this
      ensures sortBy == Some(NextSort(old(sortBy), field))
      ensures filters == old(filters) && searchTerm == old(searchTerm)
      ensures currentPage == old(currentPage) && itemsPerPage == old(itemsPerPage)
      ensures Valid()
    {
      sortBy := Some(NextSort(sortBy, field));
    }

    /** A click on the header of column `i`: it sorts only when the column is sortable. */
    method ClickHeader(i: int)
      requires Valid() && 0 <= i < |columns|
      modifies this
      ensures sortBy == if columns[i].sortable then Some(NextSort(old(sortBy), columns[i].key)) else old(sortBy)
      ensures filters == old(filters) && searchTerm == old(searchTerm)
      ensures currentPage == old(currentPage) && itemsPerPage == old(itemsPerPage)
      ensures Valid()
    {
      if columns[i].sortable {
        HandleSort(columns[i].key);
      }
    }

    /** Typing `value` into the filter input of the filterable column `i`. */
    method SetFilter(i: int, value: string)
      requires Valid() && 0 <= i < |columns| && columns[i].filterable
      modifies this
      ensures filters == UpdateFilter(old(filters), columns[i].key, value)
      ensures sortBy == old(sortBy) && searchTerm == old(searchTerm)
      ensures currentPage == old(currentPage) && itemsPerPage == old(itemsPerPage)
      ensures Valid()
    {
      UpdateFilterDistinct(filters, columns[i].key, value);
      filters := UpdateFilter(filters, columns[i].key, value);
    }

    /** The "Previous" button, shown only when there is more than one page. */
    method PrevPage()
      requires Valid() && PageCount() > 1
      modifies this
      ensures currentPage == Paging.PrevPage(old(currentPage))
      ensures filters == old(filters) && sortBy == old(sortBy) && searchTerm == old(searchTerm)
      ensures itemsPerPage == old(itemsPerPage)
      ensures Valid()
    {
      currentPage := Paging.PrevPage(currentPage);
    }

    /** The "Next" button, shown only when there is more than one page. */
    method NextPage()
      requires Valid() && PageCount() > 1
      modifies this
      ensures currentPage == Paging.NextPage(old(currentPage), old(PageCount()))
      ensures filters == old(filters) && sortBy == old(sortBy) && searchTerm == old(searchTerm)
      ensures itemsPerPage == old(itemsPerPage)
      ensures Valid()
    {
      currentPage := Paging.NextPage(currentPage, PageCount());
    }

    /**
     * `filteredData`: copies the data, filters it by the search term and by
     * each column-filter entry in turn, and sorts it in place when a sort is set.
     */
    method Filtered() returns (rows: seq<Record>)
      ensures rows == FilteredRows()
    {
      var filtered := data;
      var term := searchTerm;
      if term != "" {
        filtered := FilterSeq(filtered, (r: Record) => RecordMatches(r, term));
      }
      var i := 0;
      while i < |filters|
        invariant 0 <= i <= |filters|
        invariant filtered == ColumnFilters(Search(data, term), filters[..i])
      {
        var (key, value) := filters[i];
        if value != "" && value != "all" {
          filtered := FilterSeq(filtered, (r: Record) => Includes(Field(r, key), value));
        }
        assert filters[..i + 1][..i] == filters[..i];
        i := i + 1;
      }
      assert filters[..i] == filters;
      if sortBy.Some? {
        var a := new Record[|filtered|](k requires 0 <= k < |filtered| => filtered[k]);
        assert a[..] == filtered;
        SortInPlace(a, sortBy.value);
        filtered := a[..];
      }
      rows := filtered;
    }

    /** `paginatedData`: the current page of the filtered rows. */
    method Paginated() returns (rows: seq<Record>)
      ensures rows == PageSlice(FilteredRows(), currentPage, itemsPerPage)
    {
      var filtered := Filtered();
      var start := (currentPage - 1) * itemsPerPage;
      rows := Slice(filtered, start, start + itemsPerPage);
    }

    /** `handleQuery`: the query string for the current filters, sort, page and page size. */
    method HandleQuery() returns (queryString: string)
      ensures queryString == QueryString(TableOptions(columns, filters, sortBy, currentPage, itemsPerPage))
    {
      var sort := if sortBy.Some? then Some([sortBy.value]) else None;
      var options := QueryOptions(Some(ColumnKeys(columns)), Some(SearchEntries(filters)), None,
                                  sort, Some(currentPage), Some(itemsPerPage), Some(true));
      var builder := RequestQueryBuilder.Create(options);
      queryString := builder.Query();
    }
  }
}
