/**
 * The pure parts of the table component (src/components/DataTable.tsx): the
 * column description, the whole `filteredData` pipeline, the updates that the
 * sort headers and the filter inputs apply to the state, and the options that
 * `handleQuery` hands to `RequestQueryBuilder.create`.
 */
module Table {
  import opened Wrappers
  import opened Text
  import opened Values
  import opened Seqs
  import opened QueryBuilder
  import opened QueryProperties
  import opened Filtering
  import opened Sorting
  import opened Paging

  datatype ColumnType = TextColumn | NumberColumn | DateColumn | StatusColumn

  /** `TableColumn`; its `label` is `labelText` here, `label` being a Dafny keyword. */
  datatype Column = Column(key: string, labelText: string, sortable: bool, filterable: bool, kind: Option<ColumnType>)

  /** The column filters: `Record<string, any>` as its entries in insertion order. */
  type Filters = seq<(string, string)>

  /** `filteredData`: search, then the column filters, then the sort. */
  function FilteredData(data: seq<Record>, term: string, filters: Filters, sortBy: Option<SortSpec>): (r: seq<Record>)
    ensures |r| <= |data|
  {
    SortStage(SearchAndFilter(data, term, filters), sortBy)
  }

  /** With no search, no active filter and no sort, page 1 shows the first `perPage` rows of the data. */
  lemma FirstPageOfUnfilteredData(data: seq<Record>, filters: Filters, perPage: int)
    requires perPage >= 1
    requires forall j :: 0 <= j < |filters| ==> !IsActive(filters[j].1)
    ensures PageSlice(FilteredData(data, "", filters, None), 1, perPage) == data[..Min(perPage, |data|)]
  {
    NothingActiveKeepsAll(data, filters);
    PageSliceIsWindow(data, 1, perPage);
  }

  /** Sorting changes the order of the shown rows, never which rows are shown. */
  lemma FilteredDataRows(data: seq<Record>, term: string, filters: Filters, sortBy: Option<SortSpec>)
    ensures multiset(FilteredData(data, term, filters, sortBy)) == multiset(SearchAndFilter(data, term, filters))
    ensures sortBy.None? ==> FilteredData(data, term, filters, sortBy) == SearchAndFilter(data, term, filters)
  {
    if sortBy.Some? {
      SortPermutation(SearchAndFilter(data, term, filters), sortBy.value);
    }
  }

  // ---------------------------------------------------------------------------
  // Sort headers

  /** `handleSort(field)`: the new `sortBy`. */
  function NextSort(prev: Option<SortSpec>, field: string): (r: SortSpec)
    ensures r.field == field
  {
    SortSpec(field, if prev.Some? && prev.value.field == field && prev.value.order == ASC then DESC else ASC)
  }

  /** The field is always the one clicked; the order is `DESC` exactly when that field was sorted `ASC`. */
  lemma NextSortOrder(prev: Option<SortSpec>, field: string)
    ensures NextSort(prev, field).field == field
    ensures NextSort(prev, field).order == DESC <==> prev == Some(SortSpec(field, ASC))
  {
  }

  /** Clicking the same header twice: from `ASC` back to `ASC`, from anything else to `DESC`. */
  lemma NextSortTwice(prev: Option<SortSpec>, field: string)
    ensures NextSort(Some(NextSort(prev, field)), field)
         == SortSpec(field, if prev == Some(SortSpec(field, ASC)) then ASC else DESC)
  {
    NextSortOrder(prev, field);
  }

  // ---------------------------------------------------------------------------
  // Filter inputs

  /** `filters[key]`. */
  function Lookup(filters: Filters, key: string): Option<string>
  {
    if filters == [] then None
    else if filters[0].0 == key then Some(filters[0].1)
    else Lookup(filters[1..], key)
  }

  function Keys(filters: Filters): seq<string>
  {
    seq(|filters|, i requires 0 <= i < |filters| => filters[i].0)
  }

  /** `{ ...prev, [key]: value }`: an existing key keeps its place with the new value; a new key goes last. */
  function UpdateFilter(filters: Filters, key: string, value: string): (r: Filters)
    ensures |filters| <= |r| <= |filters| + 1
    ensures forall i :: 0 <= i < |filters| ==> r[i].0 == filters[i].0
    ensures |r| == |filters| + 1 ==> r[|filters|] == (key, value)
  {
    if filters == [] then [(key, value)]
    else if filters[0].0 == key then [(key, value)] + filters[1..]
    else [filters[0]] + UpdateFilter(filters[1..], key, value)
  }

  /** After the update the key holds the new value and every other key its old one. */
  lemma {:induction false} UpdateFilterLookup(filters: Filters, key: string, value: string, other: string)
    ensures Lookup(UpdateFilter(filters, key, value), key) == Some(value)
    ensures other != key ==> Lookup(UpdateFilter(filters, key, value), other) == Lookup(filters, other)
  {
    if filters != [] && filters[0].0 != key {
      UpdateFilterLookup(filters[1..], key, value, other);
    }
  }

  lemma KeysCons(e: (string, string), rest: Filters)
    ensures Keys([e] + rest) == [e.0] + Keys(rest)
  {
    assert ([e] + rest)[1..] == rest;
  }

  /** The key order is kept; a key not yet present is appended. */
  lemma {:induction false} UpdateFilterKeys(filters: Filters, key: string, value: string)
    ensures Keys(UpdateFilter(filters, key, value)) == if key in Keys(filters) then Keys(filters) else Keys(filters) + [key]
  {
    if filters != [] {
      var first, rest := filters[0], filters[1..];
      assert filters == [first] + rest;
      KeysCons(first, rest);
      if first.0 == key {
        KeysCons((key, value), rest);
      } else {
        UpdateFilterKeys(rest, key, value);
        KeysCons(first, UpdateFilter(rest, key, value));
      }
    }
  }

  lemma DistinctKeysOfKeys(filters: Filters)
    ensures DistinctKeys(filters) <==> forall i, j :: 0 <= i < j < |Keys(filters)| ==> Keys(filters)[i] != Keys(filters)[j]
  {
    assert forall i :: 0 <= i < |filters| ==> Keys(filters)[i] == filters[i].0;
  }

  /** No key ever occurs twice. */
  lemma UpdateFilterDistinct(filters: Filters, key: string, value: string)
    requires DistinctKeys(filters)
    ensures DistinctKeys(UpdateFilter(filters, key, value))
  {
    var updated := UpdateFilter(filters, key, value);
    UpdateFilterKeys(filters, key, value);
    DistinctKeysOfKeys(filters);
    DistinctKeysOfKeys(updated);
    var ks := Keys(filters);
    if key !in ks {
      forall i, j | 0 <= i < j < |Keys(updated)| ensures Keys(updated)[i] != Keys(updated)[j] {
        if j == |ks| {
          assert Keys(updated)[i] == ks[i];
        } else {
          assert Keys(updated)[i] == ks[i] && Keys(updated)[j] == ks[j];
        }
      }
    }
  }

  // ---------------------------------------------------------------------------
  // The query options of `handleQuery`

  /** `columns.map(col => col.key)`. */
  function ColumnKeys(columns: seq<Column>): (keys: seq<string>)
    ensures |keys| == |columns|
    ensures forall i :: 0 <= i < |columns| ==> keys[i] == columns[i].key
    ensures forall c :: c in columns ==> c.key in keys
  {
    var keys := seq(|columns|, i requires 0 <= i < |columns| => columns[i].key);
    assert forall c :: c in columns ==> c.key in keys by {
      forall c | c in columns
        ensures c.key in keys
      {
        var i :| 0 <= i < |columns| && columns[i] == c;
        assert keys[i] == c.key;
      }
    }
    keys
  }

  /** The filter entries as the `search` object of the options. */
  function SearchEntries(filters: Filters): (entries: seq<(string, Value)>)
    ensures |entries| == |filters|
    ensures forall i :: 0 <= i < |filters| ==> entries[i].0 == filters[i].0 && ToString(entries[i].1) == filters[i].1
    ensures forall i :: 0 <= i < |filters| ==> (IsEmitted(entries[i].1) <==> filters[i].1 != "")
    ensures DistinctKeys(filters) ==> DistinctKeys(entries)
  {
    seq(|filters|, i requires 0 <= i < |filters| => (filters[i].0, Str(filters[i].1)))
  }

  function TableOptions(columns: seq<Column>, filters: Filters, sortBy: Option<SortSpec>, page: int, perPage: int): (o: QueryOptions)
    ensures HasFields(o) <==> |columns| > 0
    ensures o.sort.Some? <==> sortBy.Some?
    ensures o.resetCache == Some(true)
  {
    QueryOptions(
      Some(ColumnKeys(columns)),
      Some(SearchEntries(filters)),
      None,
      if sortBy.Some? then Some([sortBy.value]) else None,
      Some(page),
      Some(perPage),
      Some(true))
  }

  // The groups of the options `handleQuery` passes, a few at a time.

  lemma TableFrontGroups(columns: seq<Column>, filters: Filters, sortBy: Option<SortSpec>, page: int, perPage: int)
    ensures var o := TableOptions(columns, filters, sortBy, page, perPage);
      FieldsGroup(o) + SearchGroup(o) + JoinGroup(o)
        == (if |columns| > 0 then [("fields", Join(ColumnKeys(columns), ','))] else []) + SearchParams(SearchEntries(filters))
  {
  }

  lemma TableSortGroup(columns: seq<Column>, filters: Filters, sortBy: Option<SortSpec>, page: int, perPage: int)
    ensures SortGroup(TableOptions(columns, filters, sortBy, page, perPage))
         == if sortBy.Some? then [(SortFieldKey(0), sortBy.value.field), (SortOrderKey(0), OrderName(sortBy.value.order))] else []
  {
  }

  lemma TableScalarGroups(columns: seq<Column>, filters: Filters, sortBy: Option<SortSpec>, page: int, perPage: int)
    requires page >= 1 && perPage >= 1
    ensures var o := TableOptions(columns, filters, sortBy, page, perPage);
      PageGroup(o) + LimitGroup(o) + ResetCacheGroup(o)
        == [("page", IntToString(page)), ("limit", IntToString(perPage)), ("resetCache", "true")]
  {
  }

  /**
   * The whole parameter list of `handleQuery`: the column keys, every filter
   * with a non-empty value, the sort when there is one, then `page`, `limit`
   * and `resetCache=true`.
   */
  lemma TableParams(columns: seq<Column>, filters: Filters, sortBy: Option<SortSpec>, page: int, perPage: int)
    requires page >= 1 && perPage >= 1
    ensures var o := TableOptions(columns, filters, sortBy, page, perPage);
      Params(o) ==
        (if |columns| > 0 then [("fields", Join(ColumnKeys(columns), ','))] else [])
        + SearchParams(SearchEntries(filters))
        + (if sortBy.Some? then [(SortFieldKey(0), sortBy.value.field), (SortOrderKey(0), OrderName(sortBy.value.order))] else [])
        + [("page", IntToString(page)), ("limit", IntToString(perPage)), ("resetCache", "true")]
  {
    var o := TableOptions(columns, filters, sortBy, page, perPage);
    TableFrontGroups(columns, filters, sortBy, page, perPage);
    TableSortGroup(columns, filters, sortBy, page, perPage);
    TableScalarGroups(columns, filters, sortBy, page, perPage);
    Regroup(FieldsGroup(o), SearchGroup(o), JoinGroup(o), SortGroup(o), PageGroup(o), LimitGroup(o), ResetCacheGroup(o));
  }

  /** The seven groups, read as the front three, the sort group and the last three. */
  lemma Regroup<T>(a: seq<T>, b: seq<T>, c: seq<T>, d: seq<T>, e: seq<T>, f: seq<T>, g: seq<T>)
    ensures a + b + c + d + e + f + g == (a + b + c) + d + (e + f + g)
  {
  }

  /** `resetCache=true` is sent with every query, once. */
  lemma TableQueryResetsCache(columns: seq<Column>, filters: Filters, sortBy: Option<SortSpec>, page: int, perPage: int)
    ensures GetAll(Params(TableOptions(columns, filters, sortBy, page, perPage)), "resetCache") == ["true"]
  {
    ResetCacheParam(TableOptions(columns, filters, sortBy, page, perPage));
  }

  lemma SearchEntriesDistinct(filters: Filters)
    requires DistinctKeys(filters)
    ensures DistinctKeys(SearchEntries(filters))
  {
  }

  /**
   * A filter is sent as `search[key]=value` whenever its value is not empty,
   * `'all'` included, while the table itself ignores an `'all'` filter.
   */
  lemma TableQuerySendsFilter(columns: seq<Column>, filters: Filters, sortBy: Option<SortSpec>, page: int, perPage: int, j: int)
    requires DistinctKeys(filters) && 0 <= j < |filters|
    ensures var (key, value) := filters[j];
      GetAll(Params(TableOptions(columns, filters, sortBy, page, perPage)), SearchKey(key))
        == if value == "" then [] else [value]
  {
    var o := TableOptions(columns, filters, sortBy, page, perPage);
    var es := SearchEntries(filters);
    SearchEntriesDistinct(filters);
    GetAllFromOwnGroup(o, SearchKey(filters[j].0));
    SearchKeyRank(filters[j].0);
    SearchParamsForKey(es, j);
  }

  /** The `'all'` filter value: no filtering in the table, yet `search[key]=all` in the query. */
  lemma AllFilterSentButNotApplied(columns: seq<Column>, rows: seq<Record>, filters: Filters, sortBy: Option<SortSpec>, page: int, perPage: int, j: int)
    requires DistinctKeys(filters) && 0 <= j < |filters| && filters[j].1 == "all"
    ensures ApplyFilter(rows, filters[j].0, filters[j].1) == rows
    ensures GetAll(Params(TableOptions(columns, filters, sortBy, page, perPage)), SearchKey(filters[j].0)) == ["all"]
  {
    TableQuerySendsFilter(columns, filters, sortBy, page, perPage, j);
  }
}
