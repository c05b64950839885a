# DataUI query builder and data table, in Dafny

This project models the two core pieces of the `dataui-tester` front end:

- `RequestQueryBuilder` (src/lib/query-builder.ts). It holds a `QueryOptions`
  record and turns it into a URL query string. The parameters always come in
  the same group order: `fields`, `search[key]`, `join[i]`,
  `sort[i][field]`/`sort[i][order]`, `page`, `limit`, `resetCache`. They are
  serialized the way `URLSearchParams` does it, that is, with the
  `application/x-www-form-urlencoded` serializer of the WHATWG URL Standard
  (section 5.2).
- The `DataTable` component (src/components/DataTable.tsx).
  - Its state is the column filters, the sort, the search term, the current
    page and the page size.
  - Its event handlers update that state.
  - From the state it derives the visible rows: text search, then the column
    filters, then a stable sort, then a page slice. It also derives the page
    count.
  - It hands a snapshot of its state to the query builder.

The builder is modelled imperatively. `RequestQueryBuilder.Query` fills a
`URLSearchParams` object with loops over `search`, `join` and `sort`. It is
proved to produce `Serialize(Params(options))`, where `Params` states the
parameter list group by group. The lemmas in `QueryProperties` say what that
list holds. `FormUrlEncoded` holds the serializer and a parser for it. For
ASCII text, parsing the serialized query gives back the parameter list.

The table is a class, `Component.DataTable`, with one method per handler.
`Filtered` reassigns the row list inside a loop over the filter entries, then
sorts an array in place. It is proved equal to the pure pipeline
`Table.FilteredData`. `Filtering`, `Sorting` and `Paging` state the properties
of each stage of the pipeline.

Files:

- `wrappers.dfy`: `Option`.
- `text.dfy`: lower-casing, `includes`, decimal numerals, `join`/split.
- `seqs.dfy`: `filter` on sequences.
- `values.dfy`: the dynamic values held in records.
- `form_urlencoded.dfy`: the URL serializer and its parser.
- `query_builder.dfy`: the builder itself.
- `query_properties.dfy`: properties of the builder's parameter list.
- `example.dfy`: a worked example of a query, down to its encoded pieces.
- `filtering.dfy`, `sorting.dfy`, `paging.dfy`: the stages of the table's pipeline.
- `table.dfy`: the table's pure updates and its query options.
- `datatable.dfy`: the table's state and handlers.

Some behaviour of the component that the model keeps as the code has it:

- Choosing a page size leaves `currentPage` as it was (DataTable.tsx:160-168).
- Nothing moves the current page back into range when the filtered rows
  shrink (DataTable.tsx:44-84). A page past the last one is simply empty
  (`Paging.PageEmptyIffPastLast`).
- `totalPages` is `Math.ceil(len / itemsPerPage)`, which is 0 when there are
  no rows (DataTable.tsx:84).
- A filter value of `'all'` is skipped by the table's own filtering
  (DataTable.tsx:58) and still sent as `search[key]=all` by the query
  (`Table.AllFilterSentButNotApplied`).

## Model

| member | source | states |
|---|---|---|
| QueryBuilder.RequestQueryBuilder.Create | src/lib/query-builder.ts:14-18 | the new builder holds the given options verbatim; without an argument they are `{}` |
| QueryBuilder.RequestQueryBuilder.constructor | src/lib/query-builder.ts:11-12 | a fresh builder's options are the empty object |
| QueryBuilder.RequestQueryBuilder.GetOptions | src/lib/query-builder.ts:63-65 | returns the stored options |
| QueryBuilder.CreateThenGetOptions | src/lib/query-builder.ts:14-18 | what `create` stores, `getOptions` returns unchanged |
| QueryBuilder.CreateWithoutOptions | src/lib/query-builder.ts:14 | `create()` with the default `{}` gives the empty query string |
| QueryBuilder.RequestQueryBuilder.Query | src/lib/query-builder.ts:20-61 | the query string is exactly the serialization of the group-by-group parameter list `Params(options)` |
| QueryBuilder.URLSearchParams.constructor | src/lib/query-builder.ts:21 | a new parameter list is empty |
| QueryBuilder.URLSearchParams.Append | src/lib/query-builder.ts:24 | `append` adds one pair at the end and changes nothing else |
| QueryBuilder.URLSearchParams.ToString | src/lib/query-builder.ts:60 | `toString` is the form-urlencoded serialization of the pairs in order |
| QueryBuilder.AppendSearch | src/lib/query-builder.ts:27-33 | the loop appends `search[key]=value` for each entry not `null` or `''`, in entry order |
| QueryBuilder.AppendJoins | src/lib/query-builder.ts:35-39 | the loop appends `join[i]=field` for each join, in order |
| QueryBuilder.AppendSorts | src/lib/query-builder.ts:41-46 | the loop appends `sort[i][field]` then `sort[i][order]` for each sort entry, in order |
| QueryBuilder.AppendScalars | src/lib/query-builder.ts:48-58 | appends `page` and `limit` when truthy, and `resetCache=true` when true, in that order |
| QueryProperties.ParamsInGroupOrder | src/lib/query-builder.ts:20-58 | parameters come in the fixed group order fields, search, join, sort, page, limit, resetCache |
| QueryProperties.FieldsParam | src/lib/query-builder.ts:23-25 | `fields` occurs once, as the comma-join of the list, exactly when the list is present and non-empty, and then it is the first parameter |
| QueryProperties.FieldsRecoverable | src/lib/query-builder.ts:23-25 | the `fields` value splits back on `,` into the field names when no name contains a comma |
| QueryProperties.SearchParamsAreKeptEntries | src/lib/query-builder.ts:27-33 | the search group is the entries whose value is not `null` or `''`, in input order, each as `search[key]=value`; `'all'` is not dropped |
| QueryProperties.SearchParam | src/lib/query-builder.ts:27-33 | for a key of the search object, `search[key]` carries its value when emitted and is absent otherwise; for other keys it is absent |
| QueryProperties.SearchParamsForKey | src/lib/query-builder.ts:27-33 | the entry at index j yields `search[key]` exactly once with its value, or not at all when its value is `null` or `''` |
| QueryProperties.SearchParamsAbsentKey | src/lib/query-builder.ts:27-33 | a key absent from the search object never appears as `search[key]` |
| QueryProperties.PageParam | src/lib/query-builder.ts:48-50 | `page` appears once, as its decimal, exactly when present and not 0 |
| QueryProperties.LimitParam | src/lib/query-builder.ts:52-54 | `limit` appears once, as its decimal, exactly when present and not 0 |
| QueryProperties.ResetCacheParam | src/lib/query-builder.ts:56-58 | `resetCache=true` appears exactly when `resetCache` is true |
| QueryProperties.EmptyQuery | src/lib/query-builder.ts:20-60 | the query is empty exactly when no block writes: no non-empty `fields`, no written search entry, no join, no sort, no truthy `page` or `limit`, no `resetCache: true`; `{}` gives the empty string |
| QueryProperties.NoParams | src/lib/query-builder.ts:20-58 | no parameter is appended exactly when no `fields`, no written search entry, no join, no sort, no truthy `page` or `limit` and no `resetCache: true` is given |
| QueryProperties.QueryParsesBack | src/lib/query-builder.ts:60 | for ASCII options, parsing the query string gives back the parameter list, in order |
| QueryExample.ExampleParams | src/lib/query-builder.ts:20-58 | the worked example (fields id,name; search name=Jo; sort id ASC; page 2; limit 10; resetCache) yields exactly its seven parameters |
| QueryExample.ExamplePieces | src/lib/query-builder.ts:20-60 | the worked example serializes to the pieces `fields=id%2Cname`, `search%5Bname%5D=Jo`, `sort%5B0%5D%5Bfield%5D=id`, `sort%5B0%5D%5Border%5D=ASC`, `page=2`, `limit=10`, `resetCache=true`, in that order |
| QueryExample.ExampleQuery | src/lib/query-builder.ts:20-60 | the worked example's query string is its seven encoded pieces joined with `&` |
| QueryExample.EncodeSearchKey | src/lib/query-builder.ts:30 | a `search[k]` name is written `search%5Bk%5D` |
| QueryExample.EncodeSortKey | src/lib/query-builder.ts:43-44 | a `sort[i][w]` name is written `sort%5Bi%5D%5Bw%5D` |
| QueryExample.EncodeCommaPair | src/lib/query-builder.ts:24 | the comma of a joined `fields` value is written `%2C` |
| QueryBuilder.Params | src/lib/query-builder.ts:20-58 | `fields`, when written, is the first parameter and `resetCache=true`, when written, the last |
| QueryBuilder.JoinParams | src/lib/query-builder.ts:35-39 | one pair per join, the i-th being `join[i]=field` |
| QueryBuilder.SearchParams | src/lib/query-builder.ts:27-33 | at most one parameter per entry; none exactly when every value is `null` or `''`; no written value is empty |
| QueryBuilder.SortParams | src/lib/query-builder.ts:41-46 | two parameters per entry: at 2i `sort[i][field]` with the field, at 2i+1 `sort[i][order]` with the order |
| QueryBuilder.QueryString | src/lib/query-builder.ts:20-60 | the query string is empty exactly when no parameter is written, and never empty when `resetCache` is true |
| FormUrlEncoded.Serialize | src/lib/query-builder.ts:60 | the query string is empty exactly when there are no pairs |
| Text.Join | src/lib/query-builder.ts:24 | the joined text begins with the first element and is at least one character per further element longer |
| QueryProperties.GetAllFromOwnGroup | src/lib/query-builder.ts:20-58 | looking up a name in the whole list sees only the group its name belongs to |
| FormUrlEncoded.Encode | src/lib/query-builder.ts:60 | an encoded name or value holds only unreserved characters, `+` and `%` |
| FormUrlEncoded.EncodeReserved | src/lib/query-builder.ts:60 | an ASCII character outside the unreserved set, other than space, is written as `%` and two upper-case hex digits |
| FormUrlEncoded.EncodeUnreserved | src/lib/query-builder.ts:60 | unreserved text is written unchanged |
| FormUrlEncoded.EncodeConcat | src/lib/query-builder.ts:60 | encoding works character by character |
| FormUrlEncoded.DecodeEncode | src/lib/query-builder.ts:60 | percent-decoding inverts encoding for ASCII text |
| FormUrlEncoded.ParseSerialize | src/lib/query-builder.ts:60 | parsing inverts serialization for ASCII pairs |
| FormUrlEncoded.SerializeInjective | src/lib/query-builder.ts:60 | different ASCII pair lists never serialize to the same string |
| Text.NatToStringRoundTrip | src/lib/query-builder.ts:49 | the decimal numeral of a number reads back as that number |
| Text.IntToStringRoundTrip | src/lib/query-builder.ts:49 | the same for negative numbers, written with a leading `-` |
| Text.IntToStringInjective | src/lib/query-builder.ts:49 | different numbers never print the same |
| Text.IntToString | src/lib/query-builder.ts:49 | a number prints as a non-empty string of decimal digits, with a leading `-` when negative |
| Text.SplitJoin | src/lib/query-builder.ts:24 | splitting a join on its separator gives back the elements when none contains it |
| Text.Lower | src/components/DataTable.tsx:51 | lower-casing keeps the length and lowers each ASCII capital |
| Text.Contains | src/components/DataTable.tsx:51 | `includes` finds nothing longer than the text, and always finds a prefix of it, the empty string included |
| Values.ToString | src/lib/query-builder.ts:30 | a string stringifies to itself; a number to its decimal; `null` to `null` |
| Filtering.Search | src/components/DataTable.tsx:48-55 | never adds rows; with a non-empty term a row is kept exactly when it is in the data and some value of it matches |
| Filtering.ColumnFilters | src/components/DataTable.tsx:57-64 | the column filters never add rows, and every row they keep is from their input |
| Filtering.Includes | src/components/DataTable.tsx:51 | a value matches only when present and not `null` and no shorter than the term; any such value matches the empty term |
| Filtering.RecordMatches | src/components/DataTable.tsx:50-52 | a row matches only when it has a non-`null` value; for the empty term, exactly then |
| Filtering.ApplyFilter | src/components/DataTable.tsx:58-62 | an inactive entry keeps the rows as they are; an active one keeps exactly the rows whose field contains the value, and never adds rows |
| Filtering.SearchAndFilter | src/components/DataTable.tsx:44-64 | search then filters never add rows, keep only rows of the data, and with a non-empty term only rows that match it |
| Filtering.ColumnFiltersAreOneFilter | src/components/DataTable.tsx:57-64 | the filter loop keeps exactly the rows satisfying every active entry, in order |
| Filtering.SearchAndFilterIsOneFilter | src/components/DataTable.tsx:44-64 | search plus filters keep exactly the rows passing both, in their original order |
| Filtering.SearchAndFilterMembers | src/components/DataTable.tsx:44-64 | a row is shown iff it is in the data, matches the search term when one is given, and matches every active filter |
| Filtering.SearchAndFilterIsSubsequence | src/components/DataTable.tsx:44-64 | the result is a subsequence of the data |
| Filtering.SearchAndFilterIdempotent | src/components/DataTable.tsx:44-64 | running search and filters again on their output changes nothing |
| Filtering.NothingActiveKeepsAll | src/components/DataTable.tsx:48-64 | with an empty term and only `''`/`'all'` filter values, every row is kept in order |
| Filtering.InactiveEntryIgnored | src/components/DataTable.tsx:58 | an entry whose value is `''` or `'all'` can be removed without changing the result |
| Filtering.SearchIgnoresTermCase | src/components/DataTable.tsx:51 | the search term's case does not matter |
| Filtering.NullRowNeverFound | src/components/DataTable.tsx:50-52 | a row of only `null` values never matches a non-empty search |
| Filtering.CellText | src/components/DataTable.tsx:107 | a cell shows `-` iff its value is `null`, missing, or the string `-` |
| Filtering.DashCellNotSearchable | src/components/DataTable.tsx:50-52 | a row shown as all `-` because its values are `null` is not found by searching for `-` |
| Sorting.Compare | src/components/DataTable.tsx:68-73 | the comparator returns -1, 0 or 1 |
| Sorting.CompareAntisymmetric | src/components/DataTable.tsx:68-73 | swapping the rows negates the comparison |
| Sorting.CompareInts | src/components/DataTable.tsx:68-73 | on numbers "not after" is `<=`, reversed for DESC |
| Sorting.CompareStrs | src/components/DataTable.tsx:68-73 | on strings "not after" is the string order, reversed for DESC |
| Sorting.CompareTransitive | src/components/DataTable.tsx:68-73 | on values of one kind the comparator is transitive |
| Sorting.LessStrict | src/components/DataTable.tsx:71 | the facts about `Sorting.Less`, which has no contract of its own: `<` on field values holds only between two present values of one kind, never of a value with itself, and never both ways |
| Sorting.InsertLength | src/components/DataTable.tsx:68 | the facts about `Sorting.Insert`, which has no contract of its own: inserting a row adds exactly one row |
| Sorting.InsertMultiset | src/components/DataTable.tsx:68 | with `InsertLength`, the facts about `Sorting.Insert`: inserting a row adds exactly that row to the multiset |
| Sorting.SortStage | src/components/DataTable.tsx:66-74 | the optional sort keeps the number and the multiset of rows, and without a sort the order |
| Sorting.SortRows | src/components/DataTable.tsx:67-74 | sorting keeps the number of rows |
| Sorting.SortPermutation | src/components/DataTable.tsx:67-74 | sorting is a permutation of the filtered rows |
| Sorting.SortStable | src/components/DataTable.tsx:67-74 | rows with the same sort-field value keep their relative order |
| Sorting.SortOrdered | src/components/DataTable.tsx:67-74 | when all sort-field values are numbers, or all strings, no row compares greater than a later one |
| Sorting.SortedInts | src/components/DataTable.tsx:67-74 | sorting a number field gives non-decreasing values for ASC and non-increasing for DESC |
| Sorting.SortInPlace | src/components/DataTable.tsx:68 | the in-place array sort produces exactly the stable insertion order `SortRows` |
| Sorting.InsertInPlace | src/components/DataTable.tsx:68 | inserting one row into the sorted prefix in place gives `Insert` of the prefix |
| Sorting.ShiftGreater | src/components/DataTable.tsx:68 | the inner loop shifts exactly the rows that move past the inserted row |
| Paging.TotalPages | src/components/DataTable.tsx:84 | the page count is never negative and is 0 exactly when there are no rows |
| Paging.PageSlice | src/components/DataTable.tsx:79-82 | a page holds at most `itemsPerPage` rows, and no more rows than there are |
| Paging.Slice | src/components/DataTable.tsx:81 | `slice` never yields more than the sequence; for in-range indices it is the subsequence between them, and empty when the end is not after the start |
| Paging.PrevPage | src/components/DataTable.tsx:257 | Previous never goes below 1 and moves back from any page after the first |
| Paging.NextPage | src/components/DataTable.tsx:268 | Next never goes past `totalPages`, moves forward from any page before it, and stays at page 1 or later when there is a page |
| Paging.TotalPagesIsCeiling | src/components/DataTable.tsx:84 | the page count is the least count whose pages hold every row, and it is 0 for no rows |
| Paging.PageSliceIsWindow | src/components/DataTable.tsx:79-82 | the page is the rows from `(page-1)*n` up to `page*n`, clamped to the end, at most `n` of them |
| Paging.PageEmptyIffPastLast | src/components/DataTable.tsx:79-84 | a page is empty exactly when it comes after `totalPages` |
| Paging.PagesCoverRows | src/components/DataTable.tsx:79-84 | pages 1 to `totalPages` together show every row once, in order |
| Paging.PageMovesStayInRange | src/components/DataTable.tsx:257-269 | from a page in range, Previous and Next stay in range and move by one except at the ends |
| Table.FilteredData | src/components/DataTable.tsx:44-77 | the pipeline never shows more rows than the data has |
| Table.FirstPageOfUnfilteredData | src/components/DataTable.tsx:44-82 | with no search, no active filter and no sort, page 1 is the first `n` rows of the data |
| Table.FilteredDataRows | src/components/DataTable.tsx:44-77 | sorting does not change which rows are shown; with no sort the filtered order is kept |
| Table.NextSort | src/components/DataTable.tsx:99-104 | the new sort is always on the clicked field |
| Table.NextSortOrder | src/components/DataTable.tsx:99-104 | the field is the one clicked; the order is DESC iff that field was sorted ASC |
| Table.NextSortTwice | src/components/DataTable.tsx:99-104 | two clicks on the same header return ASC to ASC and turn anything else into DESC |
| Table.UpdateFilter | src/components/DataTable.tsx:180 | every existing entry keeps its key and its place; at most one entry is added, the new key with its value, at the end |
| Table.UpdateFilterLookup | src/components/DataTable.tsx:180 | the updated key holds the new value; all other keys keep theirs |
| Table.UpdateFilterKeys | src/components/DataTable.tsx:180 | the key order is kept and a new key goes last |
| Table.UpdateFilterDistinct | src/components/DataTable.tsx:180 | no key ever occurs twice |
| Table.TableOptions | src/components/DataTable.tsx:86-94 | `fields` is set exactly when there are columns, `sort` exactly when there is a sort, and `resetCache` is always true |
| Table.ColumnKeys | src/components/DataTable.tsx:88 | one key per column, in declaration order: the i-th key is the i-th column's key |
| Table.SearchEntries | src/components/DataTable.tsx:89 | the filters become the `search` object entry by entry: same keys, values that stringify back, written exactly when non-empty, keys still distinct |
| Table.TableParams | src/components/DataTable.tsx:86-94 | the query's parameters are the column keys, the non-empty filters, the sort if any, then page, limit and `resetCache=true` |
| Table.TableQueryResetsCache | src/components/DataTable.tsx:93 | every table query carries `resetCache=true` once |
| Table.TableQuerySendsFilter | src/components/DataTable.tsx:89 | each filter is sent as `search[key]=value` exactly when its value is non-empty |
| Table.AllFilterSentButNotApplied | src/components/DataTable.tsx:58 | an `'all'` filter filters nothing in the table yet is sent as `search[key]=all` |
| Component.DataTable.constructor | src/components/DataTable.tsx:38-42 | initial state: no filters, no sort, empty search, page 1, 10 per page |
| Component.DataTable.SetSearchTerm | src/components/DataTable.tsx:156 | replaces only the search term; the page is not reset |
| Component.DataTable.SetItemsPerPage | src/components/DataTable.tsx:160-168 | sets only the page size (5, 10, 25 or 50); the current page is not reset |
| Component.DataTable.HandleSort | src/components/DataTable.tsx:99-104 | sets the sort to `NextSort` of the previous one; nothing else changes |
| Component.DataTable.ClickHeader | src/components/DataTable.tsx:208 | a header click sorts only for a sortable column |
| Component.DataTable.SetFilter | src/components/DataTable.tsx:175-182 | typing in a filterable column's input updates only that filter key, keeping keys distinct |
| Component.DataTable.PrevPage | src/components/DataTable.tsx:252-258 | the page becomes `max(1, page - 1)` |
| Component.DataTable.NextPage | src/components/DataTable.tsx:252-269 | the page becomes `min(totalPages, page + 1)` |
| Component.DataTable.Filtered | src/components/DataTable.tsx:44-77 | the loop over the filters and the in-place sort compute exactly `FilteredData` of the state |
| Component.DataTable.PageCount | src/components/DataTable.tsx:84 | the page count of the state is 0 exactly when no row survives search, filters and sort |
| Component.DataTable.Paginated | src/components/DataTable.tsx:79-82 | returns the current page slice of the filtered rows |
| Component.DataTable.HandleQuery | src/components/DataTable.tsx:86-94 | returns the query string for the column keys, the filters, the sort, the page and the page size, with `resetCache` true |

## Left out

- src/components/QueryInterface.tsx is not part of this model. It is form
  markup around timers, the clock and locale formatting.
- React itself is left out: `useState`/`useMemo` memoisation, JSX,
  `onQuery`/`onRefresh` callbacks, and the `loading` display. Handlers update
  the state at once rather than on the next render.
- Filtering.CellText: `renderCellValue` is modelled only for the `null` and
  `undefined` rule and for default-type columns. The `status` badge and the
  locale-dependent `toLocaleDateString`/`toLocaleString` formatting are left
  out.
- Text.Lower: only ASCII letters are lowered. Full Unicode `toLowerCase`
  (multi-character mappings, locale) is not modelled.
- FormUrlEncoded.Decode: the parser reads each percent-decoded byte as a
  character, so it is UTF-8 correct only below 128. The parse round trip
  (`ParseSerialize`, `QueryParsesBack`) is therefore stated for ASCII text
  only. The serializer itself handles every code point.
- Sorting.Less: JavaScript's `<` coerces mixed operands: `null` to 0, numeric
  strings to numbers, and `undefined` to NaN. None of that is modelled. Two
  values that are not both numbers or both strings compare as equal.
  Sortedness (`SortOrdered`) is proved only when every row holds a number, or
  every row holds a string, in the sort field. Permutation and stability hold
  for every input.
- Sorting.StrLess compares strings by code point, where JavaScript compares
  UTF-16 code units. The two orders differ only above U+FFFF.
- Sorting.SortRows fixes the result as a stable insertion sort. For comparators
  that are not a consistent order (mixed kinds), the order produced by a real
  engine's `sort` is implementation-defined and is not modelled.
- Values: record values are strings, integers or `null`. Floating-point
  numbers, booleans, dates and nested objects are left out, and so is the
  `Number(value)` parsing of the page-size selector (integers are used).
- Text.IntToString: JavaScript numbers are doubles, so integers above 2^53
  lose precision and values of 1e21 or more print in exponent form. The
  model's integers are unbounded and always print as plain decimals.
- QueryBuilder.RequestQueryBuilder.Create: `create(options)` keeps a reference
  to the caller's object (src/lib/query-builder.ts:14-18), so changing that
  object later changes the query. The model stores a copy of the value, so
  aliasing is not modelled.
- QueryBuilder.QueryOptions: `Value` has no `undefined`. A search entry whose
  value is `undefined` is represented by leaving the entry out, which gives
  the same query, since `query()` skips such an entry
  (src/lib/query-builder.ts:29).
- Object key order: `Object.entries` lists integer-like keys first in
  ascending order. The model keeps plain insertion order for the search object
  and the filters.
- Component.DataTable: `columns` and `data` are constants, as props that do not
  change while the component is mounted.

## Findings

None.
