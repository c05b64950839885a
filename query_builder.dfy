/**
 * `RequestQueryBuilder` (src/lib/query-builder.ts): it holds a `QueryOptions`
 * record and turns it into a URL query string. `Query` appends parameters one
 * by one, group by group (`fields`, `search[k]`, `join[i]`, `sort[i][field]`
 * and `sort[i][order]`, `page`, `limit`, `resetCache`), and serializes the list
 * as `URLSearchParams` does.
 *
 * `Params` states the parameter list group by group; `Query` is proved to
 * serialize exactly that list, and the lemmas below state what the list holds.
 */
module QueryBuilder {
  import opened Wrappers
  import opened Text
  import opened Values
  import opened Seqs
  import opened FormUrlEncoded

  datatype Order = ASC | DESC

  /** One element of `join`: `{ field: string }`. */
  datatype JoinField = JoinField(field: string)

  /** One element of `sort`, and the table's `sortBy`: `{ field, order }`. */
  datatype SortSpec = SortSpec(field: string, order: Order)

  /**
   * `QueryOptions`: every member optional. `search` is an object; its entries
   * are kept in insertion order, the order `Object.entries` yields.
   */
  datatype QueryOptions = QueryOptions(
    fields: Option<seq<string>>,
    search: Option<seq<(string, Value)>>,
    join: Option<seq<JoinField>>,
    sort: Option<seq<SortSpec>>,
    page: Option<int>,
    limit: Option<int>,
    resetCache: Option<bool>)

  /** The empty options object `{}`. */
  const NoOptions := QueryOptions(None, None, None, None, None, None, None)

  type Param = (string, string)

  function OrderName(o: Order): string
  {
    match o
    case ASC => "ASC"
    case DESC => "DESC"
  }

  function SearchKey(key: string): string { "search[" + key + "]" }

  function JoinKey(i: nat): string { "join[" + NatToString(i) + "]" }

  function SortFieldKey(i: nat): string { "sort[" + NatToString(i) + "][field]" }

  function SortOrderKey(i: nat): string { "sort[" + NatToString(i) + "][order]" }

  /** The search values that are written: all but `undefined`, `null` and `''`. */
  predicate IsEmitted(v: Value)
  {
    !v.Null? && v != Str("")
  }

  // ---------------------------------------------------------------------------
  // The parameter list, group by group, each group built one entry at a time

  /** The written entries, each as `search[key]=value`; none of the written values is empty. */
  function SearchParams(entries: seq<(string, Value)>): (ps: seq<Param>)
    ensures |ps| <= |entries|
    ensures ps == [] <==> forall i :: 0 <= i < |entries| ==> !IsEmitted(entries[i].1)
    ensures forall i :: 0 <= i < |ps| ==> ps[i].1 != ""
  {
    if entries == [] then []
    else
      var e := entries[|entries| - 1];
      SearchParams(entries[..|entries| - 1])
        + (if IsEmitted(e.1) then [(SearchKey(e.0), ToString(e.1))] else [])
  }

  function JoinParams(joins: seq<JoinField>): (ps: seq<Param>)
    ensures |ps| == |joins|
    ensures forall i :: 0 <= i < |joins| ==> ps[i] == (JoinKey(i), joins[i].field)
  {
    if joins == [] then []
    else
      var n := |joins| - 1;
      JoinParams(joins[..n]) + [(JoinKey(n), joins[n].field)]
  }

  /** Two parameters per entry: at `2i` its field under `sort[i][field]`, at `2i+1` its order under `sort[i][order]`. */
  function SortParams(sorts: seq<SortSpec>): (ps: seq<Param>)
    ensures |ps| == 2 * |sorts|
    ensures forall i :: 0 <= i < |sorts| ==> ps[2 * i] == (SortFieldKey(i), sorts[i].field)
    ensures forall i :: 0 <= i < |sorts| ==> ps[2 * i + 1] == (SortOrderKey(i), OrderName(sorts[i].order))
  {
    if sorts == [] then []
    else
      var n := |sorts| - 1;
      SortParams(sorts[..n]) + [(SortFieldKey(n), sorts[n].field), (SortOrderKey(n), OrderName(sorts[n].order))]
  }

  predicate HasFields(o: QueryOptions) { o.fields.Some? && |o.fields.value| > 0 }

  function FieldsGroup(o: QueryOptions): seq<Param>
  {
    if HasFields(o) then [("fields", Join(o.fields.value, ','))] else []
  }

  function SearchGroup(o: QueryOptions): seq<Param>
  {
    if o.search.Some? then SearchParams(o.search.value) else []
  }

  function JoinGroup(o: QueryOptions): seq<Param>
  {
    if o.join.Some? && |o.join.value| > 0 then JoinParams(o.join.value) else []
  }

  function SortGroup(o: QueryOptions): seq<Param>
  {
    if o.sort.Some? && |o.sort.value| > 0 then SortParams(o.sort.value) else []
  }

  /** A number member is written when it is truthy: present and not 0. */
  predicate IsTruthy(n: Option<int>) { n.Some? && n.value != 0 }

  function PageGroup(o: QueryOptions): seq<Param>
  {
    if IsTruthy(o.page) then [("page", IntToString(o.page.value))] else []
  }

  function LimitGroup(o: QueryOptions): seq<Param>
  {
    if IsTruthy(o.limit) then [("limit", IntToString(o.limit.value))] else []
  }

  function ResetCacheGroup(o: QueryOptions): seq<Param>
  {
    if o.resetCache == Some(true) then [("resetCache", "true")] else []
  }

  /** The parameters `query()` appends, in the order it appends them. */
  function Params(o: QueryOptions): (ps: seq<Param>)
    ensures HasFields(o) ==> |ps| > 0 && ps[0] == ("fields", Join(o.fields.value, ','))
    ensures o.resetCache == Some(true) ==> |ps| > 0 && ps[|ps| - 1] == ("resetCache", "true")
  {
    FieldsGroup(o) + SearchGroup(o) + JoinGroup(o) + SortGroup(o) + PageGroup(o) + LimitGroup(o) + ResetCacheGroup(o)
  }

  /** The query string for `o`. */
  function QueryString(o: QueryOptions): (q: string)
    ensures q == "" <==> Params(o) == []
    ensures o.resetCache == Some(true) ==> q != ""
  {
    Serialize(Params(o))
  }

  // ---------------------------------------------------------------------------
  // The builder

  /** The `URLSearchParams` object `query()` fills: a list of name/value pairs. */
  class URLSearchParams {
    var list: seq<Param>

    constructor ()
      ensures list == []
    {
      list := [];
    }

    /** `append(name, value)`. */
    method Append(name: string, value: string)
      modifies this
      ensures list == old(list) + [(name, value)]
    {
      list := list + [(name, value)];
    }

    /** `toString()`. */
    method ToString() returns (s: string)
      ensures s == Serialize(list)
    {
      s := Serialize(list);
    }
  }

  /** One more entry adds its own parameter, if it is written, to those of the entries before it. */
  lemma SearchParamsStep(entries: seq<(string, Value)>, i: nat)
    requires i < |entries|
    ensures SearchParams(entries[..i + 1])
         == SearchParams(entries[..i]) + (if IsEmitted(entries[i].1) then [(SearchKey(entries[i].0), ToString(entries[i].1))] else [])
  {
    assert entries[..i + 1][..i] == entries[..i];
  }

  /** The `forEach` over the `search` entries. */
  method AppendSearch(params: URLSearchParams, entries: seq<(string, Value)>)
    modifies params
    ensures params.list == old(params.list) + SearchParams(entries)
  {
    var i := 0;
    while i < |entries|
      invariant 0 <= i <= |entries|
      invariant params.list == old(params.list) + SearchParams(entries[..i])
    {
      var (key, value) := entries[i];
      SearchParamsStep(entries, i);
      if value != Null && value != Str("") {
        params.Append(SearchKey(key), ToString(value));
      }
      i := i + 1;
    }
    assert entries[..i] == entries;
  }

  /** The `forEach` over `join`. */
  method AppendJoins(params: URLSearchParams, joins: seq<JoinField>)
    modifies params
    ensures params.list == old(params.list) + JoinParams(joins)
  {
    var index := 0;
    while index < |joins|
      invariant 0 <= index <= |joins|
      invariant params.list == old(params.list) + JoinParams(joins[..index])
    {
      params.Append(JoinKey(index), joins[index].field);
      assert joins[..index + 1][..index] == joins[..index];
      index := index + 1;
    }
    assert joins[..index] == joins;
  }

  /** The `forEach` over `sort`: two parameters per entry. */
  method AppendSorts(params: URLSearchParams, sorts: seq<SortSpec>)
    modifies params
    ensures params.list == old(params.list) + SortParams(sorts)
  {
    var index := 0;
    while index < |sorts|
      invariant 0 <= index <= |sorts|
      invariant params.list == old(params.list) + SortParams(sorts[..index])
    {
      params.Append(SortFieldKey(index), sorts[index].field);
      params.Append(SortOrderKey(index), OrderName(sorts[index].order));
      assert sorts[..index + 1][..index] == sorts[..index];
      index := index + 1;
    }
    assert sorts[..index] == sorts;
  }

  /** The last three blocks of `query()`: `page`, `limit` and `resetCache`, each when truthy. */
  method AppendScalars(params: URLSearchParams, o: QueryOptions)
    modifies params
    ensures params.list == old(params.list) + PageGroup(o) + LimitGroup(o) + ResetCacheGroup(o)
  {
    if o.page.Some? && o.page.value != 0 {
      params.Append("page", IntToString(o.page.value));
    }
    if o.limit.Some? && o.limit.value != 0 {
      params.Append("limit", IntToString(o.limit.value));
    }
    if o.resetCache == Some(true) {
      params.Append("resetCache", "true");
    }
  }

  class RequestQueryBuilder {
    var options: QueryOptions

    /** `new RequestQueryBuilder()`: the options start as `{}`. */
    constructor ()
      ensures options == NoOptions
    {
      options := NoOptions;
    }

    /** `RequestQueryBuilder.create(options)`: a new builder holding `options` as given. */
    static method Create(options: QueryOptions := NoOptions) returns (builder: RequestQueryBuilder)
      ensures fresh(builder)
      ensures builder.options == options
    {
      builder := new RequestQueryBuilder();
      builder.options := options;
    }

    /** `query()`: appends the parameters group by group and serializes them. */
    method Query() returns (q: string)
      ensures q == QueryString(options)
    {
      var o := options;
      var params := new URLSearchParams();

      if o.fields.Some? && |o.fields.value| > 0 {
        params.Append("fields", Join(o.fields.value, ','));
      }
      assert params.list == FieldsGroup(o);

      if o.search.Some? {
        AppendSearch(params, o.search.value);
      }
      assert params.list == FieldsGroup(o) + SearchGroup(o);

      if o.join.Some? && |o.join.value| > 0 {
        AppendJoins(params, o.join.value);
      }
      assert params.list == FieldsGroup(o) + SearchGroup(o) + JoinGroup(o);

      if o.sort.Some? && |o.sort.value| > 0 {
        AppendSorts(params, o.sort.value);
      }
      ghost var upToSort := FieldsGroup(o) + SearchGroup(o) + JoinGroup(o) + SortGroup(o);
      assert params.list == upToSort;

      AppendScalars(params, o);
      assert params.list == Params(o);

      q := params.ToString();
    }

    /** `getOptions()`. */
    method GetOptions() returns (o: QueryOptions)
      ensures o == options
    {
      o := options;
    }
  }

  /** What `create` stores, `getOptions` hands back unchanged. */
  method CreateThenGetOptions(options: QueryOptions) returns (got: QueryOptions)
    ensures got == options
  {
    var builder := RequestQueryBuilder.Create(options);
    got := builder.GetOptions();
  }

  /** `RequestQueryBuilder.create().query()`: without an argument the options are `{}`, so the query is empty. */
  method CreateWithoutOptions() returns (q: string)
    ensures q == ""
  {
    var builder := RequestQueryBuilder.Create();
    q := builder.Query();
  }
}
