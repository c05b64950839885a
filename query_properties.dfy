/**
 * What the parameter list of `query()` holds (src/lib/query-builder.ts:20-60):
 * the groups come in a fixed order, each group keeps its input order, and each
 * parameter name carries exactly the values the options call for. `GetAll`
 * is `URLSearchParams.prototype.getAll`, the reference for "which values does
 * the query carry under this name".
 */
module QueryProperties {
  import opened Wrappers
  import opened Text
  import opened Values
  import opened Seqs
  import opened FormUrlEncoded
  import opened QueryBuilder

  // ---------------------------------------------------------------------------
  // Groups and their order

  /** The group a parameter name belongs to, numbered in emission order. */
  function GroupRank(name: string): nat
  {
    if name == "fields" then 0
    else if "search[" <= name then 1
    else if "join[" <= name then 2
    else if "sort[" <= name then 3
    else if name == "page" then 4
    else if name == "limit" then 5
    else if name == "resetCache" then 6
    else 7
  }

  predicate AllOfRank(ps: seq<Param>, g: nat)
  {
    forall i :: 0 <= i < |ps| ==> GroupRank(ps[i].0) == g
  }

  predicate RanksAtMost(ps: seq<Param>, g: nat)
  {
    forall i :: 0 <= i < |ps| ==> GroupRank(ps[i].0) <= g
  }

  predicate RanksOrdered(ps: seq<Param>)
  {
    forall i, j :: 0 <= i < j < |ps| ==> GroupRank(ps[i].0) <= GroupRank(ps[j].0)
  }

  lemma SearchKeyRank(key: string)
    ensures GroupRank(SearchKey(key)) == 1
  {
    assert "search[" <= SearchKey(key);
  }

  lemma JoinKeyRank(i: nat)
    ensures GroupRank(JoinKey(i)) == 2
  {
    var k := JoinKey(i);
    assert k[0] == 'j' && "join[" <= k;
  }

  lemma SortKeyRanks(i: nat)
    ensures GroupRank(SortFieldKey(i)) == 3
    ensures GroupRank(SortOrderKey(i)) == 3
  {
    var f := SortFieldKey(i);
    var o := SortOrderKey(i);
    assert f[0] == 's' && f[1] == 'o' && "sort[" <= f;
    assert o[0] == 's' && o[1] == 'o' && "sort[" <= o;
  }

  lemma {:induction false} SearchParamsRank(entries: seq<(string, Value)>)
    ensures AllOfRank(SearchParams(entries), 1)
  {
    if entries != [] {
      SearchParamsRank(entries[..|entries| - 1]);
      SearchKeyRank(entries[|entries| - 1].0);
    }
  }

  lemma {:induction false} JoinParamsRank(joins: seq<JoinField>)
    ensures AllOfRank(JoinParams(joins), 2)
  {
    if joins != [] {
      JoinParamsRank(joins[..|joins| - 1]);
      JoinKeyRank(|joins| - 1);
    }
  }

  lemma {:induction false} SortParamsRank(sorts: seq<SortSpec>)
    ensures AllOfRank(SortParams(sorts), 3)
  {
    if sorts != [] {
      SortParamsRank(sorts[..|sorts| - 1]);
      SortKeyRanks(|sorts| - 1);
    }
  }

  /** The group of rank `g` in the parameter list of `o`. */
  function Group(o: QueryOptions, g: nat): seq<Param>
  {
    if g == 0 then FieldsGroup(o)
    else if g == 1 then SearchGroup(o)
    else if g == 2 then JoinGroup(o)
    else if g == 3 then SortGroup(o)
    else if g == 4 then PageGroup(o)
    else if g == 5 then LimitGroup(o)
    else if g == 6 then ResetCacheGroup(o)
    else []
  }

  lemma ScalarNameRanks()
    ensures GroupRank("fields") == 0 && GroupRank("page") == 4
    ensures GroupRank("limit") == 5 && GroupRank("resetCache") == 6
  {
    assert "page"[0] == 'p' && "limit"[0] == 'l' && "resetCache"[0] == 'r';
  }

  lemma GroupRanks(o: QueryOptions, g: nat)
    ensures AllOfRank(Group(o, g), g)
  {
    ScalarNameRanks();
    if g == 1 && o.search.Some? {
      SearchParamsRank(o.search.value);
    } else if g == 2 && o.join.Some? {
      JoinParamsRank(o.join.value);
    } else if g == 3 && o.sort.Some? {
      SortParamsRank(o.sort.value);
    }
  }

  /** The seven groups of `o`, in emission order. */
  function Groups(o: QueryOptions): (gs: seq<seq<Param>>)
    ensures |gs| == 7
  {
    seq(7, g requires 0 <= g < 7 => Group(o, g))
  }

  /** The groups one after another. */
  function Concat(gs: seq<seq<Param>>): seq<Param>
  {
    if gs == [] then [] else Concat(gs[..|gs| - 1]) + gs[|gs| - 1]
  }

  lemma ParamsAreGroups(o: QueryOptions)
    ensures Params(o) == Concat(Groups(o))
  {
    var gs := Groups(o);
    assert Concat(gs[..1]) == FieldsGroup(o) by { assert gs[..1][..0] == []; }
    assert Concat(gs[..2]) == Concat(gs[..1]) + SearchGroup(o) by { assert gs[..2][..1] == gs[..1]; }
    assert Concat(gs[..3]) == Concat(gs[..2]) + JoinGroup(o) by { assert gs[..3][..2] == gs[..2]; }
    assert Concat(gs[..4]) == Concat(gs[..3]) + SortGroup(o) by { assert gs[..4][..3] == gs[..3]; }
    assert Concat(gs[..5]) == Concat(gs[..4]) + PageGroup(o) by { assert gs[..5][..4] == gs[..4]; }
    assert Concat(gs[..6]) == Concat(gs[..5]) + LimitGroup(o) by { assert gs[..6][..5] == gs[..5]; }
    assert Concat(gs) == Concat(gs[..6]) + ResetCacheGroup(o);
  }

  lemma AppendGroup(a: seq<Param>, b: seq<Param>, g: nat)
    requires RanksOrdered(a) && RanksAtMost(a, g) && AllOfRank(b, g)
    ensures RanksOrdered(a + b) && RanksAtMost(a + b, g)
  {
    var ab := a + b;
    forall i, j | 0 <= i < j < |ab| ensures GroupRank(ab[i].0) <= GroupRank(ab[j].0) {
      if j < |a| {
        assert ab[i] == a[i] && ab[j] == a[j];
      } else if i < |a| {
        assert ab[i] == a[i] && ab[j] == b[j - |a|];
      } else {
        assert ab[i] == b[i - |a|] && ab[j] == b[j - |a|];
      }
    }
    forall i | 0 <= i < |ab| ensures GroupRank(ab[i].0) <= g {
      if i < |a| {
        assert ab[i] == a[i];
      } else {
        assert ab[i] == b[i - |a|];
      }
    }
  }

  /** Groups whose `h`-th holds only names of rank `h` concatenate in rank order. */
  lemma {:induction false} ConcatOrdered(gs: seq<seq<Param>>)
    requires |gs| >= 1
    requires forall h :: 0 <= h < |gs| ==> AllOfRank(gs[h], h)
    ensures RanksOrdered(Concat(gs)) && RanksAtMost(Concat(gs), |gs| - 1)
  {
    var n := |gs| - 1;
    if n == 0 {
      AppendGroup([], gs[0], 0);
    } else {
      ConcatOrdered(gs[..n]);
      AppendGroup(Concat(gs[..n]), gs[n], n);
    }
  }

  /**
   * The parameters come in the fixed group order: `fields`, `search[*]`,
   * `join[*]`, `sort[*]`, `page`, `limit`, `resetCache`.
   */
  lemma ParamsInGroupOrder(o: QueryOptions)
    ensures RanksOrdered(Params(o))
  {
    forall h | 0 <= h < 7 ensures AllOfRank(Groups(o)[h], h) {
      GroupRanks(o, h);
    }
    ParamsAreGroups(o);
    ConcatOrdered(Groups(o));
  }

  // ---------------------------------------------------------------------------
  // Values per parameter name

  /** `URLSearchParams.prototype.getAll(name)`: the values under `name`, in order. */
  function GetAll(ps: seq<Param>, name: string): seq<string>
  {
    if ps == [] then [] else (if ps[0].0 == name then [ps[0].1] else []) + GetAll(ps[1..], name)
  }

  lemma {:induction false} GetAllConcat(a: seq<Param>, b: seq<Param>, name: string)
    ensures GetAll(a + b, name) == GetAll(a, name) + GetAll(b, name)
  {
    if a == [] {
      assert a + b == b;
    } else {
      var ab := a + b;
      var head := if a[0].0 == name then [a[0].1] else [];
      assert ab[0] == a[0] && ab[1..] == a[1..] + b;
      GetAllConcat(a[1..], b, name);
      assert GetAll(ab, name) == head + GetAll(ab[1..], name);
      assert GetAll(a, name) == head + GetAll(a[1..], name);
    }
  }

  lemma {:induction false} GetAllOtherRank(ps: seq<Param>, g: nat, name: string)
    requires AllOfRank(ps, g) && GroupRank(name) != g
    ensures GetAll(ps, name) == []
  {
    if ps != [] {
      GetAllOtherRank(ps[1..], g, name);
    }
  }

  /** A name finds nothing in a group other than its own. */
  lemma GetAllOtherGroup(o: QueryOptions, h: nat, name: string)
    requires GroupRank(name) != h
    ensures GetAll(Group(o, h), name) == []
  {
    GroupRanks(o, h);
    GetAllOtherRank(Group(o, h), h, name);
  }

  lemma NoGroupBeyond(o: QueryOptions, g: nat)
    requires g >= 7
    ensures Group(o, g) == []
  {
  }

  /** When no group but the `r`-th holds `name`, the whole list holds what that group holds. */
  lemma {:induction false} GetAllConcatGroups(gs: seq<seq<Param>>, name: string, r: nat)
    requires forall h :: 0 <= h < |gs| && h != r ==> GetAll(gs[h], name) == []
    ensures GetAll(Concat(gs), name) == if r < |gs| then GetAll(gs[r], name) else []
  {
    if gs != [] {
      var n := |gs| - 1;
      GetAllConcatGroups(gs[..n], name, r);
      GetAllConcat(Concat(gs[..n]), gs[n], name);
    }
  }

  /** When no group but the `r`-th holds `name`, the whole list holds what that group holds. */
  lemma GetAllFromGroup(o: QueryOptions, name: string, r: nat)
    requires forall h :: 0 <= h < 7 && h != r ==> GetAll(Group(o, h), name) == []
    ensures GetAll(Params(o), name) == GetAll(Group(o, r), name)
  {
    var gs := Groups(o);
    ParamsAreGroups(o);
    GetAllConcatGroups(gs, name, r);
    if r < 7 {
      assert gs[r] == Group(o, r);
    } else {
      NoGroupBeyond(o, r);
    }
  }

  /** The values under `name` all come from the one group that `name` belongs to. */
  lemma GetAllFromOwnGroup(o: QueryOptions, name: string)
    ensures GetAll(Params(o), name) == GetAll(Group(o, GroupRank(name)), name)
  {
    var r := GroupRank(name);
    forall h | 0 <= h < 7 && h != r ensures GetAll(Group(o, h), name) == [] {
      GetAllOtherGroup(o, h, name);
    }
    GetAllFromGroup(o, name, r);
  }

  /**
   * `fields` is written once, as the comma-join of the list, and only when the
   * list is present and non-empty; when written it is the first parameter.
   */
  lemma FieldsParam(o: QueryOptions)
    ensures GetAll(Params(o), "fields") == if HasFields(o) then [Join(o.fields.value, ',')] else []
    ensures HasFields(o) ==> Params(o)[0] == ("fields", Join(o.fields.value, ','))
  {
    ScalarNameRanks();
    GetAllFromOwnGroup(o, "fields");
  }

  /** The `fields` value splits back on `,` into the field names, when no name contains a comma. */
  lemma FieldsRecoverable(o: QueryOptions)
    requires HasFields(o)
    requires forall i :: 0 <= i < |o.fields.value| ==> ',' !in o.fields.value[i]
    ensures GetAll(Params(o), "fields") == [Join(o.fields.value, ',')]
    ensures Split(GetAll(Params(o), "fields")[0], ',') == o.fields.value
  {
    FieldsParam(o);
    SplitJoin(o.fields.value, ',');
  }

  /** `page` is written, as its decimal, exactly when it is truthy (present and not 0). */
  lemma PageParam(o: QueryOptions)
    ensures GetAll(Params(o), "page") == if IsTruthy(o.page) then [IntToString(o.page.value)] else []
  {
    ScalarNameRanks();
    GetAllFromOwnGroup(o, "page");
  }

  /** `limit` is written, as its decimal, exactly when it is truthy (present and not 0). */
  lemma LimitParam(o: QueryOptions)
    ensures GetAll(Params(o), "limit") == if IsTruthy(o.limit) then [IntToString(o.limit.value)] else []
  {
    ScalarNameRanks();
    GetAllFromOwnGroup(o, "limit");
  }

  /** `resetCache=true` is written exactly when `resetCache` is true. */
  lemma ResetCacheParam(o: QueryOptions)
    ensures GetAll(Params(o), "resetCache") == if o.resetCache == Some(true) then ["true"] else []
  {
    ScalarNameRanks();
    GetAllFromOwnGroup(o, "resetCache");
  }

  // ---------------------------------------------------------------------------
  // The search group

  lemma SearchKeyInjective(a: string, b: string)
    requires SearchKey(a) == SearchKey(b)
    ensures a == b
  {
    assert a == SearchKey(a)[7..|SearchKey(a)| - 1];
    assert b == SearchKey(b)[7..|SearchKey(b)| - 1];
  }

  /** Each entry written as its `search[key]=value` parameter. */
  function EntryParams(entries: seq<(string, Value)>): (r: seq<Param>)
    ensures |r| == |entries|
  {
    seq(|entries|, i requires 0 <= i < |entries| => (SearchKey(entries[i].0), ToString(entries[i].1)))
  }

  /**
   * The search group is the entries whose value is not `undefined`, `null` or
   * `''`, in their input order, each as `search[key]=value`.
   */
  lemma {:induction false} SearchParamsAreKeptEntries(entries: seq<(string, Value)>)
    ensures SearchParams(entries) == EntryParams(FilterSeq(entries, (e: (string, Value)) => IsEmitted(e.1)))
  {
    if entries != [] {
      var n := |entries| - 1;
      var init, last := entries[..n], entries[n];
      var p := (e: (string, Value)) => IsEmitted(e.1);
      assert entries == init + [last];
      SearchParamsAreKeptEntries(init);
      FilterConcat(init, [last], p);
      var a, b := FilterSeq(init, p), FilterSeq([last], p);
      assert EntryParams(a + b) == EntryParams(a) + EntryParams(b);
    }
  }

  lemma {:induction false} SearchParamsAbsentKey(entries: seq<(string, Value)>, key: string)
    requires forall i :: 0 <= i < |entries| ==> entries[i].0 != key
    ensures GetAll(SearchParams(entries), SearchKey(key)) == []
  {
    if entries != [] {
      var n := |entries| - 1;
      var init := entries[..n];
      var step := if IsEmitted(entries[n].1) then [(SearchKey(entries[n].0), ToString(entries[n].1))] else [];
      assert entries[..n + 1] == entries;
      SearchParamsStep(entries, n);
      SearchParamsAbsentKey(init, key);
      GetAllConcat(SearchParams(init), step, SearchKey(key));
      if SearchKey(entries[n].0) == SearchKey(key) {
        SearchKeyInjective(entries[n].0, key);
      }
    }
  }

  lemma {:induction false} SearchParamsForKey(entries: seq<(string, Value)>, j: nat)
    requires DistinctKeys(entries) && j < |entries|
    ensures GetAll(SearchParams(entries), SearchKey(entries[j].0))
         == if IsEmitted(entries[j].1) then [ToString(entries[j].1)] else []
  {
    var n := |entries| - 1;
    var init := entries[..n];
    var key := entries[j].0;
    var step := if IsEmitted(entries[n].1) then [(SearchKey(entries[n].0), ToString(entries[n].1))] else [];
    assert entries[..n + 1] == entries;
    SearchParamsStep(entries, n);
    GetAllConcat(SearchParams(init), step, SearchKey(key));
    if j == n {
      assert forall i :: 0 <= i < |init| ==> init[i].0 != key;
      SearchParamsAbsentKey(init, key);
    } else {
      assert init[j] == entries[j];
      assert DistinctKeys(init);
      SearchParamsForKey(init, j);
      if SearchKey(entries[n].0) == SearchKey(key) {
        SearchKeyInjective(entries[n].0, key);
      }
    }
  }

  /** Looking up `search[key]` in the whole list sees only the search group. */
  lemma SearchKeyInSearchGroup(o: QueryOptions, key: string)
    requires o.search.Some?
    ensures GetAll(Params(o), SearchKey(key)) == GetAll(SearchParams(o.search.value), SearchKey(key))
  {
    SearchKeyRank(key);
    GetAllFromOwnGroup(o, SearchKey(key));
  }

  /**
   * For a key of the `search` object, `search[key]` carries its value when the
   * value is written (anything but `undefined`, `null` or `''`, so `'all'` is
   * written), and nothing otherwise; for any other key nothing.
   */
  lemma SearchParam(o: QueryOptions, key: string)
    requires o.search.Some? && DistinctKeys(o.search.value)
    ensures forall j :: 0 <= j < |o.search.value| && o.search.value[j].0 == key ==>
      GetAll(Params(o), SearchKey(key))
        == if IsEmitted(o.search.value[j].1) then [ToString(o.search.value[j].1)] else []
    ensures (forall j :: 0 <= j < |o.search.value| ==> o.search.value[j].0 != key) ==>
      GetAll(Params(o), SearchKey(key)) == []
  {
    var es := o.search.value;
    SearchKeyInSearchGroup(o, key);
    forall j | 0 <= j < |es| && es[j].0 == key
      ensures GetAll(SearchParams(es), SearchKey(key)) == if IsEmitted(es[j].1) then [ToString(es[j].1)] else []
    {
      SearchParamsForKey(es, j);
    }
    if forall j :: 0 <= j < |es| ==> es[j].0 != key {
      SearchParamsAbsentKey(es, key);
    }
  }

  // ---------------------------------------------------------------------------
  // The query string

/**
   * The query string is empty exactly when no block of `query()` writes
   * anything: no non-empty `fields`, no written search entry, no join, no sort,
   * no truthy `page` or `limit`, and no `resetCache: true`. `{}` gives the
   * empty string.
   */
  lemma EmptyQuery(o: QueryOptions)
    ensures QueryString(o) == "" <==>
      && !HasFields(o)
      && (o.search.None? || forall i :: 0 <= i < |o.search.value| ==> !IsEmitted(o.search.value[i].1))
      && (o.join.None? || o.join.value == [])
      && (o.sort.None? || o.sort.value == [])
      && !IsTruthy(o.page) && !IsTruthy(o.limit) && o.resetCache != Some(true)
    ensures QueryString(NoOptions) == ""
  {
    NoParams(o);
    NoParams(NoOptions);
  }

  /** The parameter list is empty exactly when each group writes nothing. */
  lemma NoParams(o: QueryOptions)
    ensures Params(o) == [] <==>
      && !HasFields(o)
      && (o.search.None? || forall i :: 0 <= i < |o.search.value| ==> !IsEmitted(o.search.value[i].1))
      && (o.join.None? || o.join.value == [])
      && (o.sort.None? || o.sort.value == [])
      && !IsTruthy(o.page) && !IsTruthy(o.limit) && o.resetCache != Some(true)
  {
    GroupsEmpty(FieldsGroup(o), SearchGroup(o), JoinGroup(o), SortGroup(o), PageGroup(o), LimitGroup(o), ResetCacheGroup(o));
    GroupEmptyConditions(o);
  }

  /** When each group of `query()` writes nothing. */
  lemma GroupEmptyConditions(o: QueryOptions)
    ensures FieldsGroup(o) == [] <==> !HasFields(o)
    ensures SearchGroup(o) == [] <==> o.search.None? || forall i :: 0 <= i < |o.search.value| ==> !IsEmitted(o.search.value[i].1)
    ensures JoinGroup(o) == [] <==> o.join.None? || o.join.value == []
    ensures SortGroup(o) == [] <==> o.sort.None? || o.sort.value == []
    ensures PageGroup(o) == [] <==> !IsTruthy(o.page)
    ensures LimitGroup(o) == [] <==> !IsTruthy(o.limit)
    ensures ResetCacheGroup(o) == [] <==> o.resetCache != Some(true)
  {
  }

  /** Seven groups together are empty exactly when each of them is. */
  lemma GroupsEmpty<T>(a: seq<T>, b: seq<T>, c: seq<T>, d: seq<T>, e: seq<T>, f: seq<T>, g: seq<T>)
    ensures a + b + c + d + e + f + g == [] <==> a == [] && b == [] && c == [] && d == [] && e == [] && f == [] && g == []
  {
    assert |a + b + c + d + e + f + g| == |a| + |b| + |c| + |d| + |e| + |f| + |g|;
  }

  predicate AsciiStrings(xs: seq<string>)
  {
    forall i :: 0 <= i < |xs| ==> IsAscii(xs[i])
  }

  /** Every text the options hold is ASCII. */
  predicate AsciiOptions(o: QueryOptions)
  {
    && (o.fields.Some? ==> AsciiStrings(o.fields.value))
    && (o.search.Some? ==> forall i :: 0 <= i < |o.search.value| ==>
          IsAscii(o.search.value[i].0) && (o.search.value[i].1.Str? ==> IsAscii(o.search.value[i].1.s)))
    && (o.join.Some? ==> forall i :: 0 <= i < |o.join.value| ==> IsAscii(o.join.value[i].field))
    && (o.sort.Some? ==> forall i :: 0 <= i < |o.sort.value| ==> IsAscii(o.sort.value[i].field))
  }

  predicate AsciiParams(ps: seq<Param>)
  {
    forall k :: 0 <= k < |ps| ==> IsAscii(ps[k].0) && IsAscii(ps[k].1)
  }

  lemma AsciiConcat(a: string, b: string)
    requires IsAscii(a) && IsAscii(b)
    ensures IsAscii(a + b)
  {
    var ab := a + b;
    forall i | 0 <= i < |ab| ensures ab[i] as int < 128 {
      if i < |a| { assert ab[i] == a[i]; } else { assert ab[i] == b[i - |a|]; }
    }
  }

  lemma AsciiParamsConcat(a: seq<Param>, b: seq<Param>)
    requires AsciiParams(a) && AsciiParams(b)
    ensures AsciiParams(a + b)
  {
    var ab := a + b;
    forall k | 0 <= k < |ab| ensures IsAscii(ab[k].0) && IsAscii(ab[k].1) {
      if k < |a| { assert ab[k] == a[k]; } else { assert ab[k] == b[k - |a|]; }
    }
  }

  lemma AsciiIntToString(i: int)
    ensures IsAscii(IntToString(i))
  {
  }

  lemma {:induction false} AsciiJoin(xs: seq<string>, sep: char)
    requires AsciiStrings(xs) && sep as int < 128
    ensures IsAscii(Join(xs, sep))
  {
    if |xs| > 1 {
      AsciiJoin(xs[1..], sep);
      AsciiConcat(xs[0], [sep]);
      AsciiConcat(xs[0] + [sep], Join(xs[1..], sep));
    }
  }

  lemma AsciiNatKeys(i: nat)
    ensures IsAscii(JoinKey(i)) && IsAscii(SortFieldKey(i)) && IsAscii(SortOrderKey(i))
  {
    var d := NatToString(i);
    assert IsAscii(d);
    AsciiConcat("join[", d);
    AsciiConcat("join[" + d, "]");
    AsciiConcat("sort[", d);
    AsciiConcat("sort[" + d, "][field]");
    AsciiConcat("sort[" + d, "][order]");
  }

  lemma {:induction false} AsciiSearchParams(entries: seq<(string, Value)>)
    requires forall i :: 0 <= i < |entries| ==> IsAscii(entries[i].0) && (entries[i].1.Str? ==> IsAscii(entries[i].1.s))
    ensures AsciiParams(SearchParams(entries))
  {
    if entries != [] {
      var n := |entries| - 1;
      AsciiSearchParams(entries[..n]);
      AsciiConcat("search[", entries[n].0);
      AsciiConcat("search[" + entries[n].0, "]");
      if entries[n].1.Int? {
        AsciiIntToString(entries[n].1.i);
      }
      var step := if IsEmitted(entries[n].1) then [(SearchKey(entries[n].0), ToString(entries[n].1))] else [];
      AsciiParamsConcat(SearchParams(entries[..n]), step);
    }
  }

  lemma {:induction false} AsciiJoinParams(joins: seq<JoinField>)
    requires forall i :: 0 <= i < |joins| ==> IsAscii(joins[i].field)
    ensures AsciiParams(JoinParams(joins))
  {
    if joins != [] {
      var n := |joins| - 1;
      AsciiJoinParams(joins[..n]);
      AsciiNatKeys(n);
      AsciiParamsConcat(JoinParams(joins[..n]), [(JoinKey(n), joins[n].field)]);
    }
  }

  lemma {:induction false} AsciiSortParams(sorts: seq<SortSpec>)
    requires forall i :: 0 <= i < |sorts| ==> IsAscii(sorts[i].field)
    ensures AsciiParams(SortParams(sorts))
  {
    if sorts != [] {
      var n := |sorts| - 1;
      AsciiSortParams(sorts[..n]);
      AsciiNatKeys(n);
      assert IsAscii(OrderName(sorts[n].order));
      AsciiParamsConcat(SortParams(sorts[..n]),
        [(SortFieldKey(n), sorts[n].field), (SortOrderKey(n), OrderName(sorts[n].order))]);
    }
  }

  lemma AsciiGroups(o: QueryOptions, g: nat)
    requires AsciiOptions(o)
    ensures AsciiParams(Group(o, g))
  {
    if g == 0 && HasFields(o) {
      AsciiJoin(o.fields.value, ',');
    } else if g == 1 && o.search.Some? {
      AsciiSearchParams(o.search.value);
    } else if g == 2 && o.join.Some? {
      AsciiJoinParams(o.join.value);
    } else if g == 3 && o.sort.Some? {
      AsciiSortParams(o.sort.value);
    } else if g == 4 && IsTruthy(o.page) {
      AsciiIntToString(o.page.value);
    } else if g == 5 && IsTruthy(o.limit) {
      AsciiIntToString(o.limit.value);
    }
  }

  lemma {:induction false} AsciiGroupsConcat(gs: seq<seq<Param>>)
    requires forall h :: 0 <= h < |gs| ==> AsciiParams(gs[h])
    ensures AsciiParams(Concat(gs))
  {
    if gs != [] {
      var n := |gs| - 1;
      AsciiGroupsConcat(gs[..n]);
      AsciiParamsConcat(Concat(gs[..n]), gs[n]);
    }
  }

  /**
   * Reading the query string back with the form-urlencoded parser gives the
   * parameter list, names and values, in emission order.
   */
  lemma QueryParsesBack(o: QueryOptions)
    requires AsciiOptions(o)
    ensures Parse(QueryString(o)) == Params(o)
  {
    forall h | 0 <= h < 7 ensures AsciiParams(Groups(o)[h]) {
      AsciiGroups(o, h);
    }
    ParamsAreGroups(o);
    AsciiGroupsConcat(Groups(o));
    ParseSerialize(Params(o));
  }
}
