/**
 * The first two stages of the table's `filteredData` (src/components/DataTable.tsx):
 * the free-text search over every value of a row, then one substring filter
 * per column-filter entry, each applied to the rows the previous stage kept.
 *
 * Each stage is `Array.prototype.filter`, so the stages are stated with
 * `FilterSeq`; the lemmas show that the stages together are one filter by the
 * conjunction of their conditions, and what follows from that.
 */
module Filtering {
  import opened Wrappers
  import opened Text
  import opened Values
  import opened Seqs

  /**
   * `value?.toString().toLowerCase().includes(term.toLowerCase())` as a
   * truth value: a missing field or `null` gives `undefined`, which is falsy.
   */
  predicate Includes(v: Option<Value>, term: string): (found: bool)
    ensures found ==> v.Some? && !v.value.Null? && |term| <= |ToString(v.value)|
    ensures v.Some? && !v.value.Null? && term == "" ==> found
  {
    v.Some? && !v.value.Null? && Contains(Lower(ToString(v.value)), Lower(term))
  }

  /** `Object.values(item).some(...)`. */
  predicate RecordMatches(r: Record, term: string): (found: bool)
    ensures found ==> exists k :: k in r && !r[k].Null?
    ensures term == "" ==> (found <==> exists k :: k in r && !r[k].Null?)
  {
    exists k :: k in r && Includes(Some(r[k]), term)
  }

  /** The text search: skipped when the term is empty (falsy). */
  function Search(rows: seq<Record>, term: string): (r: seq<Record>)
    ensures |r| <= |rows|
    ensures term != "" ==> forall x :: x in r <==> x in rows && RecordMatches(x, term)
  {
    if term == "" then rows
    else
      var matches := (r: Record) => RecordMatches(r, term);
      FilterMembers(rows, matches);
      FilterSeq(rows, matches)
  }

  /** A filter entry applies when its value is truthy and not `'all'`. */
  predicate IsActive(value: string)
  {
    value != "" && value != "all"
  }

  /** One entry `[key, value]` of the `forEach` over the column filters. */
  function ApplyFilter(rows: seq<Record>, key: string, value: string): (r: seq<Record>)
    ensures |r| <= |rows|
    ensures !IsActive(value) ==> r == rows
    ensures IsActive(value) ==> forall x :: x in r <==> x in rows && Includes(Field(x, key), value)
  {
    if IsActive(value) then
      var matches := (r: Record) => Includes(Field(r, key), value);
      FilterMembers(rows, matches);
      FilterSeq(rows, matches)
    else rows
  }

  /** The `forEach` over the filter entries, in the order `Object.entries` yields them. */
  function ColumnFilters(rows: seq<Record>, filters: seq<(string, string)>): (r: seq<Record>)
    ensures |r| <= |rows|
    ensures forall x :: x in r ==> x in rows
  {
    if filters == [] then rows
    else
      var n := |filters| - 1;
      ApplyFilter(ColumnFilters(rows, filters[..n]), filters[n].0, filters[n].1)
  }

  /** Search, then the column filters. */
  function SearchAndFilter(rows: seq<Record>, term: string, filters: seq<(string, string)>): (r: seq<Record>)
    ensures |r| <= |rows|
    ensures forall x :: x in r ==> x in rows
    ensures term != "" ==> forall x :: x in r ==> RecordMatches(x, term)
  {
    ColumnFilters(Search(rows, term), filters)
  }

  // ---------------------------------------------------------------------------
  // Independent statements of which rows are kept

  /** Every active entry's field contains its value. */
  predicate MatchesFilters(r: Record, filters: seq<(string, string)>)
  {
    forall j :: 0 <= j < |filters| && IsActive(filters[j].1) ==> Includes(Field(r, filters[j].0), filters[j].1)
  }

  /** A row the whole search-and-filter stage keeps. */
  predicate Kept(r: Record, term: string, filters: seq<(string, string)>)
  {
    (term == "" || RecordMatches(r, term)) && MatchesFilters(r, filters)
  }

  /** One more entry adds its own condition to the others. */
  lemma MatchesFiltersSnoc(r: Record, before: seq<(string, string)>, key: string, value: string)
    ensures MatchesFilters(r, before + [(key, value)])
        == (MatchesFilters(r, before) && (IsActive(value) ==> Includes(Field(r, key), value)))
  {
    var fs := before + [(key, value)];
    assert fs[|before|] == (key, value);
    if MatchesFilters(r, fs) {
      forall j | 0 <= j < |before| && IsActive(before[j].1)
        ensures Includes(Field(r, before[j].0), before[j].1)
      {
        assert fs[j] == before[j];
      }
    }
    if MatchesFilters(r, before) && (IsActive(value) ==> Includes(Field(r, key), value)) {
      forall j | 0 <= j < |fs| && IsActive(fs[j].1)
        ensures Includes(Field(r, fs[j].0), fs[j].1)
      {
        if j < |before| {
          assert fs[j] == before[j];
        }
      }
    }
  }

  /** The column filters together keep exactly the rows that satisfy every active entry, in order. */
  lemma {:induction false} ColumnFiltersAreOneFilter(rows: seq<Record>, filters: seq<(string, string)>)
    ensures ColumnFilters(rows, filters) == FilterSeq(rows, (r: Record) => MatchesFilters(r, filters))
  {
    var all := (r: Record) => MatchesFilters(r, filters);
    if filters == [] {
      FilterKeepsAll(rows, all);
    } else {
      var n := |filters| - 1;
      var before := filters[..n];
      var (key, value) := filters[n];
      assert filters == before + [(key, value)];
      ColumnFiltersAreOneFilter(rows, before);
      var p := (r: Record) => MatchesFilters(r, before);
      forall r: Record
        ensures all(r) == (p(r) && (IsActive(value) ==> Includes(Field(r, key), value)))
      {
        MatchesFiltersSnoc(r, before, key, value);
      }
      if IsActive(value) {
        FilterFuse(rows, p, (r: Record) => Includes(Field(r, key), value), all);
      } else {
        FilterCongruent(rows, p, all);
      }
    }
  }

  /** The search and the column filters keep exactly the rows satisfying both, in their original order. */
  lemma SearchAndFilterIsOneFilter(rows: seq<Record>, term: string, filters: seq<(string, string)>)
    ensures SearchAndFilter(rows, term, filters) == FilterSeq(rows, (r: Record) => Kept(r, term, filters))
  {
    var m := (r: Record) => MatchesFilters(r, filters);
    var kept := (r: Record) => Kept(r, term, filters);
    ColumnFiltersAreOneFilter(Search(rows, term), filters);
    if term == "" {
      FilterCongruent(rows, m, kept);
    } else {
      FilterFuse(rows, (r: Record) => RecordMatches(r, term), m, kept);
    }
  }

  /** A row is shown exactly when it is in the data and passes the search and every active filter. */
  lemma SearchAndFilterMembers(rows: seq<Record>, term: string, filters: seq<(string, string)>, r: Record)
    ensures r in SearchAndFilter(rows, term, filters) <==> r in rows && Kept(r, term, filters)
  {
    SearchAndFilterIsOneFilter(rows, term, filters);
    FilterMember(rows, (x: Record) => Kept(x, term, filters), r);
  }

  /** The kept rows appear in the order of the data: the result is a subsequence of the input. */
  lemma SearchAndFilterIsSubsequence(rows: seq<Record>, term: string, filters: seq<(string, string)>)
    ensures IsSubsequence(SearchAndFilter(rows, term, filters), rows)
  {
    SearchAndFilterIsOneFilter(rows, term, filters);
    FilterIsSubsequence(rows, (r: Record) => Kept(r, term, filters));
  }

  /** Running the search and the filters again on their own output changes nothing. */
  lemma SearchAndFilterIdempotent(rows: seq<Record>, term: string, filters: seq<(string, string)>)
    ensures SearchAndFilter(SearchAndFilter(rows, term, filters), term, filters) == SearchAndFilter(rows, term, filters)
  {
    var kept := (r: Record) => Kept(r, term, filters);
    SearchAndFilterIsOneFilter(rows, term, filters);
    SearchAndFilterIsOneFilter(FilterSeq(rows, kept), term, filters);
    FilterIdempotent(rows, kept);
  }

  /** With an empty term and no active entry (only `''` and `'all'` values), every row is shown, in order. */
  lemma NothingActiveKeepsAll(rows: seq<Record>, filters: seq<(string, string)>)
    requires forall j :: 0 <= j < |filters| ==> !IsActive(filters[j].1)
    ensures SearchAndFilter(rows, "", filters) == rows
  {
    SearchAndFilterIsOneFilter(rows, "", filters);
    FilterKeepsAll(rows, (r: Record) => Kept(r, "", filters));
  }

  /** An entry whose value is `''` or `'all'` can be dropped without changing the result. */
  lemma {:induction false} InactiveEntryIgnored(rows: seq<Record>, a: seq<(string, string)>, key: string, value: string, b: seq<(string, string)>)
    requires !IsActive(value)
    ensures ColumnFilters(rows, a + [(key, value)] + b) == ColumnFilters(rows, a + b)
  {
    var fs := a + [(key, value)] + b;
    var gs := a + b;
    ColumnFiltersAreOneFilter(rows, fs);
    ColumnFiltersAreOneFilter(rows, gs);
    forall i | 0 <= i < |rows|
      ensures MatchesFilters(rows[i], fs) == MatchesFilters(rows[i], gs)
    {
      var r := rows[i];
      if MatchesFilters(r, gs) {
        forall j | 0 <= j < |fs| && IsActive(fs[j].1) ensures Includes(Field(r, fs[j].0), fs[j].1) {
          if j < |a| {
            assert fs[j] == gs[j];
          } else {
            assert j > |a|;
            assert fs[j] == gs[j - 1];
          }
        }
      }
      if MatchesFilters(r, fs) {
        forall j | 0 <= j < |gs| && IsActive(gs[j].1) ensures Includes(Field(r, gs[j].0), gs[j].1) {
          if j < |a| {
            assert fs[j] == gs[j];
          } else {
            assert fs[j + 1] == gs[j];
          }
        }
      }
    }
    FilterCongruent(rows, (r: Record) => MatchesFilters(r, fs), (r: Record) => MatchesFilters(r, gs));
  }

  /** The search ignores the case of the term: searching for `term` and for its lower-case form show the same rows. */
  lemma SearchIgnoresTermCase(rows: seq<Record>, term: string)
    ensures Search(rows, term) == Search(rows, Lower(term))
  {
    assert Lower(Lower(term)) == Lower(term);
    if term != "" {
      assert Lower(term) != "";
      forall i | 0 <= i < |rows| ensures RecordMatches(rows[i], term) == RecordMatches(rows[i], Lower(term)) {
        var r := rows[i];
        if RecordMatches(r, term) {
          var k :| k in r && Includes(Some(r[k]), term);
          assert Includes(Some(r[k]), Lower(term));
        }
        if RecordMatches(r, Lower(term)) {
          var k :| k in r && Includes(Some(r[k]), Lower(term));
          assert Includes(Some(r[k]), term);
        }
      }
      FilterCongruent(rows, (r: Record) => RecordMatches(r, term), (r: Record) => RecordMatches(r, Lower(term)));
    }
  }

  /** A non-empty search never matches a row whose values are all `null`. */
  lemma NullRowNeverFound(rows: seq<Record>, term: string, r: Record)
    requires term != ""
    requires forall k :: k in r ==> r[k] == Null
    ensures r !in Search(rows, term)
  {
    FilterMember(rows, (x: Record) => RecordMatches(x, term), r);
  }

  // ---------------------------------------------------------------------------
  // Cell text

  /** `renderCellValue` for a column of the default type: `null` and `undefined` are shown as `-`. */
  function CellText(v: Option<Value>): (text: string)
    ensures text == "-" <==> v.None? || v.value.Null? || v.value == Str("-")
  {
    if v.None? || v.value.Null? then "-" else ToString(v.value)
  }

  /** A cell shown as `-` because it is `null` is not found by searching for `-`. */
  lemma DashCellNotSearchable(rows: seq<Record>, r: Record)
    requires forall k :: k in r ==> r[k] == Null
    ensures forall k :: k in r ==> CellText(Field(r, k)) == "-"
    ensures r !in Search(rows, "-")
  {
    NullRowNeverFound(rows, "-", r);
  }
}
