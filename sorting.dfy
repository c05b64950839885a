/**
 * The sort stage of the table's `filteredData` (src/components/DataTable.tsx):
 * `filtered.sort(...)` with the comparator
 * `aValue < bValue ? -1 : aValue > bValue ? 1 : 0`, negated for `DESC`.
 *
 * `Array.prototype.sort` is stable, and for a comparator that is a total
 * preorder every stable sort gives the same result, so the result is specified
 * by stable insertion (`Insert`, `SortRows`). `SortInPlace` sorts an array in
 * place and is proved to compute exactly that result.
 */
module Sorting {
  import opened Wrappers
  import opened Values
  import opened Seqs
  import opened QueryBuilder

  // ---------------------------------------------------------------------------
  // The comparator

  /** String `<`: lexicographic, character by character; a proper prefix is smaller. */
  predicate StrLess(x: string, y: string)
  {
    if x == [] then y != []
    else y != [] && (x[0] < y[0] || (x[0] == y[0] && StrLess(x[1..], y[1..])))
  }

  /** `<` on two field values, for the kinds the model orders: two numbers or two strings. */
  predicate Less(a: Option<Value>, b: Option<Value>)
  {
    if a.Some? && b.Some? && a.value.Int? && b.value.Int? then a.value.i < b.value.i
    else if a.Some? && b.Some? && a.value.Str? && b.value.Str? then StrLess(a.value.s, b.value.s)
    else false
  }

  /** The comparator passed to `sort`. */
  function Compare(a: Record, b: Record, spec: SortSpec): (c: int)
    ensures -1 <= c <= 1
  {
    var x := Field(a, spec.field);
    var y := Field(b, spec.field);
    var comparison := if Less(x, y) then -1 else if Less(y, x) then 1 else 0;
    if spec.order == DESC then -comparison else comparison
  }

  // ---------------------------------------------------------------------------
  // The sorted order

  /** Stable insertion of `x` after `sorted`: it moves left only past rows that compare greater. */
  function Insert(sorted: seq<Record>, x: Record, spec: SortSpec): seq<Record>
  {
    if sorted == [] then [x]
    else
      var n := |sorted| - 1;
      if Compare(sorted[n], x, spec) > 0 then Insert(sorted[..n], x, spec) + [sorted[n]]
      else sorted + [x]
  }

  /** `filtered.sort(...)` for one sort spec: a stable insertion sort that keeps every row. */
  function SortRows(rows: seq<Record>, spec: SortSpec): (r: seq<Record>)
    ensures |r| == |rows|
  {
    if rows == [] then []
    else
      var n := |rows| - 1;
      InsertLength(SortRows(rows[..n], spec), rows[n], spec);
      Insert(SortRows(rows[..n], spec), rows[n], spec)
  }

  lemma {:induction false} InsertLength(sorted: seq<Record>, x: Record, spec: SortSpec)
    ensures |Insert(sorted, x, spec)| == |sorted| + 1
  {
    if sorted != [] && Compare(sorted[|sorted| - 1], x, spec) > 0 {
      InsertLength(sorted[..|sorted| - 1], x, spec);
    }
  }

  /** `if (sortBy) filtered.sort(...)`. */
  function SortStage(rows: seq<Record>, sortBy: Option<SortSpec>): (r: seq<Record>)
    ensures |r| == |rows| && multiset(r) == multiset(rows)
    ensures sortBy.None? ==> r == rows
  {
    if sortBy.Some? then
      SortPermutation(rows, sortBy.value);
      SortRows(rows, sortBy.value)
    else rows
  }

  // ---------------------------------------------------------------------------
  // Facts about string order

  lemma {:induction false} StrLessIrreflexive(x: string)
    ensures !StrLess(x, x)
  {
    if x != [] {
      StrLessIrreflexive(x[1..]);
    }
  }

  lemma {:induction false} StrLessTransitive(x: string, y: string, z: string)
    requires StrLess(x, y) && StrLess(y, z)
    ensures StrLess(x, z)
  {
    if x != [] && x[0] == y[0] && y[0] == z[0] {
      StrLessTransitive(x[1..], y[1..], z[1..]);
    }
  }

  lemma {:induction false} StrLessTotal(x: string, y: string)
    ensures x == y || StrLess(x, y) || StrLess(y, x)
  {
    if x != [] && y != [] && x[0] == y[0] {
      StrLessTotal(x[1..], y[1..]);
      if x[1..] == y[1..] {
        assert x == [x[0]] + x[1..] && y == [y[0]] + y[1..];
      }
    }
  }

  lemma StrLessAsymmetric(x: string, y: string)
    ensures !(StrLess(x, y) && StrLess(y, x))
  {
    if StrLess(x, y) && StrLess(y, x) {
      StrLessTransitive(x, y, x);
      StrLessIrreflexive(x);
    }
  }

  /**
   * `<` on field values is strict: it holds only between two present values of
   * one kind, never between a value and itself, and never both ways.
   */
  lemma LessStrict(a: Option<Value>, b: Option<Value>)
    ensures Less(a, b) ==> a.Some? && b.Some? && a != b
    ensures Less(a, b) ==> (a.value.Int? && b.value.Int?) || (a.value.Str? && b.value.Str?)
    ensures !(Less(a, b) && Less(b, a))
  {
    if a.Some? && b.Some? && a.value.Str? && b.value.Str? {
      StrLessIrreflexive(a.value.s);
      StrLessAsymmetric(a.value.s, b.value.s);
    }
  }

  /** "Not greater" on strings is transitive. */
  lemma StrNotLessTransitive(x: string, y: string, z: string)
    requires !StrLess(y, x) && !StrLess(z, y)
    ensures !StrLess(z, x)
  {
    StrLessTotal(x, y);
    StrLessTotal(y, z);
    if x != y && y != z {
      StrLessTransitive(x, y, z);
      StrLessAsymmetric(x, z);
    }
  }

  // ---------------------------------------------------------------------------
  // Facts about the comparator

  /** Swapping the rows negates the comparison, whatever the values. */
  lemma CompareAntisymmetric(a: Record, b: Record, spec: SortSpec)
    ensures Compare(b, a, spec) == -Compare(a, b, spec)
  {
    var x := Field(a, spec.field);
    var y := Field(b, spec.field);
    if x.Some? && y.Some? && x.value.Str? && y.value.Str? {
      StrLessAsymmetric(x.value.s, y.value.s);
    }
  }

  /** Rows with the same value in the sort field compare equal. */
  lemma CompareEqualKeys(a: Record, b: Record, spec: SortSpec)
    requires Field(a, spec.field) == Field(b, spec.field)
    ensures Compare(a, b, spec) == 0
  {
    var x := Field(a, spec.field);
    if x.Some? && x.value.Str? {
      StrLessIrreflexive(x.value.s);
    }
  }

  datatype Kind = IntKind | StrKind

  /** The row's sort field holds a value of kind `k`. */
  predicate HasKind(r: Record, field: string, k: Kind)
  {
    field in r && (if k == IntKind then r[field].Int? else r[field].Str?)
  }

  predicate AllOfKind(rows: seq<Record>, field: string, k: Kind)
  {
    forall r :: r in rows ==> HasKind(r, field, k)
  }

  /** On numbers the comparator is the numeric order, reversed for `DESC`. */
  lemma CompareInts(a: Record, b: Record, spec: SortSpec)
    requires HasKind(a, spec.field, IntKind) && HasKind(b, spec.field, IntKind)
    ensures var x, y := a[spec.field].i, b[spec.field].i;
      Compare(a, b, spec) <= 0 <==> (if spec.order == ASC then x <= y else y <= x)
  {
  }

  /** On strings the comparator is the string order, reversed for `DESC`. */
  lemma CompareStrs(a: Record, b: Record, spec: SortSpec)
    requires HasKind(a, spec.field, StrKind) && HasKind(b, spec.field, StrKind)
    ensures var x, y := a[spec.field].s, b[spec.field].s;
      Compare(a, b, spec) <= 0 <==> (if spec.order == ASC then !StrLess(y, x) else !StrLess(x, y))
  {
    StrLessAsymmetric(a[spec.field].s, b[spec.field].s);
  }

  /** On values of one kind, "not after" is transitive. */
  lemma CompareTransitive(a: Record, b: Record, c: Record, spec: SortSpec, k: Kind)
    requires HasKind(a, spec.field, k) && HasKind(b, spec.field, k) && HasKind(c, spec.field, k)
    requires Compare(a, b, spec) <= 0 && Compare(b, c, spec) <= 0
    ensures Compare(a, c, spec) <= 0
  {
    if k == IntKind {
      CompareInts(a, b, spec);
      CompareInts(b, c, spec);
      CompareInts(a, c, spec);
    } else {
      CompareStrs(a, b, spec);
      CompareStrs(b, c, spec);
      CompareStrs(a, c, spec);
      var x, y, z := a[spec.field].s, b[spec.field].s, c[spec.field].s;
      if spec.order == ASC {
        StrNotLessTransitive(x, y, z);
      } else {
        StrNotLessTransitive(z, y, x);
      }
    }
  }

  // ---------------------------------------------------------------------------
  // The sorted order: a permutation, stable, and ordered

  lemma {:induction false} InsertMultiset(sorted: seq<Record>, x: Record, spec: SortSpec)
    ensures multiset(Insert(sorted, x, spec)) == multiset(sorted) + multiset{x}
  {
    if sorted != [] {
      var n := |sorted| - 1;
      assert sorted == sorted[..n] + [sorted[n]];
      if Compare(sorted[n], x, spec) > 0 {
        InsertMultiset(sorted[..n], x, spec);
      }
    }
  }

  /** Sorting rearranges the rows and neither adds nor drops any. */
  lemma {:induction false} SortPermutation(rows: seq<Record>, spec: SortSpec)
    ensures multiset(SortRows(rows, spec)) == multiset(rows)
    ensures |SortRows(rows, spec)| == |rows|
  {
    if rows != [] {
      var n := |rows| - 1;
      assert rows == rows[..n] + [rows[n]];
      SortPermutation(rows[..n], spec);
      InsertMultiset(SortRows(rows[..n], spec), rows[n], spec);
    }
    assert |multiset(SortRows(rows, spec))| == |multiset(rows)|;
  }

  /** The rows whose sort field holds `v`, in their order. */
  function WithKey(rows: seq<Record>, field: string, v: Option<Value>): seq<Record>
  {
    FilterSeq(rows, (r: Record) => Field(r, field) == v)
  }

  lemma {:induction false} InsertWithKey(sorted: seq<Record>, x: Record, spec: SortSpec, v: Option<Value>)
    ensures WithKey(Insert(sorted, x, spec), spec.field, v) == WithKey(sorted, spec.field, v) + WithKey([x], spec.field, v)
  {
    var p := (r: Record) => Field(r, spec.field) == v;
    if sorted == [] {
    } else {
      var n := |sorted| - 1;
      var last := sorted[n];
      assert sorted == sorted[..n] + [last];
      FilterConcat(sorted[..n], [last], p);
      if Compare(last, x, spec) > 0 {
        InsertWithKey(sorted[..n], x, spec, v);
        FilterConcat(Insert(sorted[..n], x, spec), [last], p);
        if Field(last, spec.field) == Field(x, spec.field) {
          CompareEqualKeys(last, x, spec);
        }
      } else {
        FilterConcat(sorted, [x], p);
      }
    }
  }

  /** Stability: the rows sharing any one value of the sort field keep their relative order. */
  lemma {:induction false} SortStable(rows: seq<Record>, spec: SortSpec, v: Option<Value>)
    ensures WithKey(SortRows(rows, spec), spec.field, v) == WithKey(rows, spec.field, v)
  {
    if rows != [] {
      var n := |rows| - 1;
      SortStable(rows[..n], spec, v);
      InsertWithKey(SortRows(rows[..n], spec), rows[n], spec, v);
      assert rows == rows[..n] + [rows[n]];
      FilterConcat(rows[..n], [rows[n]], (r: Record) => Field(r, spec.field) == v);
    }
  }

  /** No row compares greater than a later one. */
  predicate Sorted(rows: seq<Record>, spec: SortSpec)
  {
    forall i, j :: 0 <= i < j < |rows| ==> Compare(rows[i], rows[j], spec) <= 0
  }

  lemma SortedPrefix(sorted: seq<Record>, n: nat, spec: SortSpec, k: Kind)
    requires n <= |sorted|
    requires Sorted(sorted, spec) && AllOfKind(sorted, spec.field, k)
    ensures Sorted(sorted[..n], spec) && AllOfKind(sorted[..n], spec.field, k)
  {
    var init := sorted[..n];
    forall i, j | 0 <= i < j < |init| ensures Compare(init[i], init[j], spec) <= 0 {
      assert init[i] == sorted[i] && init[j] == sorted[j];
    }
    forall r | r in init ensures HasKind(r, spec.field, k) {
      assert r in sorted;
    }
  }

  /** Appending a row that no earlier row compares greater than keeps the order. */
  lemma SortedSnoc(rows: seq<Record>, x: Record, spec: SortSpec)
    requires Sorted(rows, spec)
    requires forall i :: 0 <= i < |rows| ==> Compare(rows[i], x, spec) <= 0
    ensures Sorted(rows + [x], spec)
  {
    var out := rows + [x];
    forall i, j | 0 <= i < j < |out| ensures Compare(out[i], out[j], spec) <= 0 {
      assert out[i] == rows[i];
      if j < |rows| {
        assert out[j] == rows[j];
      }
    }
  }

  lemma {:induction false} InsertSorted(sorted: seq<Record>, x: Record, spec: SortSpec, k: Kind)
    requires Sorted(sorted, spec) && AllOfKind(sorted, spec.field, k) && HasKind(x, spec.field, k)
    ensures Sorted(Insert(sorted, x, spec), spec)
  {
    if sorted != [] {
      var n := |sorted| - 1;
      var last := sorted[n];
      var init := sorted[..n];
      if Compare(last, x, spec) > 0 {
        SortedPrefix(sorted, n, spec, k);
        InsertSorted(init, x, spec, k);
        var a := Insert(init, x, spec);
        InsertMultiset(init, x, spec);
        CompareAntisymmetric(last, x, spec);
        forall i | 0 <= i < |a| ensures Compare(a[i], last, spec) <= 0 {
          assert a[i] in multiset(a);
          if a[i] != x {
            assert a[i] in multiset(init);
            var m :| 0 <= m < |init| && init[m] == a[i];
            assert sorted[m] == a[i];
          }
        }
        SortedSnoc(a, last, spec);
      } else {
        forall i | 0 <= i < |sorted| ensures Compare(sorted[i], x, spec) <= 0 {
          if i < n {
            CompareTransitive(sorted[i], last, x, spec, k);
          }
        }
        SortedSnoc(sorted, x, spec);
      }
    }
  }

  /** When every row has a number, or every row has a string, in the sort field, the result is in order. */
  lemma {:induction false} SortOrdered(rows: seq<Record>, spec: SortSpec, k: Kind)
    requires AllOfKind(rows, spec.field, k)
    ensures Sorted(SortRows(rows, spec), spec)
  {
    if rows != [] {
      var n := |rows| - 1;
      assert AllOfKind(rows[..n], spec.field, k) by {
        forall r | r in rows[..n] ensures HasKind(r, spec.field, k) {
          assert r in rows;
        }
      }
      SortOrdered(rows[..n], spec, k);
      SortPermutation(rows[..n], spec);
      assert AllOfKind(SortRows(rows[..n], spec), spec.field, k) by {
        forall r | r in SortRows(rows[..n], spec) ensures HasKind(r, spec.field, k) {
          assert r in multiset(SortRows(rows[..n], spec));
          assert r in rows[..n];
        }
      }
      InsertSorted(SortRows(rows[..n], spec), rows[n], spec, k);
    }
  }

  lemma SortKeepsKind(rows: seq<Record>, spec: SortSpec, k: Kind)
    requires AllOfKind(rows, spec.field, k)
    ensures AllOfKind(SortRows(rows, spec), spec.field, k)
  {
    var out := SortRows(rows, spec);
    SortPermutation(rows, spec);
    forall r | r in out ensures HasKind(r, spec.field, k) {
      assert r in multiset(out);
      assert r in rows;
    }
  }

  /** Every row holds a number in `field`, ascending for `ASC` and descending for `DESC`. */
  predicate NumbersInOrder(rows: seq<Record>, field: string, order: Order)
  {
    forall i, j :: 0 <= i < j < |rows| ==>
      HasKind(rows[i], field, IntKind) && HasKind(rows[j], field, IntKind) &&
      (if order == ASC then rows[i][field].i <= rows[j][field].i else rows[i][field].i >= rows[j][field].i)
  }

  /** Sorting by a field that holds a number in every row orders the rows by that number. */
  lemma SortedInts(rows: seq<Record>, spec: SortSpec)
    requires AllOfKind(rows, spec.field, IntKind)
    ensures NumbersInOrder(SortRows(rows, spec), spec.field, spec.order)
  {
    var out := SortRows(rows, spec);
    SortKeepsKind(rows, spec, IntKind);
    SortOrdered(rows, spec, IntKind);
    forall i, j | 0 <= i < j < |out|
      ensures HasKind(out[i], spec.field, IntKind) && HasKind(out[j], spec.field, IntKind)
      ensures if spec.order == ASC then out[i][spec.field].i <= out[j][spec.field].i
              else out[i][spec.field].i >= out[j][spec.field].i
    {
      assert out[i] in out && out[j] in out;
      CompareInts(out[i], out[j], spec);
    }
  }

  // ---------------------------------------------------------------------------
  // Sorting in place

  /** One step of the inner loop: a row that compares greater than `x` is passed over. */
  lemma InsertPastGreater(sorted: seq<Record>, j: nat, x: Record, spec: SortSpec)
    requires 0 < j <= |sorted|
    requires Compare(sorted[j - 1], x, spec) > 0
    ensures Insert(sorted[..j], x, spec) + sorted[j..] == Insert(sorted[..j - 1], x, spec) + sorted[j - 1..]
  {
    assert sorted[..j][..j - 1] == sorted[..j - 1];
    assert sorted[j - 1..] == [sorted[j - 1]] + sorted[j..];
  }

  /** `x` stops after the first row from the right that does not compare greater. */
  lemma InsertStops(sorted: seq<Record>, j: nat, x: Record, spec: SortSpec)
    requires j <= |sorted|
    requires j == 0 || Compare(sorted[j - 1], x, spec) <= 0
    ensures Insert(sorted[..j], x, spec) == sorted[..j] + [x]
  {
    if j > 0 {
      assert sorted[..j][..j - 1] == sorted[..j - 1];
    }
  }

  /** Copying slot `j - 1` into slot `j` moves the gap one slot left. */
  lemma ShiftStep<T>(b: seq<T>, j: int, i: int)
    requires 0 < j <= i < |b|
    ensures (b[..j + 1] + b[j..i] + b[i + 1..])[j := b[j - 1]] == b[..j] + b[j - 1..i] + b[i + 1..]
  {
    var u := (b[..j + 1] + b[j..i] + b[i + 1..])[j := b[j - 1]];
    var v := b[..j] + b[j - 1..i] + b[i + 1..];
    assert |u| == |v|;
    forall k | 0 <= k < |u| ensures u[k] == v[k] {
      if k < j {
      } else if k == j {
      } else if k <= i {
        assert u[k] == b[k - 1];
      } else {
        assert u[k] == b[k];
      }
    }
  }

  /**
   * The inner loop of insertion: shifts the rows of `a[..i]` that compare
   * greater than `x`, from the right, one slot right, and returns the slot
   * left free for `x` (which still holds its old row, now also one slot right).
   */
  method ShiftGreater(a: array<Record>, i: int, x: Record, spec: SortSpec) returns (j: int)
    requires 0 <= i < a.Length
    modifies a
    ensures 0 <= j <= i
    ensures a[..] == old(a[..])[..j + 1] + old(a[..])[j..i] + old(a[..])[i + 1..]
    ensures Insert(old(a[..i]), x, spec) == old(a[..i])[..j] + [x] + old(a[..i])[j..]
  {
    ghost var before := a[..];
    ghost var sorted := a[..i];
    j := i;
    assert sorted[..j] == sorted && sorted[j..] == [];
    assert before == before[..j + 1] + before[j..i] + before[i + 1..];
    while j > 0 && Compare(a[j - 1], x, spec) > 0
      invariant 0 <= j <= i
      invariant a[..] == before[..j + 1] + before[j..i] + before[i + 1..]
      invariant Insert(sorted, x, spec) == Insert(sorted[..j], x, spec) + sorted[j..]
    {
      assert a[j - 1] == before[j - 1] == sorted[j - 1];
      InsertPastGreater(sorted, j, x, spec);
      ghost var prev := a[..];
      a[j] := a[j - 1];
      assert a[..] == prev[j := before[j - 1]];
      ShiftStep(before, j, i);
      j := j - 1;
    }
    InsertStops(sorted, j, x, spec);
  }

  /** Sorting one more row of a prefix inserts that row. */
  lemma SortRowsPrefixStep(rows: seq<Record>, i: int, spec: SortSpec)
    requires 0 <= i < |rows|
    ensures SortRows(rows[..i + 1], spec) == Insert(SortRows(rows[..i], spec), rows[i], spec)
  {
    assert rows[..i + 1][..i] == rows[..i] && rows[..i + 1][i] == rows[i];
  }

  /** Inserts `a[i]` into the sorted prefix `a[..i]`. */
  method InsertInPlace(a: array<Record>, i: int, spec: SortSpec)
    requires 0 <= i < a.Length
    modifies a
    ensures a[..i + 1] == Insert(old(a[..i]), old(a[i]), spec)
    ensures a[i + 1..] == old(a[i + 1..])
  {
    ghost var before := a[..];
    var x := a[i];
    var j := ShiftGreater(a, i, x, spec);
    a[j] := x;
    assert a[..] == before[..j] + [x] + before[j..i] + before[i + 1..];
    assert before[..i][..j] == before[..j] && before[..i][j..] == before[j..i];
    assert a[..i + 1] == before[..j] + [x] + before[j..i];
  }

  /** `filtered.sort(compare)`: insertion sort in place. */
  method SortInPlace(a: array<Record>, spec: SortSpec)
    modifies a
    ensures a[..] == SortRows(old(a[..]), spec)
  {
    ghost var rows := a[..];
    var i := 0;
    while i < a.Length
      invariant 0 <= i <= a.Length
      invariant a[..i] == SortRows(rows[..i], spec)
      invariant a[i..] == rows[i..]
    {
      InsertInPlace(a, i, spec);
      SortRowsPrefixStep(rows, i, spec);
      i := i + 1;
    }
    assert rows[..a.Length] == rows;
  }
}
