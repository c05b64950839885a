/**
 * The dynamically typed values held by records and by the `search` object of
 * the query options, as a closed variant: a string, an integer-valued number,
 * or `null`. (A missing property, JavaScript's `undefined`, is `None` of an
 * `Option<Value>` where it can occur.)
 */
module Values {
  import opened Wrappers
  import opened Text

  datatype Value = Str(s: string) | Int(i: int) | Null

  /**
   * `String(value)`; for a string or a number it is `value.toString()`, which is
   * what the callers use after ruling out `null`.
   */
  function ToString(v: Value): (r: string)
    ensures v.Str? ==> r == v.s
    ensures v.Int? ==> r == IntToString(v.i)
    ensures v.Null? ==> r == "null"
  {
    match v
    case Str(s) => s
    case Int(i) => IntToString(i)
    case Null => "null"
  }

  /** A data row: field name to value. */
  type Record = map<string, Value>

  /** `item[key]`: `None` when the row has no such field. */
  function Field(r: Record, key: string): (v: Option<Value>)
    ensures v.Some? <==> key in r
    ensures v.Some? ==> v.value == r[key]
  {
    if key in r then Some(r[key]) else None
  }
}
