/**
 * Python values as they appear in the complaint dictionaries and database
 * rows the core reads, with Python's truthiness, `dict.get` and `str()`.
 */
module Values {
  import opened Text
  import opened Dates

  datatype Value =
    | NoneValue
    | Str(text: string)
    | Int(num: int)
    | DateValue(date: Date)
    | DateTimeValue(date: Date, hour: nat, minute: nat, second: nat)

  /** Python's `bool(v)`: None, "" and 0 are false; date objects are always true. */
  predicate Truthy(v: Value) {
    match v
    case NoneValue => false
    case Str(t) => t != ""
    case Int(n) => n != 0
    case DateValue(_) => true
    case DateTimeValue(_, _, _, _) => true
  }

  /** Python's `d.get(k, default)`. */
  function Get(d: map<string, Value>, k: string, default: Value): Value {
    if k in d then d[k] else default
  }

  /** Python's `str(v)`; a datetime prints without microseconds or time zone. */
  function StrOf(v: Value): string {
    match v
    case NoneValue => "None"
    case Str(t) => t
    case Int(n) => Decimal(n)
    case DateValue(d) => FormatYmd(d)
    case DateTimeValue(d, h, m, s) =>
      FormatYmd(d) + " " + TwoDigits(h) + ":" + TwoDigits(m) + ":" + TwoDigits(s)
  }
}
