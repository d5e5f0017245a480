/** The loosely typed values the bug tracker reads out of request bodies and
    stores in its records, reduced to what the code ever asks of them: whether
    the key is present, whether the value is a string, whether it is truthy,
    and its `length` property. */
module JsValues {
  import opened Wrappers
  import opened JsStrings

  /** `Missing` is an absent key (`undefined`). `Str` is a string. `Other` is
      any other JSON value: `null`, `false` and `0` are `Other(false, None)`, an
      array of n elements is `Other(true, Some(n))`, a non-zero number, `true`
      or an object is `Other(true, None)`. */
  datatype Value = Missing | Str(s: string) | Other(truthy: bool, length: Option<nat>)

  /** JavaScript truthiness: `undefined`, `''`, `null`, `false`, `0` are falsy. */
  predicate Truthy(v: Value) {
    match v
    case Missing => false
    case Str(s) => |s| > 0
    case Other(t, _) => t
  }

  /** The `length` property of a value, `None` when it is `undefined`.
      Strings count UTF-16 code units. */
  function Length(v: Value): Option<nat>
  {
    match v
    case Missing => None
    case Str(s) => Some(Utf16Length(s))
    case Other(_, n) => n
  }

  /** `v || fallback` for a non-empty string `fallback`. */
  function OrDefault(v: Value, fallback: string): (r: Value)
    requires |fallback| > 0
    ensures Truthy(r)
    ensures Truthy(v) ==> r == v
    ensures !Truthy(v) ==> r == Str(fallback)
  {
    if Truthy(v) then v else Str(fallback)
  }

  /** A string holding at least one non-whitespace character. */
  predicate HasVisibleText(v: Value) {
    v.Str? && !AllWhitespace(v.s)
  }

  /** What JavaScript throws when a method is called on a value lacking it. */
  datatype JsError = TypeError

  /** The fields of a request body or of a `create`/`update` argument that the
      tracker reads; any other key of the body is ignored by the model. */
  datatype BugData = BugData(title: Value, description: Value, status: Value, priority: Value)
}
