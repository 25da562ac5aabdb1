/** The pieces of an object-schema validator the input schemas are built
    from: a raw field is missing, holds a value of the expected JSON type, or
    holds something else (including `null`); each field check passes with
    the value it outputs or fails. Lengths are counted in characters. */
module Schema {
  import opened Wrappers

  datatype Raw<T> = Missing | Given(value: T) | WrongType

  datatype Check<T> = Pass(value: T) | Fail

  /** A required string whose length lies in `[min, max]` (no upper bound when `max` is `None`). */
  function BoundedString(f: Raw<string>, min: nat, max: Option<nat>): (r: Check<string>)
    ensures r.Pass? <==> f.Given? && min <= |f.value| && (max.Some? ==> |f.value| <= max.value)
    ensures r.Pass? ==> r.value == f.value
  {
    match f
    case Given(s) => if min <= |s| && (max.None? || |s| <= max.value) then Pass(s) else Fail
    case _ => Fail
  }

  /** An optional field: missing passes as `None`, otherwise the inner check
      decides. No default is applied. */
  function OptionalString(f: Raw<string>, min: nat, max: Option<nat>): (r: Check<Option<string>>)
    ensures f.Missing? ==> r == Pass(None)
    ensures !f.Missing? ==> (r.Pass? <==> BoundedString(f, min, max).Pass?)
    ensures r.Pass? && r.value.Some? ==> f == Given(r.value.value)
  {
    match f
    case Missing => Pass(None)
    case _ =>
      match BoundedString(f, min, max)
      case Pass(s) => Pass(Some(s))
      case Fail => Fail
  }

  /** A string array with a default of `[]` when missing. */
  function ArrayOrEmpty(f: Raw<seq<string>>): (r: Check<seq<string>>)
    ensures f.Missing? ==> r == Pass([])
    ensures f.Given? ==> r == Pass(f.value)
    ensures f.WrongType? ==> r == Fail
  {
    match f
    case Missing => Pass([])
    case Given(a) => Pass(a)
    case WrongType => Fail
  }

  /** An optional string array, without a default. */
  function OptionalArray(f: Raw<seq<string>>): (r: Check<Option<seq<string>>>)
    ensures f.Missing? ==> r == Pass(None)
    ensures f.Given? ==> r == Pass(Some(f.value))
    ensures f.WrongType? ==> r == Fail
  {
    match f
    case Missing => Pass(None)
    case Given(a) => Pass(Some(a))
    case WrongType => Fail
  }

  /** A number in `[min, max]`, optionally required to be an integer. */
  function BoundedNumber(f: Raw<real>, min: real, max: real, integer: bool): (r: Check<real>)
    ensures r.Pass? <==> f.Given? && min <= f.value <= max && (integer ==> f.value.Floor as real == f.value)
    ensures r.Pass? ==> r.value == f.value
  {
    match f
    case Given(x) => if min <= x <= max && (!integer || x.Floor as real == x) then Pass(x) else Fail
    case _ => Fail
  }

  /** The raw field a client sends for an optional value. */
  function OptionalRaw<T>(o: Option<T>): Raw<T> {
    match o
    case None => Missing
    case Some(v) => Given(v)
  }

  /** The name of a failing field, for the list of issues. */
  function IssueIf<T>(c: Check<T>, field: string): (r: seq<string>)
    ensures c.Fail? ==> r == [field]
    ensures c.Pass? ==> r == []
  {
    if c.Fail? then [field] else []
  }
}
