/**
 * Python values as they appear in a loaded YAML configuration (dictionary
 * keys are strings), with the parts of Python's semantics the validators
 * depend on: truthiness, ordering comparisons (which raise `TypeError`
 * between unrelated types) and `dict.get` with a default.
 */
module PyValue {
  import opened Wrappers

  /** The built-in exceptions the modelled code can raise. */
  datatype PyError = TypeError | IndexError | ZeroDivisionError | ValueError | AttributeError

  datatype Value =
    | NoneValue
    | Bool(b: bool)
    | Int(i: int)
    | Real(r: real)
    | Str(s: string)
    | List(items: seq<Value>)
    | Dict(entries: map<string, Value>)

  /** `bool`, `int` and `float` take part in numeric comparisons (`True == 1`). */
  predicate IsNumber(v: Value)
  {
    v.Bool? || v.Int? || v.Real?
  }

  function AsReal(v: Value): real
    requires IsNumber(v)
  {
    match v
    case Bool(b) => if b then 1.0 else 0.0
    case Int(i) => i as real
    case Real(r) => r
  }

  /** Python's `bool(v)`. */
  predicate Truthy(v: Value)
  {
    match v
    case NoneValue => false
    case Bool(b) => b
    case Int(i) => i != 0
    case Real(r) => r != 0.0
    case Str(s) => s != []
    case List(items) => items != []
    case Dict(entries) => entries != map[]
  }

  /** Code-point lexicographic order of Python strings. */
  predicate StrLess(a: string, b: string)
  {
    if a == [] then b != []
    else if b == [] then false
    else if a[0] != b[0] then a[0] < b[0]
    else StrLess(a[1..], b[1..])
  }

  /** Python's `a < b`; numbers with numbers and strings with strings, else `TypeError`. */
  function Less(a: Value, b: Value): (r: Result<bool, PyError>)
    ensures r.Success? <==> (IsNumber(a) && IsNumber(b)) || (a.Str? && b.Str?)
    ensures IsNumber(a) && IsNumber(b) ==> r == Success(AsReal(a) < AsReal(b))
  {
    if IsNumber(a) && IsNumber(b) then Success(AsReal(a) < AsReal(b))
    else if a.Str? && b.Str? then Success(StrLess(a.s, b.s))
    else Failure(TypeError)
  }

  /** Python's `a <= b`. */
  function LessEq(a: Value, b: Value): (r: Result<bool, PyError>)
    ensures r.Success? <==> (IsNumber(a) && IsNumber(b)) || (a.Str? && b.Str?)
    ensures IsNumber(a) && IsNumber(b) ==> r == Success(AsReal(a) <= AsReal(b))
  {
    if IsNumber(a) && IsNumber(b) then Success(AsReal(a) <= AsReal(b))
    else if a.Str? && b.Str? then Success(a.s == b.s || StrLess(a.s, b.s))
    else Failure(TypeError)
  }

  /** `int` and `bool` are the values `range` accepts. */
  predicate IsInteger(v: Value)
  {
    v.Int? || v.Bool?
  }

  function AsInt(v: Value): int
    requires IsInteger(v)
  {
    if v.Int? then v.i else if v.b then 1 else 0
  }

  /** Python's `v == k` for an integer constant `k` (`1.0 == 1` and `True == 1` hold). */
  predicate NumEquals(v: Value, k: int)
  {
    IsNumber(v) && AsReal(v) == k as real
  }

  /** Python's true division `a / b`: numbers only, and never by zero. */
  function Divide(a: Value, b: Value): (r: Result<Value, PyError>)
    ensures r.Success? <==> IsNumber(a) && IsNumber(b) && AsReal(b) != 0.0
    ensures r.Success? ==> r.value == Real(AsReal(a) / AsReal(b))
    ensures r.Failure? && IsNumber(a) && IsNumber(b) ==> r.error == ZeroDivisionError
    ensures r.Failure? && !(IsNumber(a) && IsNumber(b)) ==> r.error == TypeError
  {
    if !IsNumber(a) || !IsNumber(b) then Failure(TypeError)
    else if AsReal(b) == 0.0 then Failure(ZeroDivisionError)
    else Success(Real(AsReal(a) / AsReal(b)))
  }

  /** Python's `d.get(key, default)`. */
  function Get(d: map<string, Value>, key: string, default: Value): Value
  {
    if key in d then d[key] else default
  }

  /** Python's `s[i]`: negative indices count from the end, others raise `IndexError`. */
  function At<T>(s: seq<T>, i: int): (r: Result<T, PyError>)
    ensures r.Success? <==> -|s| <= i < |s|
    ensures 0 <= i < |s| ==> r == Success(s[i])
    ensures -|s| <= i < 0 ==> r == Success(s[|s| + i])
    ensures r.Failure? ==> r.error == IndexError
  {
    if 0 <= i < |s| then Success(s[i])
    else if -|s| <= i < 0 then Success(s[|s| + i])
    else Failure(IndexError)
  }
}
