/**
 * The JavaScript values the backend's decision logic works on: what
 * `JSON.parse` produces for a request body, plus `undefined`, which a
 * property lookup yields for a missing key. This module fixes the three
 * pieces of JavaScript semantics the handlers rely on: truthiness, the
 * optional-chaining lookup `a?.b?.c`, the `x || y || z` chain, and the
 * `Number(...)` coercion.
 */
module JsValue {

  datatype Value =
    | Undefined
    | Null
    | Bool(b: bool)
    | Num(n: real)
    | Str(s: string)
    | Arr(items: seq<Value>)
    | Obj(fields: map<string, Value>)

  /** JavaScript truthiness: `undefined`, `null`, `false`, `0` and `""` are falsy. */
  predicate Truthy(v: Value) {
    match v
    case Undefined => false
    case Null => false
    case Bool(b) => b
    case Num(n) => n != 0.0
    case Str(s) => s != ""
    case Arr(_) => true
    case Obj(_) => true
  }

  /** `v?.key`: an own field of an object, `undefined` otherwise. None of the
      keys the handlers read is a property of strings, numbers or arrays. */
  function Get(v: Value, key: string): Value {
    match v
    case Obj(m) => if key in m then m[key] else Undefined
    case _ => Undefined
  }

  /** `v?.p0?.p1?...`: follows the path, short-circuiting to `undefined`. */
  function Lookup(v: Value, path: seq<string>): (r: Value)
    ensures path == [] ==> r == v
    ensures |path| == 1 ==> r == Get(v, path[0])
    ensures !v.Obj? && path != [] ==> r == Undefined
    decreases |path|
  {
    if path == [] then v else Lookup(Get(v, path[0]), path[1..])
  }

  /** `a?.p?.q` is `(a?.p)?.q`: a lookup path splits at any point. */
  lemma {:induction false} LookupAppend(v: Value, p: seq<string>, q: seq<string>)
    ensures Lookup(v, p + q) == Lookup(Lookup(v, p), q)
    decreases |p|
  {
    if p == [] {
      assert p + q == q;
    } else {
      assert (p + q)[0] == p[0] && (p + q)[1..] == p[1..] + q;
      LookupAppend(Get(v, p[0]), p[1..], q);
    }
  }

  /** Probes each candidate path of a priority list against the same value. */
  function Candidates(v: Value, paths: seq<seq<string>>): (cs: seq<Value>)
    ensures |cs| == |paths|
    ensures forall i :: 0 <= i < |paths| ==> cs[i] == Lookup(v, paths[i])
  {
    seq(|paths|, i requires 0 <= i < |paths| => Lookup(v, paths[i]))
  }

  /**
   * `c0 || c1 || ... || cn`: the first truthy operand, or the last operand
   * when none is truthy.
   */
  function OrChain(cs: seq<Value>): (r: Value)
    requires |cs| > 0
    ensures r in cs
    ensures forall i :: 0 <= i < |cs| && Truthy(cs[i]) && (forall j :: 0 <= j < i ==> !Truthy(cs[j]))
                        ==> r == cs[i]
    ensures (forall i :: 0 <= i < |cs| ==> !Truthy(cs[i])) ==> r == cs[|cs| - 1]
    ensures Truthy(r) <==> exists i :: 0 <= i < |cs| && Truthy(cs[i])
    decreases |cs|
  {
    if |cs| == 1 || Truthy(cs[0]) then cs[0] else OrChain(cs[1..])
  }

  /** The result of JavaScript's `Number(...)`; only `Finite` passes `Number.isFinite`. */
  datatype Numeric = Finite(r: real) | Infinity(negative: bool) | NaN

  /** Truthiness of a number: `0` and `NaN` are falsy, infinities are truthy. */
  predicate NumTruthy(x: Numeric) {
    match x
    case Finite(r) => r != 0.0
    case Infinity(_) => true
    case NaN => false
  }

  /**
   * Reads a trimmed, non-empty string as a StrNumericLiteral of ECMAScript
   * (decimal with sign and exponent, `Infinity`, `0x`/`0o`/`0b` forms), or
   * gives NaN. Its grammar and IEEE rounding are not part of this model.
   */
  type LiteralReader = string -> Numeric

  /** The white space and line terminators `Number(string)` trims. */
  predicate IsJsSpace(c: char) {
    var n := c as int;
    n == 0x09 || n == 0x0A || n == 0x0B || n == 0x0C || n == 0x0D || n == 0x20 ||
    n == 0xA0 || n == 0x1680 || (0x2000 <= n <= 0x200A) || n == 0x2028 || n == 0x2029 ||
    n == 0x202F || n == 0x205F || n == 0x3000 || n == 0xFEFF
  }

  function TrimStart(s: string): (r: string)
    ensures |r| <= |s| && r == s[|s| - |r|..]
    ensures forall k :: 0 <= k < |s| - |r| ==> IsJsSpace(s[k])
    ensures r != [] ==> !IsJsSpace(r[0])
    decreases |s|
  {
    if s != [] && IsJsSpace(s[0]) then TrimStart(s[1..]) else s
  }

  function TrimEnd(s: string): (r: string)
    ensures |r| <= |s| && r == s[..|r|]
    ensures forall k :: |r| <= k < |s| ==> IsJsSpace(s[k])
    ensures r != [] ==> !IsJsSpace(r[|r| - 1])
    decreases |s|
  {
    if s != [] && IsJsSpace(s[|s| - 1]) then TrimEnd(s[..|s| - 1]) else s
  }

  /** `Number(s)` for a string: blank text is `0`, the rest goes to the literal reader. */
  function StringToNumber(s: string, lit: LiteralReader): (x: Numeric)
    ensures (forall k :: 0 <= k < |s| ==> IsJsSpace(s[k])) ==> x == Finite(0.0)
  {
    var t := TrimEnd(TrimStart(s));
    if t == "" then Finite(0.0) else lit(t)
  }

  /**
   * `Number(v)` for a JSON value. Objects become "[object Object]" and so
   * NaN; an array goes through its comma-joined text, so two or more
   * elements always give NaN (no numeric literal contains a comma), none
   * gives 0 and one behaves like its element's text.
   */
  function ToNumber(v: Value, lit: LiteralReader): (x: Numeric)
    ensures v == Undefined || v.Obj? ==> x == NaN
    ensures v == Null || v == Bool(false) ==> x == Finite(0.0)
    ensures v.Num? ==> x == Finite(v.n)
    ensures v.Str? ==> x == StringToNumber(v.s, lit)
    ensures v.Arr? && |v.items| > 1 ==> x == NaN
    ensures v.Arr? && |v.items| == 1 && (v.items[0].Num? || v.items[0].Str? || v.items[0].Arr?) ==>
              x == ToNumber(v.items[0], lit)
    decreases v
  {
    match v
    case Undefined => NaN
    case Null => Finite(0.0)
    case Bool(b) => Finite(if b then 1.0 else 0.0)
    case Num(n) => Finite(n)
    case Str(s) => StringToNumber(s, lit)
    case Obj(_) => NaN
    case Arr(xs) =>
      if |xs| == 0 then Finite(0.0)
      else if |xs| > 1 then NaN
      else match xs[0]
        case Undefined => Finite(0.0)
        case Null => Finite(0.0)
        case Bool(_) => NaN
        case Obj(_) => NaN
        case _ => ToNumber(xs[0], lit)
  }
}
