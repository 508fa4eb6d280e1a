/**
 * The parts of JavaScript value semantics that the web views rely on. A
 * property read gives an Option<Value>: None is `undefined`, the value of a
 * property the object does not have.
 */
module Js {
  import opened Wrappers
  import opened Json
  import opened Text

  /** Values compared by content; arrays and objects are compared by identity. */
  predicate IsScalar(v: Value) {
    !v.List? && !v.Obj?
  }

  /**
   * `a === b`. undefined equals only undefined and null only null. Arrays and
   * objects read from two different records are two different objects, so
   * they are never equal.
   */
  predicate StrictEq(a: Option<Value>, b: Option<Value>) {
    match (a, b)
    case (None, None) => true
    case (Some(x), Some(y)) => IsScalar(x) && x == y
    case _ => false
  }

  /** JavaScript truthiness: undefined, null, "", 0 and false are falsy; every array and object is truthy. */
  predicate Truthy(v: Option<Value>) {
    match v
    case None => false
    case Some(Null) => false
    case Some(Str(s)) => s != ""
    case Some(Bool(b)) => b
    case Some(Int(n)) => n != 0
    case Some(_) => true
  }

  /** `v || null`. */
  function OrNull(v: Option<Value>): Value {
    if Truthy(v) then v.value else Null
  }

  /** `v ?? d`: the default only for undefined and null. */
  function Coalesce(v: Option<Value>, d: Value): Value {
    match v
    case None => d
    case Some(Null) => d
    case Some(x) => x
  }

  /** String(v): the text a value converts to. An array converts as its elements joined with ','. */
  function ToText(v: Value): string
    decreases v
  {
    match v
    case Null => "null"
    case Str(s) => s
    case Bool(b) => if b then "true" else "false"
    case Int(n) => IntToText(n)
    case List(items) =>
      Join(seq(|items|, i requires 0 <= i < |items| => if items[i] == Null then "" else ToText(items[i])), ",")
    case Obj(_) => "[object Object]"
  }

  /** The text Array.prototype.join writes for one element: undefined and null give "". */
  function ElementText(v: Option<Value>): string {
    match v
    case None => ""
    case Some(Null) => ""
    case Some(x) => ToText(x)
  }

  /** `xs.join(sep)`. */
  function JoinElements(xs: seq<Option<Value>>, sep: string): string {
    Join(seq(|xs|, i requires 0 <= i < |xs| => ElementText(xs[i])), sep)
  }

  /** String(v) of a value that may be undefined. */
  function ArgText(v: Option<Value>): string {
    if v.None? then "undefined" else ToText(v.value)
  }

  /** Array.prototype.includes: SameValueZero, which on these values is `===`. */
  predicate ArrayIncludes(items: seq<Value>, x: Option<Value>) {
    exists i :: 0 <= i < |items| && StrictEq(Some(items[i]), x)
  }

  /** `t` occurs in `s` as a contiguous piece. */
  predicate IsSubstring(t: string, s: string)
    decreases |s|
  {
    (|t| <= |s| && s[..|t|] == t) || (|s| > 0 && IsSubstring(t, s[1..]))
  }

  /**
   * `recv.includes(arg)`: Array.prototype.includes on an array,
   * String.prototype.includes (on the argument's text) on a string. undefined,
   * null, numbers, Booleans and plain objects have no `includes` method, so the
   * call throws TypeError.
   */
  function Includes(recv: Option<Value>, arg: Option<Value>): Result<bool> {
    match recv
    case Some(List(items)) => Ok(ArrayIncludes(items, arg))
    case Some(Str(s)) => Ok(IsSubstring(ArgText(arg), s))
    case _ => Err(TypeError("includes is not a function"))
  }

  /** `===` is symmetric and transitive; it is reflexive exactly on undefined and scalars. */
  lemma StrictEqLaws(a: Option<Value>, b: Option<Value>, c: Option<Value>)
    ensures StrictEq(a, b) ==> StrictEq(b, a)
    ensures StrictEq(a, b) && StrictEq(b, c) ==> StrictEq(a, c)
    ensures StrictEq(a, a) <==> a.None? || IsScalar(a.value)
  {
  }
}
