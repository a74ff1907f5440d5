/**
 JavaScript values as they travel through the workflow documents: the JSON
 values plus `undefined` (an absent property), with JavaScript's truthiness,
 its `||` defaulting and the string conversion a template literal applies.
 */
module JsValue {
  import opened Wrappers

  /**
   A JavaScript value. Numbers are integers: the only numbers the workflow
   core handles are timeouts such as `1.0` and `10.0`, which JavaScript stores
   as the integers 1 and 10.
   */
  datatype Value =
    | Undefined
    | Null
    | Bool(b: bool)
    | Num(n: int)
    | Str(s: string)
    | Arr(items: seq<Value>)
    | Obj(fields: seq<(string, Value)>)

  /** The empty object literal `{}`. */
  const EmptyObject: Value := Obj([])

  /** JavaScript truthiness: `undefined`, `null`, `false`, `0` and `""` are falsy; every array and object is truthy. */
  predicate Truthy(v: Value) {
    match v
    case Undefined => false
    case Null => false
    case Bool(b) => b
    case Num(n) => n != 0
    case Str(s) => s != ""
    case Arr(_) => true
    case Obj(_) => true
  }

  /** `a || b`. */
  function Or(a: Value, b: Value): Value {
    if Truthy(a) then a else b
  }

  /** `a || b` where `a` is an optional string property: an absent or empty string takes the default. */
  function OrString(a: Option<string>, b: string): string {
    if a.Some? && a.value != "" then a.value else b
  }

  predicate IsDigit(c: char) {
    '0' <= c <= '9'
  }

  predicate IsDigits(s: string) {
    forall i :: 0 <= i < |s| ==> IsDigit(s[i])
  }

  function DigitChar(d: nat): char
    requires d < 10
  {
    ('0' as int + d) as char
  }

  /** The decimal text of a natural number, as `${n}` renders it. */
  function NatToString(n: nat): (s: string)
    ensures |s| >= 1 && IsDigits(s)
    ensures s[0] == '0' ==> n == 0
    decreases n
  {
    if n < 10 then [DigitChar(n)]
    else NatToString(n / 10) + [DigitChar(n % 10)]
  }

  /** The number a string of decimal digits denotes. */
  function ParseNat(s: string): nat
    requires IsDigits(s)
    decreases |s|
  {
    if s == [] then 0
    else ParseNat(s[..|s| - 1]) * 10 + (s[|s| - 1] as int - '0' as int)
  }

  /** Reading the decimal text back gives the number: the text identifies the number. */
  lemma {:induction false} ParseNatToString(n: nat)
    ensures ParseNat(NatToString(n)) == n
    decreases n
  {
    if n >= 10 {
      var s := NatToString(n);
      ParseNatToString(n / 10);
      assert s[..|s| - 1] == NatToString(n / 10);
    }
  }

  /** Distinct numbers have distinct decimal texts (so `"edge-" + i` defaults never collide with each other). */
  lemma NatToStringInjective(m: nat, n: nat)
    requires m != n
    ensures NatToString(m) != NatToString(n)
  {
    ParseNatToString(m);
    ParseNatToString(n);
  }

  /** The decimal text of an integer number, with a leading `-` when negative. */
  function IntToString(n: int): string {
    if n < 0 then "-" + NatToString(-n) else NatToString(n)
  }

  /**
   The string a template literal `${v}` produces: `undefined`, `null`,
   `true`/`false`, the decimal number, the string itself, the elements of an
   array joined by commas (with `undefined` and `null` elements left empty),
   and `[object Object]` for an object.
   */
  function Text(v: Value): string
    decreases v, 1, 0
  {
    match v
    case Undefined => "undefined"
    case Null => "null"
    case Bool(b) => if b then "true" else "false"
    case Num(n) => IntToString(n)
    case Str(s) => s
    case Arr(items) => JoinText(v, 0)
    case Obj(_) => "[object Object]"
  }

  /** The comma-joined text of the array elements from index `i` on. */
  function JoinText(v: Value, i: nat): string
    requires v.Arr? && i <= |v.items|
    decreases v, 0, |v.items| - i
  {
    if i == |v.items| then ""
    else
      var e := v.items[i];
      var text := if e.Undefined? || e.Null? then "" else Text(e);
      (if i == 0 then "" else ",") + text + JoinText(v, i + 1)
  }
}
