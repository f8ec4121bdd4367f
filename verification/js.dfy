/** The JavaScript values the order core inspects: request bodies, the
    entries of an item list, gateway replies. Only what the core observes is
    modelled: `typeof`, truthiness, property reads and `Number(...)`.
    Numbers are integers; NaN exists only as a result of `Number(...)`. */
module Js {
  import Decimal

  datatype Value =
    | Undefined
    | Null
    | Bool(b: bool)
    | Number(n: int)
    | Str(s: string)
    | Array(elems: seq<Value>)
    | Object(fields: map<string, Value>)

  /** The result of the `typeof` operator. */
  datatype Type = TUndefined | TObject | TBoolean | TNumber | TString

  function TypeOf(v: Value): (t: Type)
    ensures t == TObject <==> v.Null? || v.Array? || v.Object?
    ensures t == TNumber <==> v.Number?
    ensures t == TString <==> v.Str?
    ensures t == TUndefined <==> v.Undefined?
  {
    match v
    case Undefined => TUndefined
    case Null => TObject
    case Array(_) => TObject
    case Object(_) => TObject
    case Bool(_) => TBoolean
    case Number(_) => TNumber
    case Str(_) => TString
  }

  predicate Nullish(v: Value) {
    v.Undefined? || v.Null?
  }

  /** JavaScript truthiness (ToBoolean). */
  predicate Truthy(v: Value) {
    match v
    case Undefined => false
    case Null => false
    case Bool(b) => b
    case Number(n) => n != 0
    case Str(s) => s != ""
    case Array(_) => true
    case Object(_) => true
  }

  /** `v.key` for a non-index key that is not an inherited property name,
      on a value that is neither null nor undefined. */
  function Field(v: Value, key: string): Value
    requires !Nullish(v)
  {
    match v
    case Object(f) => if key in f then f[key] else Undefined
    case _ => Undefined
  }

  /** `v[i]` for a non-negative integer index on a value that is neither
      null nor undefined. */
  function Elem(v: Value, i: nat): Value
    requires !Nullish(v)
  {
    match v
    case Array(es) => if i < |es| then es[i] else Undefined
    case Str(s) => if i < |s| then Str([s[i]]) else Undefined
    case Object(f) =>
      var k := Decimal.IntToString(i);
      if k in f then f[k] else Undefined
    case _ => Undefined
  }

  /** `String(v)`, as used when an array or object is converted to a number. */
  function ToText(v: Value): string
    decreases v
  {
    match v
    case Undefined => "undefined"
    case Null => "null"
    case Bool(b) => if b then "true" else "false"
    case Number(n) => Decimal.IntToString(n)
    case Str(s) => s
    case Array(es) =>
      Join(seq(|es|, i requires 0 <= i < |es| =>
        if Nullish(es[i]) then "" else ToText(es[i])))
    case Object(_) => "[object Object]"
  }

  /** `Array.prototype.join` with the default separator. */
  function Join(parts: seq<string>): string {
    if parts == [] then ""
    else if |parts| == 1 then parts[0]
    else parts[0] + "," + Join(parts[1..])
  }

  /** `Number(v)`. */
  function ToNumber(v: Value): (r: Decimal.Num)
    ensures v.Number? ==> r == Decimal.Int(v.n)
    ensures v.Str? ==> r == Decimal.StringToNumber(v.s)
  {
    match v
    case Undefined => Decimal.NaN
    case Null => Decimal.Int(0)
    case Bool(b) => Decimal.Int(if b then 1 else 0)
    case Number(n) => Decimal.Int(n)
    case Str(s) => Decimal.StringToNumber(s)
    case Array(_) => Decimal.StringToNumber(ToText(v))
    case Object(_) => Decimal.NaN
  }

  /** Length of a string as JavaScript counts it: in UTF-16 code units, so a
      character outside the Basic Multilingual Plane counts twice. */
  function Utf16Length(s: string): (n: nat)
    ensures |s| <= n <= 2 * |s|
    ensures (forall i :: 0 <= i < |s| ==> s[i] as int <= 0xFFFF) ==> n == |s|
  {
    if s == [] then 0
    else (if s[0] as int > 0xFFFF then 2 else 1) + Utf16Length(s[1..])
  }

  /** A single character is one code unit inside the Basic Multilingual
      Plane and a surrogate pair (two units) above it. */
  lemma Utf16LengthChar(c: char)
    ensures Utf16Length([c]) == if c as int > 0xFFFF then 2 else 1
  {
    assert [c][1..] == [];
  }

  /** Code units add up over concatenation, so a string's length is the sum
      of its characters' lengths. */
  lemma {:induction false} Utf16LengthAppend(a: string, b: string)
    ensures Utf16Length(a + b) == Utf16Length(a) + Utf16Length(b)
  {
    if a == [] {
      assert a + b == b;
    } else {
      Utf16LengthAppend(a[1..], b);
      assert (a + b)[0] == a[0];
      assert (a + b)[1..] == a[1..] + b;
    }
  }

  /** A one-element array converts to the number its element converts to,
      so `Number([100]) === 100`. */
  lemma SingletonArrayNumber(n: int)
    ensures ToNumber(Array([Number(n)])) == Decimal.Int(n)
  {
    var parts := seq(1, i requires 0 <= i < 1 => Decimal.IntToString(n));
    assert ToText(Array([Number(n)])) == Join(parts);
    Decimal.IntToStringRoundTrip(n);
  }
}
