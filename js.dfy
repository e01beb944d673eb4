/** The JavaScript semantics the checklist code leans on: a JSON-decoded
    value, the `?.` property read that yields `undefined`, truthiness as
    used by `||`, `Boolean(x)` and `!x`, and the `String(x)` conversion. */
module Js {

  /** A value produced by `JSON.parse`. Numbers are integers here. An object
      is a map from keys to values: `JSON.parse` keeps the last of repeated
      keys, so nothing is lost by the map. */
  datatype Value =
    | Null
    | Bool(b: bool)
    | Num(n: int)
    | Str(s: string)
    | Arr(elems: seq<Value>)
    | Obj(fields: map<string, Value>)

  /** The result of reading a property: `undefined` or a value. */
  datatype Prop = Undefined | Defined(v: Value)

  /** `x?.key` for a JSON value: only an object has own data properties;
      `null` short-circuits to `undefined`, and numbers, strings, booleans
      and arrays have no property of the names read by the checklist code. */
  function Get(x: Value, key: string): Prop
  {
    if x.Obj? && key in x.fields then Defined(x.fields[key]) else Undefined
  }

  /** JavaScript truthiness: `null`, `false`, `0` and `""` are falsy;
      every array and every object is truthy, even an empty one. */
  predicate Truthy(x: Value)
  {
    match x
    case Null => false
    case Bool(b) => b
    case Num(n) => n != 0
    case Str(s) => s != ""
    case Arr(_) => true
    case Obj(_) => true
  }

  /** Truthiness of a property read; `undefined` is falsy. This is `Boolean(p)`. */
  predicate IsTruthy(p: Prop)
  {
    p.Defined? && Truthy(p.v)
  }

  /** `p || fallback`. */
  function OrElse(p: Prop, fallback: Value): Value
  {
    if IsTruthy(p) then p.v else fallback
  }

  /** The decimal digits of `n`. */
  function NatToString(n: nat): (s: string)
    ensures |s| >= 1
    decreases n
  {
    var d := [('0' as int + n % 10) as char];
    if n < 10 then d else NatToString(n / 10) + d
  }

  /** `String(n)` for an integer. */
  function IntToString(n: int): (s: string)
    ensures s != ""
  {
    if n < 0 then "-" + NatToString(-n) else NatToString(n)
  }

  /** `parts.join(sep)`. */
  function Join(parts: seq<string>, sep: string): string
  {
    if parts == [] then ""
    else if |parts| == 1 then parts[0]
    else parts[0] + sep + Join(parts[1..], sep)
  }

  /** `String(x)` throws a TypeError on an object that has its own
      "toString" key: that key's value is not callable (nothing `JSON.parse`
      gives is), so the conversion falls back to the inherited `valueOf`,
      which returns the object itself rather than a primitive. An array
      converts through `join(",")`, which converts each element, so it
      throws when one of its elements does. */
  predicate ToStrThrows(x: Value)
    decreases x
  {
    match x
    case Obj(fields) => "toString" in fields
    case Arr(elems) => exists i :: 0 <= i < |elems| && ToStrThrows(elems[i])
    case _ => false
  }

  /** `String(x)` where it does not throw. An array converts through
      `join(",")`, in which `null` elements become the empty string; any
      other object becomes "[object Object]". */
  function ToStr(x: Value): (s: string)
    requires !ToStrThrows(x)
    ensures x.Str? ==> s == x.s
    ensures x.Num? || x.Bool? || x.Null? || x.Obj? ==> s != ""
    decreases x
  {
    match x
    case Null => "null"
    case Bool(b) => if b then "true" else "false"
    case Num(n) => IntToString(n)
    case Str(s) => s
    case Arr(elems) =>
      Join(seq(|elems|, i requires 0 <= i < |elems| => if elems[i].Null? then "" else ToStr(elems[i])), ",")
    case Obj(_) => "[object Object]"
  }

  /** A title or text object with its own "toString" key, alone or inside an
      array, makes `String` throw; one without converts. */
  lemma ToStrThrowsExamples()
    ensures ToStrThrows(Obj(map["toString" := Num(0)]))
    ensures ToStrThrows(Arr([Str("a"), Obj(map["toString" := Str("")])]))
    ensures !ToStrThrows(Obj(map["valueOf" := Num(0)]))
    ensures ToStr(Obj(map["valueOf" := Num(0)])) == "[object Object]"
    ensures ToStr(Arr([Num(1), Null, Str("b")])) == "1,,b"
  {
    var a := Arr([Str("a"), Obj(map["toString" := Str("")])]);
    assert ToStrThrows(a.elems[1]);
    var b := [Num(1), Null, Str("b")];
    assert !ToStrThrows(b[0]) && !ToStrThrows(b[1]) && !ToStrThrows(b[2]);
    assert ToStr(Num(1)) == "1";
    var parts := seq(|b|, i requires 0 <= i < |b| => if b[i].Null? then "" else ToStr(b[i]));
    assert parts == ["1", "", "b"];
    assert Join(parts, ",") == "1" + "," + Join(["", "b"], ",");
    assert Join(["", "b"], ",") == "" + "," + Join(["b"], ",");
  }
}
