/** The JavaScript values that the content extractor reads from the
    portal's API responses, with the few engine rules it relies on:
    truthiness, `typeof x === 'object'`, property access (which throws on
    null and undefined), `Object.entries`, and conversion to a string in a
    template literal. Numbers are integers here. */
module Js {
  import opened Strs
  import opened Wrappers

  datatype Value =
    | Undefined
    | Null
    | Bool(b: bool)
    | Num(n: int)
    | Str(s: string)
    | Arr(items: seq<Value>)
    | Obj(fields: seq<(string, Value)>)

  /** JavaScript truthiness (NaN is not modelled). */
  predicate Truthy(v: Value)
  {
    match v
    case Undefined => false
    case Null => false
    case Bool(b) => b
    case Num(n) => n != 0
    case Str(s) => s != ""
    case Arr(_) => true
    case Obj(_) => true
  }

  /** `v && typeof v === 'object'`: arrays and plain objects. */
  predicate IsObject(v: Value)
  {
    v.Arr? || v.Obj?
  }

  /** The value of the first field named `key`, or undefined. */
  function Lookup(fields: seq<(string, Value)>, key: string): (r: Value)
    ensures r != Undefined ==> exists i :: 0 <= i < |fields| && fields[i] == (key, r)
    ensures (forall i :: 0 <= i < |fields| ==> fields[i].0 != key) ==> r == Undefined
  {
    if fields == [] then Undefined
    else if fields[0].0 == key then fields[0].1
    else Lookup(fields[1..], key)
  }

  /** `v[key]` on a value that is not null or undefined: an object's field,
      an array's element at a decimal index key, or undefined. */
  function Get(v: Value, key: string): Value
  {
    match v
    case Obj(fields) => Lookup(fields, key)
    case Arr(items) => ArrayIndex(items, key)
    case _ => Undefined
  }

  /** An array element named by a canonical decimal key. */
  function ArrayIndex(items: seq<Value>, key: string): Value
  {
    ArrayIndexFrom(items, key, 0)
  }

  function ArrayIndexFrom(items: seq<Value>, key: string, from: nat): Value
    decreases |items| - from
  {
    if from >= |items| then Undefined
    else if NatToString(from) == key then items[from]
    else ArrayIndexFrom(items, key, from + 1)
  }

  /** `v.key`, which throws a TypeError when `v` is null or undefined. */
  function Prop(v: Value, key: string): (r: Option<Value>)
    ensures r.None? <==> v.Null? || v.Undefined?
  {
    if v.Null? || v.Undefined? then None else Some(Get(v, key))
  }

  /** `v?.key`: undefined when `v` is null or undefined. */
  function OptProp(v: Value, key: string): Value
  {
    if v.Null? || v.Undefined? then Undefined else Get(v, key)
  }

  /** `a || b`. */
  function Or(a: Value, b: Value): (r: Value)
    ensures Truthy(a) ==> r == a
    ensures !Truthy(a) ==> r == b
  {
    if Truthy(a) then a else b
  }

  /** `Object.entries(v)` for a value that is not null or undefined: an
      object's fields in order, an array's or a string's elements under
      their index keys, nothing for numbers and booleans. */
  function Entries(v: Value): (r: seq<(string, Value)>)
    requires !v.Null? && !v.Undefined?
  {
    match v
    case Obj(fields) => fields
    case Arr(items) => Indexed(items, 0)
    case Str(s) => Indexed(Chars(s), 0)
    case _ => []
  }

  /** The one-character strings of a string. */
  function Chars(s: string): (r: seq<Value>)
    ensures |r| == |s|
  {
    if s == [] then [] else [Str([s[0]])] + Chars(s[1..])
  }

  /** The elements under their index keys, counting from `from`. */
  function Indexed(items: seq<Value>, from: nat): (r: seq<(string, Value)>)
    ensures |r| == |items|
    ensures forall i :: 0 <= i < |r| ==> r[i] == (NatToString(from + i), items[i])
  {
    if items == [] then [] else [(NatToString(from), items[0])] + Indexed(items[1..], from + 1)
  }

  /** `${v}` in a template literal, and `String(v)`; an array prints its
      elements joined by commas, null and undefined elements as nothing. */
  function ToStr(v: Value): string
  {
    match v
    case Undefined => "undefined"
    case Null => "null"
    case Bool(b) => if b then "true" else "false"
    case Num(n) => IntToString(n)
    case Str(s) => s
    case Arr(items) =>
      Join(seq(|items|, i requires 0 <= i < |items| =>
        if items[i].Null? || items[i].Undefined? then "" else ToStr(items[i])), ",")
    case Obj(_) => "[object Object]"
  }
}
