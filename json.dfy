/**
 * JSON-like JavaScript values: what JSON.parse produces and what the server keeps in
 * configuration objects, token claims and error details. Object properties are kept
 * in insertion order, as Object.entries reports them.
 */
module JsonValue {
  import opened Wrappers
  import Js

  datatype Json =
    | Null
    | Bool(b: bool)
    | Num(n: Js.Num)
    | Str(s: string)
    | Arr(items: seq<Json>)
    | Obj(fields: seq<Field>)

  datatype Field = Field(key: string, value: Json)

  /** JavaScript truthiness of a value. */
  predicate Truthy(j: Json)
  {
    match j
    case Null => false
    case Bool(b) => b
    case Num(n) => n != Js.NaN && n != Js.Finite(0.0)
    case Str(s) => s != ""
    case _ => true
  }

  /** `typeof v === 'object'`: objects, arrays and null. */
  predicate IsObjectType(j: Json)
  {
    j.Null? || j.Arr? || j.Obj?
  }

  function Keys(fs: seq<Field>): seq<string>
  {
    seq(|fs|, i requires 0 <= i < |fs| => fs[i].key)
  }

  /** No key appears twice, as in every JavaScript object. */
  predicate DistinctKeys(fs: seq<Field>)
  {
    forall i, j :: 0 <= i < j < |fs| ==> fs[i].key != fs[j].key
  }

  /** Property lookup; None is `undefined`. */
  function Lookup(fs: seq<Field>, key: string): (r: Option<Json>)
    ensures r.Some? <==> key in Keys(fs)
  {
    if fs == [] then None
    else if fs[0].key == key then assert Keys(fs)[0] == key; Some(fs[0].value)
    else
      assert Keys(fs) == [fs[0].key] + Keys(fs[1..]);
      Lookup(fs[1..], key)
  }

  /** `v.key` for any value: only objects have own properties here. */
  function Get(j: Json, key: string): Option<Json>
  {
    if j.Obj? then Lookup(j.fields, key) else None
  }

  /** A key's first occurrence gives its value. */
  lemma {:induction false} LookupFirst(fs: seq<Field>, j: nat)
    requires j < |fs| && forall i :: 0 <= i < j ==> fs[i].key != fs[j].key
    ensures Lookup(fs, fs[j].key) == Some(fs[j].value)
    decreases j
  {
    if j > 0 {
      assert fs[1..][j - 1] == fs[j];
      LookupFirst(fs[1..], j - 1);
    }
  }

  /**
   * Property assignment `o[key] = v`: an existing key keeps its position and gets the
   * new value; a new key is appended.
   */
  function Assign(fs: seq<Field>, key: string, v: Json): (r: seq<Field>)
    ensures Lookup(r, key) == Some(v)
    ensures forall k :: k != key ==> Lookup(r, k) == Lookup(fs, k)
    ensures DistinctKeys(fs) ==> DistinctKeys(r)
    ensures key in Keys(fs) ==> |r| == |fs|
  {
    if fs == [] then [Field(key, v)]
    else if fs[0].key == key then [Field(key, v)] + fs[1..]
    else
      var rest := Assign(fs[1..], key, v);
      assert Keys(fs) == [fs[0].key] + Keys(fs[1..]);
      if DistinctKeys(fs) then
        DistinctTail(fs);
        ConsKeepsDistinct(fs[0], rest);
        [fs[0]] + rest
      else [fs[0]] + rest
  }

  /** Past its first field, an object's keys stay distinct and never repeat the first key. */
  lemma DistinctTail(fs: seq<Field>)
    requires fs != [] && DistinctKeys(fs)
    ensures DistinctKeys(fs[1..]) && Lookup(fs[1..], fs[0].key).None?
  {
    assert forall j :: 0 <= j < |fs| - 1 ==> Keys(fs[1..])[j] == fs[j + 1].key;
  }

  /** A field whose key the rest lacks keeps the keys distinct. */
  lemma ConsKeepsDistinct(f: Field, rest: seq<Field>)
    requires DistinctKeys(rest) && Lookup(rest, f.key).None?
    ensures DistinctKeys([f] + rest)
  {
    var r := [f] + rest;
    forall j | 0 <= j < |rest| ensures rest[j].key != f.key {
      assert Keys(rest)[j] == rest[j].key;
    }
    forall i, j | 0 <= i < j < |r| ensures r[i].key != r[j].key {
      assert r[j] == rest[j - 1];
      if i > 0 {
        assert r[i] == rest[i - 1];
      }
    }
  }
}
