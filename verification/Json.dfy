/** JSON values as the host language holds them, dictionary operations, and what a value means
    once the order of object members is forgotten. */
module Json {
  import opened Wrappers
  import opened Text

  datatype Json =
    | Null
    | Bool(b: bool)
    | Int(n: int)
    | Float(repr: string, negativeZero: bool)
    | Str(s: string)
    | Arr(items: seq<Json>)
    | Obj(members: Dict)

  datatype Member = Member(key: string, value: Json)

  /** A dictionary in insertion order. A dictionary holds a key once; a list that repeats one
      reads as its first occurrence in every operation below. */
  type Dict = seq<Member>

  // ---------------------------------------------------------------- dictionary operations

  /** `d.get(key)`. */
  function Get(d: Dict, key: string): Option<Json> {
    if d == [] then None else if d[0].key == key then Some(d[0].value) else Get(d[1..], key)
  }

  /** `key in d`. */
  predicate Has(d: Dict, key: string) {
    Get(d, key).Some?
  }

  /** The object at a key, when there is one. */
  function ObjectAt(d: Dict, key: string): Option<Dict> {
    match Get(d, key)
    case Some(Obj(members)) => Some(members)
    case _ => None
  }

  /** `d[key] = value`: in place when the key is there, else at the end. */
  function Put(d: Dict, key: string, value: Json): Dict {
    if d == [] then [Member(key, value)]
    else if d[0].key == key then [Member(key, value)] + d[1..]
    else [d[0]] + Put(d[1..], key, value)
  }

  /** `d` without the keys in `keys`. */
  function Without(d: Dict, keys: set<string>): Dict {
    if d == [] then []
    else if d[0].key in keys then Without(d[1..], keys)
    else [d[0]] + Without(d[1..], keys)
  }

  /** `d.pop(key, None)`. */
  function Pop(d: Dict, key: string): Dict {
    Without(d, {key})
  }

  /** `d.setdefault(key, value)`. */
  function SetDefault(d: Dict, key: string, value: Json): Dict {
    if Has(d, key) then d else Put(d, key, value)
  }

  lemma {:induction false} GetPut(d: Dict, key: string, value: Json, other: string)
    ensures Get(Put(d, key, value), other) == if other == key then Some(value) else Get(d, other)
  {
    if d != [] && d[0].key != key {
      GetPut(d[1..], key, value, other);
    }
  }

  lemma {:induction false} GetWithout(d: Dict, keys: set<string>, other: string)
    ensures Get(Without(d, keys), other) == if other in keys then None else Get(d, other)
  {
    if d != [] {
      GetWithout(d[1..], keys, other);
    }
  }

  /** Writing a field that is dropped later leaves no trace. */
  lemma {:induction false} WithoutPut(d: Dict, keys: set<string>, key: string, value: Json)
    ensures key in keys ==> Without(Put(d, key, value), keys) == Without(d, keys)
    ensures key !in keys ==> Without(Put(d, key, value), keys) == Put(Without(d, keys), key, value)
  {
    if d != [] {
      if d[0].key != key {
        WithoutPut(d[1..], keys, key, value);
      } else if key !in keys {
        assert Without(Put(d, key, value), keys) == [Member(key, value)] + Without(d[1..], keys);
      }
    }
  }

  lemma {:induction false} WithoutWithout(d: Dict, few: set<string>, many: set<string>)
    requires few <= many
    ensures Without(Without(d, few), many) == Without(d, many)
  {
    if d != [] {
      WithoutWithout(d[1..], few, many);
    }
  }

  lemma {:induction false} PutPresent(d: Dict, key: string, value: Json, again: Json)
    ensures Put(Put(d, key, value), key, again) == Put(d, key, again)
    ensures Get(d, key) == Some(value) ==> Put(d, key, value) == d
  {
    if d != [] {
      if d[0].key == key {
        assert d == [d[0]] + d[1..];
      } else {
        PutPresent(d[1..], key, value, again);
        assert d == [d[0]] + d[1..];
      }
    }
  }

  lemma {:induction false} WithoutAbsent(d: Dict, keys: set<string>)
    requires forall k :: k in keys ==> Get(d, k).None?
    ensures Without(d, keys) == d
  {
    if d != [] {
      assert d[0].key !in keys;
      forall k | k in keys ensures Get(d[1..], k).None? {
        assert Get(d, k) == Get(d[1..], k);
      }
      WithoutAbsent(d[1..], keys);
      assert d == [d[0]] + d[1..];
    }
  }

  lemma {:induction false} GetConcat(a: Dict, b: Dict, key: string)
    ensures Get(a + b, key) == if Has(a, key) then Get(a, key) else Get(b, key)
  {
    if a == [] {
      assert a + b == b;
    } else {
      assert (a + b)[1..] == a[1..] + b;
      GetConcat(a[1..], b, key);
    }
  }

  /** A field written only when there is a value for it. */
  function Optional(key: string, value: Option<Json>): Dict {
    if value.None? then [] else [Member(key, value.value)]
  }

  function OneOfFour(a: Member, b: Member, c: Member, d: Member, name: string): Option<Json> {
    if a.key == name then Some(a.value) else if b.key == name then Some(b.value)
    else if c.key == name then Some(c.value) else if d.key == name then Some(d.value) else None
  }

  lemma FourFields(a: Member, b: Member, c: Member, d: Member, name: string)
    ensures Get([a, b, c, d], name) == OneOfFour(a, b, c, d, name)
  {
    assert [a, b, c, d][1..] == [b, c, d] && [b, c, d][1..] == [c, d] && [c, d][1..] == [d];
    assert Get([d], name) == if d.key == name then Some(d.value) else None;
    assert Get([c, d], name) == if c.key == name then Some(c.value) else Get([d], name);
    assert Get([b, c, d], name) == if b.key == name then Some(b.value) else Get([c, d], name);
  }

  // ---------------------------------------------------------------- meaning

  /** A JSON value up to the order of object members: objects are maps, arrays keep their order. */
  datatype Value =
    | VNull
    | VBool(b: bool)
    | VInt(n: int)
    | VFloat(repr: string, negativeZero: bool)
    | VStr(s: string)
    | VArr(items: seq<Value>)
    | VObj(fields: map<string, Value>)

  function Meaning(v: Json): Value
    decreases v, 0
  {
    match v
    case Null => VNull
    case Bool(b) => VBool(b)
    case Int(n) => VInt(n)
    case Float(repr, z) => VFloat(repr, z)
    case Str(s) => VStr(s)
    case Arr(items) => VArr(Meanings(items))
    case Obj(members) => VObj(Fields(members))
  }

  function Meanings(items: seq<Json>): (r: seq<Value>)
    ensures |r| == |items|
    decreases items, 0
  {
    if items == [] then [] else [Meaning(items[0])] + Meanings(items[1..])
  }

  function Fields(members: Dict): map<string, Value>
    decreases members, 0
  {
    if members == [] then map[]
    else
      var m := members[0];
      Fields(members[1..])[m.key := Meaning(m.value)]
  }

  /** What a dictionary means under each key. */
  lemma {:induction false} FieldsGet(d: Dict, key: string)
    ensures key in Fields(d) <==> Has(d, key)
    ensures Has(d, key) ==> Fields(d)[key] == Meaning(Get(d, key).value)
  {
    if d != [] {
      FieldsGet(d[1..], key);
    }
  }

  /** Writing a field changes what it means and nothing else. */
  lemma {:induction false} FieldsPut(d: Dict, key: string, value: Json)
    ensures Fields(Put(d, key, value)) == Fields(d)[key := Meaning(value)]
  {
    if d != [] && d[0].key != key {
      FieldsPut(d[1..], key, value);
    }
  }

  /** Dropping members drops their keys and changes nothing else. */
  lemma FieldsWithout(d: Dict, keys: set<string>)
    ensures Fields(Without(d, keys)) == Fields(d) - keys
  {
    forall key ensures key in Fields(Without(d, keys)) <==> key in Fields(d) - keys {
      FieldsGet(d, key);
      FieldsGet(Without(d, keys), key);
      GetWithout(d, keys, key);
    }
    forall key | key in Fields(d) - keys ensures Fields(Without(d, keys))[key] == (Fields(d) - keys)[key] {
      FieldsGet(d, key);
      FieldsGet(Without(d, keys), key);
      GetWithout(d, keys, key);
    }
  }

  /** No floating-point number at any depth. */
  predicate FloatFree(v: Json)
    decreases v, 0
  {
    match v
    case Float(_, _) => false
    case Arr(items) => FloatFreeItems(items)
    case Obj(members) => FloatFreeMembers(members)
    case _ => true
  }

  predicate FloatFreeItems(items: seq<Json>)
    decreases items, 0
  {
    items == [] || (FloatFree(items[0]) && FloatFreeItems(items[1..]))
  }

  predicate FloatFreeMembers(members: Dict)
    decreases members, 0
  {
    members == [] || (var m := members[0]; FloatFree(m.value) && FloatFreeMembers(members[1..]))
  }
}
