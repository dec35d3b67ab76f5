/**
 The schema-directed recovery codec over JSON trees: canonical encoding, typed decoding
 and the bounds on a tree's nodes and depth.

 JSON text, UTF-8 and base64 are library code: a tree stands for its text, and base64 is
 a pair of functions of the schema.
 */
module RecoveryCodec {
  import opened Wrappers
  import opened Sorting

  const MAX_BYTES := 8 * 1024 * 1024
  const MAX_DEPTH := 64
  const MAX_NODES := 100_000
  const TYPE_KEY := "$type"
  const BYTES_KEY := "$bytes"

  datatype Member = Member(key: string, value: Json)

  /** The members of an object are in the order of the text. */
  datatype Json =
    | JNull
    | JBool(bit: bool)
    | JInt(number: int)
    | JFloat
    | JString(text: string)
    | JArray(items: seq<Json>)
    | JObject(members: seq<Member>)

  type Byte = b: nat | b < 256

  datatype Field = Field(name: string, value: Value)

  datatype Value =
    | VNone
    | VBool(bit: bool)
    | VInt(number: int)
    | VString(text: string)
    | VBytes(bytes: seq<Byte>)
    | VEnum(enumeration: string, text: string)
    | VTuple(items: seq<Value>)
    | VData(name: string, fields: seq<Field>)

  datatype Type =
    | TNone
    | TBool
    | TInt
    | TString
    | TBytes
    | TEnum(enumeration: string, texts: set<string>)
    | TTuple(item: Type)
    | TUnion(options: seq<Type>)
    | TData(name: string)

  datatype FieldType = FieldType(name: string, expected: Type)

  /** The fields of a data type, and what its constructor accepts. */
  datatype DataType = DataType(fields: seq<FieldType>, accepts: seq<Field> -> bool)

  datatype Schema = Schema(
    types: map<string, DataType>, encode: seq<Byte> -> string, decode: string -> Option<seq<Byte>>,
    size: Json -> nat)

  // ---- encoding ----

  predicate KeyLe(a: Member, b: Member) {
    LexLe(CharLess, a.key, b.key)
  }

  /** Deterministic: the members of every object are sorted by key. */
  function Canonical(schema: Schema, v: Value): Json
    decreases v, 1
  {
    match v
    case VNone => JNull
    case VBool(b) => JBool(b)
    case VInt(n) => JInt(n)
    case VString(s) => JString(s)
    case VBytes(b) => JObject([Member(BYTES_KEY, JString(schema.encode(b)))])
    case VEnum(_, s) => JString(s)
    case VTuple(items) => JArray(seq(|items|, i requires 0 <= i < |items| => Canonical(schema, items[i])))
    case VData(name, fields) => JObject(Sort(KeyLe, Members(schema, v)))
  }

  function Members(schema: Schema, v: Value): seq<Member>
    requires v.VData?
    decreases v, 0
  {
    [Member(TYPE_KEY, JString(v.name))]
    + seq(|v.fields|, i requires 0 <= i < |v.fields| =>
        Member(v.fields[i].name, Canonical(schema, v.fields[i].value)))
  }

  // ---- typed decoding ----

  function Position(members: seq<Member>, key: string): (r: Option<nat>)
    ensures r.Some? ==> r.value < |members| && members[r.value].key == key
    ensures r.None? ==> forall i | 0 <= i < |members| :: members[i].key != key
  {
    if members == [] then None
    else if members[0].key == key then Some(0)
    else
      match Position(members[1..], key)
      case None => None
      case Some(i) => Some(i + 1)
  }

  function Keys(members: seq<Member>): set<string> {
    set i | 0 <= i < |members| :: members[i].key
  }

  function Names(fields: seq<FieldType>): set<string> {
    set i | 0 <= i < |fields| :: fields[i].name
  }

  function Typed(schema: Schema, value: Json, expected: Type): Option<Value>
    decreases value, 1, expected
  {
    match expected
    case TUnion(_) => TypedUnion(schema, value, expected, 0)
    case TTuple(item) =>
      if !value.JArray? then None
      else
        (match TypedItems(schema, value, item, 0)
         case None => None
         case Some(items) => Some(VTuple(items)))
    case TNone => if value.JNull? then Some(VNone) else None
    case TBool => if value.JBool? then Some(VBool(value.bit)) else None
    case TInt => if value.JInt? then Some(VInt(value.number)) else None
    case TString => if value.JString? then Some(VString(value.text)) else None
    case TBytes =>
      if !value.JObject? || Keys(value.members) != {BYTES_KEY} || !value.members[0].value.JString? then None
      else
        (match schema.decode(value.members[0].value.text)
         case None => None
         case Some(bytes) => Some(VBytes(bytes)))
    case TEnum(enumeration, texts) =>
      if value.JString? && value.text in texts then Some(VEnum(enumeration, value.text)) else None
    case TData(name) =>
      if name !in schema.types || !value.JObject? || Tag(value.members) != Some(name) then None
      else if Keys(value.members) != Names(schema.types[name].fields) + {TYPE_KEY} then None
      else
        match TypedFields(schema, value, schema.types[name].fields)
        case None => None
        case Some(fields) => if schema.types[name].accepts(fields) then Some(VData(name, fields)) else None
  }

  function Tag(members: seq<Member>): Option<string> {
    match Position(members, TYPE_KEY)
    case None => None
    case Some(i) => if members[i].value.JString? then Some(members[i].value.text) else None
  }

  /** The first member of the union that the value decodes as. */
  function TypedUnion(schema: Schema, value: Json, union: Type, i: nat): Option<Value>
    requires union.TUnion? && i <= |union.options|
    decreases value, 1, union, |union.options| - i
  {
    if i == |union.options| then None
    else
      var decoded := Typed(schema, value, union.options[i]);
      if decoded.Some? then decoded else TypedUnion(schema, value, union, i + 1)
  }

  function TypedItems(schema: Schema, value: Json, item: Type, i: nat): Option<seq<Value>>
    requires value.JArray? && i <= |value.items|
    decreases value, 0, |value.items| - i
  {
    if i == |value.items| then Some([])
    else
      match Typed(schema, value.items[i], item)
      case None => None
      case Some(first) =>
        match TypedItems(schema, value, item, i + 1)
        case None => None
        case Some(rest) => Some([first] + rest)
  }

  function TypedFields(schema: Schema, value: Json, fields: seq<FieldType>): Option<seq<Field>>
    requires value.JObject?
    decreases value, 0, |fields|
  {
    if fields == [] then Some([])
    else
      match Position(value.members, fields[0].name)
      case None => None
      case Some(i) =>
        match Typed(schema, value.members[i].value, fields[0].expected)
        case None => None
        case Some(first) =>
          match TypedFields(schema, value, fields[1..])
          case None => None
          case Some(rest) => Some([Field(fields[0].name, first)] + rest)
  }

  // ---- bounds ----

  function Nodes(value: Json): nat
    decreases value, 1
  {
    match value
    case JArray(items) => 1 + NodesFrom(value, 0)
    case JObject(members) => 1 + NodesFrom(value, 0)
    case _ => 1
  }

  function Width(value: Json): nat {
    match value
    case JArray(items) => |items|
    case JObject(members) => |members|
    case _ => 0
  }

  function Child(value: Json, i: nat): (c: Json)
    requires i < Width(value)
    ensures c < value
  {
    if value.JArray? then value.items[i] else value.members[i].value
  }

  function NodesFrom(value: Json, i: nat): nat
    requires i <= Width(value)
    decreases value, 0, Width(value) - i
  {
    if i == Width(value) then 0 else Nodes(Child(value, i)) + NodesFrom(value, i + 1)
  }

  /** No part of the tree lies deeper than `depth` below its root. */
  predicate NoDeeper(value: Json, depth: int)
    decreases value
  {
    depth >= 0 && forall i | 0 <= i < Width(value) :: NoDeeper(Child(value, i), depth - 1)
  }

  lemma NodesBounds(value: Json)
    ensures Nodes(value) == 1 + NodesFrom(value, 0) && NodesFrom(value, Width(value)) == 0
  {
  }

  lemma NodesNext(value: Json, i: nat)
    requires i < Width(value)
    ensures NodesFrom(value, i) == Nodes(Child(value, i)) + NodesFrom(value, i + 1)
  {
  }

  /** `_check_shape`: one counter shared by all recursive calls. */
  method CheckShape(value: Json, depth: nat, remaining: array<int>) returns (accepted: bool)
    requires remaining.Length == 1
    modifies remaining
    ensures accepted <==> NoDeeper(value, MAX_DEPTH - depth) && old(remaining[0]) >= Nodes(value)
    ensures accepted ==> remaining[0] == old(remaining[0]) - Nodes(value)
    decreases value
  {
    hide Nodes, NodesFrom, Child;
    NodesBounds(value);
    remaining[0] := remaining[0] - 1;
    if depth > MAX_DEPTH || remaining[0] < 0 {
      return false;
    }
    for i := 0 to Width(value)
      invariant remaining[0] >= 0
      invariant remaining[0] + Nodes(value) == old(remaining[0]) + NodesFrom(value, i)
      invariant forall k | 0 <= k < i :: NoDeeper(Child(value, k), MAX_DEPTH - depth - 1)
    {
      NodesNext(value, i);
      var inside := CheckShape(Child(value, i), depth + 1, remaining);
      if !inside {
        return false;
      }
    }
    return true;
  }

  predicate DistinctKeys(members: seq<Member>) {
    forall i, j | 0 <= i < j < |members| :: members[i].key != members[j].key
  }

  /** `_unique_object`: fills a dictionary and refuses a repeated key. */
  method UniqueObject(pairs: seq<Member>) returns (result: Option<map<string, Json>>)
    ensures result.Some? <==> DistinctKeys(pairs)
    ensures result.Some? ==> result.value.Keys == Keys(pairs)
    ensures result.Some? ==> forall i | 0 <= i < |pairs| :: result.value[pairs[i].key] == pairs[i].value
  {
    var filled: map<string, Json> := map[];
    for i := 0 to |pairs|
      invariant DistinctKeys(pairs[..i])
      invariant filled.Keys == Keys(pairs[..i])
      invariant forall k | 0 <= k < i :: pairs[k].key in filled && filled[pairs[k].key] == pairs[k].value
    {
      if pairs[i].key in filled {
        return None;
      }
      filled := filled[pairs[i].key := pairs[i].value];
      assert Keys(pairs[..i + 1]) == Keys(pairs[..i]) + {pairs[i].key};
    }
    assert pairs[..|pairs|] == pairs;
    return Some(filled);
  }

  /** No object of the tree repeats a key. */
  predicate UniqueTree(value: Json)
    decreases value
  {
    && (value.JObject? ==> DistinctKeys(value.members))
    && forall i | 0 <= i < Width(value) :: UniqueTree(Child(value, i))
  }

  predicate Bounded(schema: Schema, tree: Json) {
    0 < schema.size(tree) <= MAX_BYTES && NoDeeper(tree, MAX_DEPTH) && Nodes(tree) <= MAX_NODES
  }

  /** `_decode`: a bounded tree that is the canonical encoding of what it decodes to. */
  function Decode(schema: Schema, tree: Json, root: Type): Option<Value> {
    if !UniqueTree(tree) || !Bounded(schema, tree) then None
    else
      match Typed(schema, tree, root)
      case None => None
      case Some(v) => if Canonical(schema, v) == tree then Some(v) else None
  }

  method DecodeTree(schema: Schema, tree: Json, root: Type) returns (r: Option<Value>)
    ensures r == Decode(schema, tree, root)
  {
    if !(0 < schema.size(tree) <= MAX_BYTES) || !UniqueTree(tree) {
      return None;
    }
    var remaining := new int[1];
    remaining[0] := MAX_NODES;
    var accepted := CheckShape(tree, 0, remaining);
    if !accepted {
      return None;
    }
    r := Typed(schema, tree, root);
    if r.Some? && Canonical(schema, r.value) != tree {
      return None;
    }
  }
}
