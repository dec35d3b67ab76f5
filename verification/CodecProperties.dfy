/** Decoding accepts exactly the canonical encodings of typed values within the bounds. */
module CodecProperties {
  import opened Wrappers
  import opened Sorting
  import opened RecoveryCodec

  // ---- typed values and discriminated unions ----

  predicate HasType(schema: Schema, v: Value, t: Type)
    decreases v, t
  {
    match t
    case TNone => v.VNone?
    case TBool => v.VBool?
    case TInt => v.VInt?
    case TString => v.VString?
    case TBytes => v.VBytes?
    case TEnum(enumeration, texts) => v.VEnum? && v.enumeration == enumeration && v.text in texts
    case TTuple(item) => v.VTuple? && forall i | 0 <= i < |v.items| :: HasType(schema, v.items[i], item)
    case TUnion(options) => exists i | 0 <= i < |options| :: HasType(schema, v, options[i])
    case TData(name) =>
      && v.VData? && v.name == name && name in schema.types
      && |v.fields| == |schema.types[name].fields|
      && schema.types[name].accepts(v.fields)
      && forall i | 0 <= i < |v.fields| ::
           && v.fields[i].name == schema.types[name].fields[i].name
           && HasType(schema, v.fields[i].value, schema.types[name].fields[i].expected)
  }

  /** What tells the members of a union apart: the kind of a primitive, or the type tag. */
  datatype Shape = SNull | SBool | SInt | SString | SArray | SBytes | SData(name: string)

  function Shapes(t: Type): set<Shape> {
    match t
    case TNone => {SNull}
    case TBool => {SBool}
    case TInt => {SInt}
    case TString => {SString}
    case TBytes => {SBytes}
    case TEnum(_, _) => {SString}
    case TTuple(_) => {SArray}
    case TUnion(options) => set i, s | 0 <= i < |options| && s in Shapes(options[i]) :: s
    case TData(name) => {SData(name)}
  }

  function ShapeOf(v: Value): Shape {
    match v
    case VNone => SNull
    case VBool(_) => SBool
    case VInt(_) => SInt
    case VString(_) => SString
    case VBytes(_) => SBytes
    case VEnum(_, _) => SString
    case VTuple(_) => SArray
    case VData(name, _) => SData(name)
  }

  function JsonShape(j: Json): Option<Shape> {
    match j
    case JNull => Some(SNull)
    case JBool(_) => Some(SBool)
    case JInt(_) => Some(SInt)
    case JFloat => None
    case JString(_) => Some(SString)
    case JArray(_) => Some(SArray)
    case JObject(members) =>
      if Keys(members) == {BYTES_KEY} then Some(SBytes)
      else if Tag(members).Some? then Some(SData(Tag(members).value))
      else None
  }

  /** No two members of a union share a shape. */
  predicate Discriminated(t: Type) {
    match t
    case TTuple(item) => Discriminated(item)
    case TUnion(options) =>
      && (forall i | 0 <= i < |options| :: Discriminated(options[i]))
      && forall i, j | 0 <= i < j < |options| :: Shapes(options[i]) !! Shapes(options[j])
    case _ => true
  }

  predicate FieldsOk(fields: seq<FieldType>) {
    && (forall i, j | 0 <= i < j < |fields| :: fields[i].name != fields[j].name)
    && forall i | 0 <= i < |fields| :: fields[i].name != TYPE_KEY && Discriminated(fields[i].expected)
  }

  ghost predicate WellFormed(schema: Schema) {
    && (forall b :: schema.decode(schema.encode(b)) == Some(b))
    && forall n | n in schema.types :: FieldsOk(schema.types[n].fields)
  }

  // ---- sorted members ----

  lemma {:induction false} InsertMembers(m: Member, s: seq<Member>)
    requires DistinctKeys(s) && m.key !in Keys(s)
    ensures DistinctKeys(Insert(KeyLe, m, s)) && Keys(Insert(KeyLe, m, s)) == Keys(s) + {m.key}
    ensures forall x :: x in Insert(KeyLe, m, s) <==> x == m || x in s
  {
    assert [m][0].key in Keys([m]);
    assert Keys([m]) == {m.key};
    if s == [] || KeyLe(m, s[0]) {
      KeysConcat([m], s);
    } else {
      assert s == [s[0]] + s[1..];
      KeysConcat([s[0]], s[1..]);
      InsertMembers(m, s[1..]);
      KeysConcat([s[0]], Insert(KeyLe, m, s[1..]));
      assert s[0].key !in Keys(s[1..]);
    }
  }

  lemma KeysConcat(a: seq<Member>, b: seq<Member>)
    ensures Keys(a + b) == Keys(a) + Keys(b)
  {
    forall k | k in Keys(a) + Keys(b)
      ensures k in Keys(a + b)
    {
      if k in Keys(a) {
        var i :| 0 <= i < |a| && a[i].key == k;
        assert (a + b)[i].key == k;
      } else {
        var i :| 0 <= i < |b| && b[i].key == k;
        assert (a + b)[|a| + i].key == k;
      }
    }
  }

  /** Sorting the members of an object keeps them, and keeps their keys distinct. */
  lemma {:induction false} SortMembers(s: seq<Member>)
    requires DistinctKeys(s)
    ensures DistinctKeys(Sort(KeyLe, s)) && Keys(Sort(KeyLe, s)) == Keys(s)
    ensures forall x :: x in Sort(KeyLe, s) <==> x in s
  {
    if s != [] {
      assert s == [s[0]] + s[1..];
      KeysConcat([s[0]], s[1..]);
      SortMembers(s[1..]);
      InsertMembers(s[0], Sort(KeyLe, s[1..]));
    }
  }

  lemma PositionOf(s: seq<Member>, m: Member)
    requires DistinctKeys(s) && m in s
    ensures Position(s, m.key).Some? && s[Position(s, m.key).value] == m
  {
    var i :| 0 <= i < |s| && s[i] == m;
  }

  /** The members of a data value before sorting: the tag, and every field under its name. */
  lemma MembersOf(schema: Schema, v: Value)
    requires v.VData? && WellFormed(schema) && HasType(schema, v, TData(v.name))
    ensures DistinctKeys(Members(schema, v))
    ensures Keys(Members(schema, v)) == Names(schema.types[v.name].fields) + {TYPE_KEY}
  {
    var members, declared := Members(schema, v), schema.types[v.name].fields;
    assert FieldsOk(declared);
    forall i | 0 <= i < |declared|
      ensures members[i + 1].key == declared[i].name
    {
    }
    forall i, j | 0 <= i < j < |members|
      ensures members[i].key != members[j].key
    {
      if i > 0 {
        assert declared[i - 1].name != declared[j - 1].name;
      } else {
        assert declared[j - 1].name != TYPE_KEY;
      }
    }
    forall k | k in Names(declared) + {TYPE_KEY}
      ensures k in Keys(members)
    {
      if k in Names(declared) {
        var i :| 0 <= i < |declared| && declared[i].name == k;
        assert members[i + 1].key == k;
      } else {
        assert members[0].key == k;
      }
    }
    forall k | k in Keys(members)
      ensures k in Names(declared) + {TYPE_KEY}
    {
      var i :| 0 <= i < |members| && members[i].key == k;
      if i > 0 {
        assert declared[i - 1].name == k;
      }
    }
  }

  /** The object a data value is encoded as: its tag and its fields are found by key. */
  lemma CanonicalObject(schema: Schema, v: Value)
    requires v.VData? && WellFormed(schema) && HasType(schema, v, TData(v.name))
    ensures var members := Canonical(schema, v).members;
            && Canonical(schema, v).JObject?
            && DistinctKeys(members)
            && Keys(members) == Names(schema.types[v.name].fields) + {TYPE_KEY}
            && Tag(members) == Some(v.name)
            && forall m :: m in members <==> m in Members(schema, v)
  {
    MembersOf(schema, v);
    SortMembers(Members(schema, v));
    var tag := Member(TYPE_KEY, JString(v.name));
    assert Members(schema, v)[0] == tag;
    PositionOf(Canonical(schema, v).members, tag);
  }

  lemma FieldOf(schema: Schema, v: Value, k: nat)
    requires v.VData? && WellFormed(schema) && HasType(schema, v, TData(v.name)) && k < |v.fields|
    ensures var members := Canonical(schema, v).members;
            var p := Position(members, v.fields[k].name);
            p.Some? && members[p.value].value == Canonical(schema, v.fields[k].value)
  {
    CanonicalObject(schema, v);
    var m := Member(v.fields[k].name, Canonical(schema, v.fields[k].value));
    assert Members(schema, v)[k + 1] == m;
    PositionOf(Canonical(schema, v).members, m);
  }

  // ---- shapes ----

  lemma {:induction false} HasTypeShape(schema: Schema, v: Value, t: Type)
    requires HasType(schema, v, t)
    ensures ShapeOf(v) in Shapes(t)
    decreases t
  {
    if t.TUnion? {
      var i :| 0 <= i < |t.options| && HasType(schema, v, t.options[i]);
      HasTypeShape(schema, v, t.options[i]);
    }
  }

  lemma {:induction false} CanonicalShape(schema: Schema, v: Value, t: Type)
    requires WellFormed(schema) && HasType(schema, v, t)
    ensures JsonShape(Canonical(schema, v)) == Some(ShapeOf(v))
    decreases t
  {
    if t.TUnion? {
      var i :| 0 <= i < |t.options| && HasType(schema, v, t.options[i]);
      CanonicalShape(schema, v, t.options[i]);
    } else if t.TData? {
      CanonicalObject(schema, v);
      assert TYPE_KEY in Keys(Canonical(schema, v).members) && TYPE_KEY != BYTES_KEY;
    } else if t.TBytes? {
      var m := Member(BYTES_KEY, JString(schema.encode(v.bytes)));
      assert [m][0].key in Keys([m]);
      assert Keys([m]) == {BYTES_KEY};
    }
  }

  lemma {:induction false} TypedShape(schema: Schema, j: Json, t: Type)
    requires Typed(schema, j, t).Some?
    ensures JsonShape(j).Some? && JsonShape(j).value in Shapes(t)
    decreases t, 1, 0
  {
    if t.TUnion? {
      TypedUnionShape(schema, j, t, 0);
    } else if t.TData? {
      assert TYPE_KEY in Keys(j.members) && TYPE_KEY != BYTES_KEY;
    }
  }

  lemma {:induction false} TypedUnionShape(schema: Schema, j: Json, t: Type, i: nat)
    requires t.TUnion? && i <= |t.options| && TypedUnion(schema, j, t, i).Some?
    ensures JsonShape(j).Some? && JsonShape(j).value in Shapes(t)
    decreases t, 0, |t.options| - i
  {
    if Typed(schema, j, t.options[i]).Some? {
      TypedShape(schema, j, t.options[i]);
    } else {
      TypedUnionShape(schema, j, t, i + 1);
    }
  }

  // ---- decoding undoes encoding ----

  /** Decoding the canonical tree of a typed value returns that value. */
  lemma {:induction false} RoundTrip(schema: Schema, v: Value, t: Type)
    requires WellFormed(schema) && HasType(schema, v, t) && Discriminated(t)
    ensures Typed(schema, Canonical(schema, v), t) == Some(v)
    decreases v, 1, t
  {
    match t
    case TUnion(options) =>
      var i: nat :| i < |options| && HasType(schema, v, options[i]);
      RoundTrip(schema, v, options[i]);
      UnionFinds(schema, v, t, i, 0);
    case TTuple(item) =>
      ItemsRoundTrip(schema, v, item, 0);
      assert v.items[0..] == v.items;
    case TBytes =>
      CanonicalShape(schema, v, t);
    case TData(name) =>
      CanonicalObject(schema, v);
      assert FieldsOk(schema.types[name].fields);
      FieldsRoundTrip(schema, v, 0);
      assert v.fields[0..] == v.fields && schema.types[name].fields[0..] == schema.types[name].fields;
    case _ =>
  }

  /** No earlier member of the union decodes the value, because none has its shape. */
  lemma {:induction false} UnionFinds(schema: Schema, v: Value, t: Type, i: nat, k: nat)
    requires WellFormed(schema) && t.TUnion? && Discriminated(t) && k <= i < |t.options|
    requires HasType(schema, v, t.options[i])
    requires Typed(schema, Canonical(schema, v), t.options[i]) == Some(v)
    ensures TypedUnion(schema, Canonical(schema, v), t, k) == Some(v)
    decreases v, 0, t, i - k
  {
    if k < i {
      UnionFinds(schema, v, t, i, k + 1);
      if Typed(schema, Canonical(schema, v), t.options[k]).Some? {
        OtherShape(schema, v, t, i, k);
      }
    }
  }

  lemma OtherShape(schema: Schema, v: Value, t: Type, i: nat, k: nat)
    requires WellFormed(schema) && t.TUnion? && Discriminated(t) && k < i < |t.options|
    requires HasType(schema, v, t.options[i])
    ensures Typed(schema, Canonical(schema, v), t.options[k]).None?
  {
    HasTypeShape(schema, v, t.options[i]);
    CanonicalShape(schema, v, t.options[i]);
    assert Shapes(t.options[k]) !! Shapes(t.options[i]);
    if Typed(schema, Canonical(schema, v), t.options[k]).Some? {
      TypedShape(schema, Canonical(schema, v), t.options[k]);
    }
  }

  lemma {:induction false} ItemsRoundTrip(schema: Schema, v: Value, item: Type, i: nat)
    requires WellFormed(schema) && Discriminated(item) && HasType(schema, v, TTuple(item)) && i <= |v.items|
    ensures TypedItems(schema, Canonical(schema, v), item, i) == Some(v.items[i..])
    decreases v, 0, |v.items| - i
  {
    if i < |v.items| {
      RoundTrip(schema, v.items[i], item);
      ItemsRoundTrip(schema, v, item, i + 1);
      assert v.items[i..] == [v.items[i]] + v.items[i + 1..];
    }
  }

  lemma {:induction false} FieldsRoundTrip(schema: Schema, v: Value, k: nat)
    requires WellFormed(schema) && v.VData? && HasType(schema, v, TData(v.name)) && k <= |v.fields|
    requires Canonical(schema, v).JObject?
    ensures TypedFields(schema, Canonical(schema, v), schema.types[v.name].fields[k..]) == Some(v.fields[k..])
    decreases v, 0, |v.fields| - k
  {
    hide Typed, Canonical;
    var declared := schema.types[v.name].fields;
    if k < |v.fields| {
      assert FieldsOk(declared);
      FieldOf(schema, v, k);
      RoundTrip(schema, v.fields[k].value, declared[k].expected);
      FieldsRoundTrip(schema, v, k + 1);
      assert declared[k..][0] == declared[k] && declared[k..][1..] == declared[k + 1..];
      assert v.fields[k..] == [v.fields[k]] + v.fields[k + 1..];
    }
  }

  // ---- what is decoded is typed ----

  lemma {:induction false} TypedIsTyped(schema: Schema, j: Json, t: Type)
    requires Typed(schema, j, t).Some?
    ensures HasType(schema, Typed(schema, j, t).value, t)
    decreases j, 1, t
  {
    match t
    case TUnion(_) => UnionIsTyped(schema, j, t, 0);
    case TTuple(item) => ItemsAreTyped(schema, j, item, 0);
    case TData(name) =>
      var declared := schema.types[name].fields;
      FieldsAreTyped(schema, j, declared);
    case _ =>
  }

  lemma {:induction false} UnionIsTyped(schema: Schema, j: Json, t: Type, i: nat)
    requires t.TUnion? && i <= |t.options| && TypedUnion(schema, j, t, i).Some?
    ensures HasType(schema, TypedUnion(schema, j, t, i).value, t)
    decreases j, 1, t, |t.options| - i
  {
    if Typed(schema, j, t.options[i]).Some? {
      TypedIsTyped(schema, j, t.options[i]);
    } else {
      UnionIsTyped(schema, j, t, i + 1);
    }
  }

  lemma {:induction false} ItemsAreTyped(schema: Schema, j: Json, item: Type, i: nat)
    requires j.JArray? && i <= |j.items| && TypedItems(schema, j, item, i).Some?
    ensures var items := TypedItems(schema, j, item, i).value;
            forall k | 0 <= k < |items| :: HasType(schema, items[k], item)
    decreases j, 0, |j.items| - i
  {
    if i < |j.items| {
      TypedIsTyped(schema, j.items[i], item);
      ItemsAreTyped(schema, j, item, i + 1);
    }
  }

  lemma {:induction false} FieldsAreTyped(schema: Schema, j: Json, declared: seq<FieldType>)
    requires j.JObject? && TypedFields(schema, j, declared).Some?
    ensures var fields := TypedFields(schema, j, declared).value;
            && |fields| == |declared|
            && forall k | 0 <= k < |fields| ::
                 fields[k].name == declared[k].name && HasType(schema, fields[k].value, declared[k].expected)
    decreases j, 0, |declared|
  {
    if declared != [] {
      var p := Position(j.members, declared[0].name).value;
      TypedIsTyped(schema, j.members[p].value, declared[0].expected);
      FieldsAreTyped(schema, j, declared[1..]);
    }
  }

  // ---- the whole decoder ----

  lemma {:induction false} CanonicalIsUnique(schema: Schema, v: Value, t: Type)
    requires WellFormed(schema) && HasType(schema, v, t)
    ensures UniqueTree(Canonical(schema, v))
    decreases v, t
  {
    match t
    case TUnion(options) =>
      var i :| 0 <= i < |options| && HasType(schema, v, options[i]);
      CanonicalIsUnique(schema, v, options[i]);
    case TTuple(item) =>
      forall i | 0 <= i < |v.items|
        ensures UniqueTree(Canonical(schema, v.items[i]))
      {
        CanonicalIsUnique(schema, v.items[i], item);
      }
    case TData(name) =>
      forall k | 0 <= k < |v.fields|
        ensures UniqueTree(Canonical(schema, v.fields[k].value))
      {
        CanonicalIsUnique(schema, v.fields[k].value, schema.types[name].fields[k].expected);
      }
      ObjectIsUnique(schema, v);
    case _ =>
  }

  lemma ObjectIsUnique(schema: Schema, v: Value)
    requires v.VData? && WellFormed(schema) && HasType(schema, v, TData(v.name))
    requires forall k | 0 <= k < |v.fields| :: UniqueTree(Canonical(schema, v.fields[k].value))
    ensures UniqueTree(Canonical(schema, v))
  {
    hide HasType, WellFormed;
    CanonicalObject(schema, v);
    var members := Canonical(schema, v).members;
    forall i | 0 <= i < |members|
      ensures UniqueTree(members[i].value)
    {
      assert members[i] in Members(schema, v);
      var k :| 0 <= k < |Members(schema, v)| && Members(schema, v)[k] == members[i];
    }
  }

  /** Decoding accepts exactly the canonical trees of typed values within the bounds, and returns the value. */
  lemma DecodeIsExact(schema: Schema, tree: Json, root: Type, v: Value)
    requires WellFormed(schema) && Discriminated(root)
    ensures Decode(schema, tree, root) == Some(v)
       <==> HasType(schema, v, root) && tree == Canonical(schema, v) && Bounded(schema, tree)
  {
    if Decode(schema, tree, root) == Some(v) {
      TypedIsTyped(schema, tree, root);
    }
    if HasType(schema, v, root) && tree == Canonical(schema, v) {
      RoundTrip(schema, v, root);
      CanonicalIsUnique(schema, v, root);
    }
  }

  /** The canonical encoding is injective on the typed values of a root. */
  lemma EncodingIsInjective(schema: Schema, root: Type, v: Value, w: Value)
    requires WellFormed(schema) && Discriminated(root)
    requires HasType(schema, v, root) && HasType(schema, w, root)
    requires Canonical(schema, v) == Canonical(schema, w)
    ensures v == w
  {
    RoundTrip(schema, v, root);
    RoundTrip(schema, w, root);
  }

  // ---- the unions of the model ----

  /** A union of data types under different names, such as the payloads of a journal entry. */
  lemma TaggedUnionIsDiscriminated(names: seq<string>)
    requires forall i, j | 0 <= i < j < |names| :: names[i] != names[j]
    ensures Discriminated(TUnion(seq(|names|, i requires 0 <= i < |names| => TData(names[i]))))
  {
    var options := seq(|names|, i requires 0 <= i < |names| => TData(names[i]));
    forall i, j | 0 <= i < j < |options|
      ensures Shapes(options[i]) !! Shapes(options[j])
    {
      assert Shapes(options[i]) == {SData(names[i])} && Shapes(options[j]) == {SData(names[j])};
    }
  }

  /** An optional field of any type that is not itself optional. */
  lemma OptionalIsDiscriminated(t: Type)
    requires Discriminated(t) && SNull !in Shapes(t)
    ensures Discriminated(TUnion([t, TNone]))
  {
    assert Shapes([t, TNone][1]) == {SNull};
  }

  /**
   Discriminated is sufficient. In any union, a value comes back exactly when no option
   before the first of its types decodes its tree; otherwise another value comes back.
   */
  lemma UnionReturnsExactly(schema: Schema, v: Value, options: seq<Type>, i: nat)
    requires WellFormed(schema) && i < |options| && Discriminated(options[i])
    requires HasType(schema, v, options[i])
    requires forall k | 0 <= k < i :: !HasType(schema, v, options[k])
    ensures var tree := Canonical(schema, v);
            && Typed(schema, tree, TUnion(options)).Some?
            && (Typed(schema, tree, TUnion(options)) == Some(v)
                <==> forall k | 0 <= k < i :: Typed(schema, tree, options[k]).None?)
  {
    RoundTrip(schema, v, options[i]);
    FirstDecodes(schema, Canonical(schema, v), TUnion(options), i, 0);
    forall k | 0 <= k < i && Typed(schema, Canonical(schema, v), options[k]).Some?
      ensures Typed(schema, Canonical(schema, v), options[k]) != Some(v)
    {
      TypedIsTyped(schema, Canonical(schema, v), options[k]);
    }
  }

  /** The union loop from option `k` on: the first option that decodes. */
  lemma {:induction false} FirstDecodes(schema: Schema, tree: Json, t: Type, i: nat, k: nat)
    requires t.TUnion? && k <= i < |t.options| && Typed(schema, tree, t.options[i]).Some?
    ensures TypedUnion(schema, tree, t, k).Some?
    ensures (forall m | k <= m < i :: Typed(schema, tree, t.options[m]).None?)
            ==> TypedUnion(schema, tree, t, k) == Typed(schema, tree, t.options[i])
    ensures (exists m | k <= m < i :: Typed(schema, tree, t.options[m]).Some?)
            ==> exists m | k <= m < i ::
                  && Typed(schema, tree, t.options[m]).Some?
                  && TypedUnion(schema, tree, t, k) == Typed(schema, tree, t.options[m])
    decreases i - k
  {
    if k < i && Typed(schema, tree, t.options[k]).None? {
      FirstDecodes(schema, tree, t, i, k + 1);
    }
  }

  /** The failing side: an enumeration after a string of the same union is never decoded. */
  lemma AmbiguousUnionForgets(schema: Schema, enumeration: string, text: string)
    ensures var t := TUnion([TString, TEnum(enumeration, {text})]);
            var v := VEnum(enumeration, text);
            && HasType(schema, v, t) && !Discriminated(t)
            && Typed(schema, Canonical(schema, v), t) == Some(VString(text))
  {
    var options := [TString, TEnum(enumeration, {text})];
    var v := VEnum(enumeration, text);
    assert HasType(schema, v, options[1]);
    assert SString in Shapes(options[0]) && SString in Shapes(options[1]);
    assert Typed(schema, Canonical(schema, v), options[0]) == Some(VString(text));
  }
}
