/**
  The JSON-Schema bindings: schema objects whose call emits a dictionary
  with a key for every attribute that is set, laid over the update the
  caller passes. A subclass emits its own keys and hands them to its base
  class as the update, so the base class's keys win over the subclass's,
  and both win over the caller's.
 */
module JsonSchema {
  import opened Wrappers
  import opened Dicts

  /**
    A JSON value as the serialiser builds it. `VSchema` is a schema object
    placed in the output as it is, without being serialised.
   */
  datatype Value =
    | VNull
    | VBool(b: bool)
    | VInt(i: int)
    | VString(s: string)
    | VList(items: seq<Value>)
    | VDict(entries: Dict<string, Value>)
    | VSchema(schema: Schema)

  datatype SchemaType = StringType | IntegerType | NumberType | ObjectType | ArrayType | BooleanType | NullType

  function TypeName(t: SchemaType): string {
    match t
    case StringType => "string"
    case IntegerType => "integer"
    case NumberType => "number"
    case ObjectType => "object"
    case ArrayType => "array"
    case BooleanType => "boolean"
    case NullType => "null"
  }

  /** The attributes every typed schema has besides its type; None is an attribute left unset. */
  datatype Common = Common(enum: Option<seq<Value>>, title: Option<string>, description: Option<string>, default: Option<Value>)

  /** `additional_properties`: a flag or a schema. */
  datatype Additional = AllowAdditional(allowed: bool) | AdditionalSchema(schema: Schema)

  /** `items`: one schema, a list of schemas, or anything else. */
  datatype Items = ItemSchema(schema: Schema) | ItemSchemas(schemas: seq<Schema>) | ItemsOther(value: Value)

  /** `properties`: unset, or a definition per property name. */
  datatype Properties = NoProperties | Properties(defs: Dict<string, Schema>)

  datatype Op = AnyOf | AllOf | OneOf

  function OpName(op: Op): string {
    match op
    case AnyOf => "anyOf"
    case AllOf => "allOf"
    case OneOf => "oneOf"
  }

  /**
    The schema classes: `Base` is BaseType itself (and Boolean and Null),
    `ObjectSchema` is Schema (no type) and Object and ExplicitObject (type
    "object"), `NumberSchema` is Integer and Number.
   */
  datatype Schema =
    | Base(type_: Option<SchemaType>, common: Common)
    | StringSchema(minLength: Option<int>, maxLength: Option<int>, pattern: Option<string>, format: Option<string>,
                   common: Common)
    | NumberSchema(numberType: SchemaType, minimum: Option<int>, exclusiveMinimum: Option<bool>,
                   maximum: Option<int>, exclusiveMaximum: Option<bool>, common: Common)
    | ObjectSchema(type_: Option<SchemaType>, properties: Properties, additional: Option<Additional>,
                   required: Option<seq<string>>, minProperties: Option<int>, maxProperties: Option<int>,
                   dependencies: Option<Dict<string, Value>>, patternProperties: Option<Dict<string, Schema>>,
                   common: Common)
    | ArraySchema(items: Option<Items>, additionalItems: Option<bool>, minItems: Option<int>, maxItems: Option<int>,
                  uniqueItems: Option<bool>, common: Common)
    | Compound(op: Op, schemas: seq<Schema>)
    | Not(schema: Schema)

  // ---------------------------------------------------------------------------
  // The constructors with their defaults.

  function Boolean(common: Common): Schema {
    Base(Some(BooleanType), common)
  }

  function Null(enum: Option<seq<Value>>, title: Option<string>, description: Option<string>): Schema {
    Base(Some(NullType), Common(enum, title, description, None))
  }

  /** Object: type "object"; additional properties allowed unless stated otherwise. */
  function Object(properties: Properties, additional: Option<Additional>, required: Option<seq<string>>,
                  minProperties: Option<int>, maxProperties: Option<int>, dependencies: Option<Dict<string, Value>>,
                  patternProperties: Option<Dict<string, Schema>>, common: Common): Schema {
    ObjectSchema(Some(ObjectType), properties, additional, required, minProperties, maxProperties, dependencies,
                 patternProperties, common)
  }

  /** The default of `additional_properties`. */
  const AllowAll: Option<Additional> := Some(AllowAdditional(true))

  /** ExplicitObject: an Object that allows no additional property. */
  function ExplicitObject(properties: Properties, required: Option<seq<string>>,
                          minProperties: Option<int>, maxProperties: Option<int>, dependencies: Option<Dict<string, Value>>,
                          patternProperties: Option<Dict<string, Schema>>, common: Common): Schema {
    Object(properties, Some(AllowAdditional(false)), required, minProperties, maxProperties, dependencies,
           patternProperties, common)
  }

  /** ExplicitArray: an Array that allows no additional item. */
  function ExplicitArray(items: Option<Items>, minItems: Option<int>, maxItems: Option<int>, uniqueItems: Option<bool>,
                         common: Common): Schema {
    ArraySchema(items, Some(false), minItems, maxItems, uniqueItems, common)
  }

  // ---------------------------------------------------------------------------
  // Serialisation.

  /** One conditional insertion: `if value is not None: out[key] = value`. */
  function SetIf(d: Dict<string, Value>, k: string, v: Option<Value>): Dict<string, Value> {
    if v.Some? then Put(d, k, v.value) else d
  }

  /** A run of conditional insertions, in order. */
  function Layer(d: Dict<string, Value>, entries: seq<(string, Option<Value>)>): Dict<string, Value> {
    if entries == [] then d
    else
      var n := |entries| - 1;
      SetIf(Layer(d, entries[..n]), entries[n].0, entries[n].1)
  }

  /** `out = {}; if update is not None: out.update(update)`. */
  function Start(update: Option<Dict<string, Value>>): Dict<string, Value> {
    if update.Some? then Update([], update.value) else []
  }

  function IntValue(x: Option<int>): Option<Value> {
    if x.Some? then Some(VInt(x.value)) else None
  }

  function BoolValue(x: Option<bool>): Option<Value> {
    if x.Some? then Some(VBool(x.value)) else None
  }

  function StringValue(x: Option<string>): Option<Value> {
    if x.Some? then Some(VString(x.value)) else None
  }

  function StringList(xs: seq<string>): seq<Value> {
    seq(|xs|, i requires 0 <= i < |xs| => VString(xs[i]))
  }

  /** The keys BaseType emits, in its order. */
  function BaseEntries(t: Option<SchemaType>, c: Common): seq<(string, Option<Value>)> {
    [ ("type", if t.Some? then Some(VString(TypeName(t.value))) else None),
      ("enum", if c.enum.Some? then Some(VList(c.enum.value)) else None),
      ("title", StringValue(c.title)),
      ("description", StringValue(c.description)),
      ("default", c.default) ]
  }

  /** BaseType's call, over the update its caller passes. */
  function BaseCall(t: Option<SchemaType>, c: Common, update: Option<Dict<string, Value>>): Dict<string, Value> {
    Layer(Start(update), BaseEntries(t, c))
  }

  /** The keys String emits, in its order. */
  function StringEntries(s: Schema): seq<(string, Option<Value>)>
    requires s.StringSchema?
  {
    [ ("minLength", IntValue(s.minLength)), ("maxLength", IntValue(s.maxLength)),
      ("pattern", StringValue(s.pattern)), ("format", StringValue(s.format)) ]
  }

  /** The keys NumberBase emits, in its order (`multipleOf` is not part of this model). */
  function NumberEntries(s: Schema): seq<(string, Option<Value>)>
    requires s.NumberSchema?
  {
    [ ("minimum", IntValue(s.minimum)), ("exclusiveMinimum", BoolValue(s.exclusiveMinimum)),
      ("maximum", IntValue(s.maximum)), ("exclusiveMaximum", BoolValue(s.exclusiveMaximum)) ]
  }

  /** The call of a schema: the dictionary it emits, laid over `update`. */
  function Call(s: Schema, update: Option<Dict<string, Value>>): Dict<string, Value>
    decreases s, 3
  {
    match s
    case Base(t, c) => BaseCall(t, c, update)
    case StringSchema(_, _, _, _, c) =>
      BaseCall(Some(StringType), c, Some(Layer(Start(update), StringEntries(s))))
    case NumberSchema(t, _, _, _, _, c) =>
      BaseCall(Some(t), c, Some(Layer(Start(update), NumberEntries(s))))
    case ObjectSchema(t, _, _, _, _, _, _, _, c) =>
      BaseCall(t, c, Some(Layer(Start(update), ObjectEntries(s))))
    case ArraySchema(_, _, _, _, _, c) =>
      BaseCall(Some(ArrayType), c, Some(Layer(Start(update), ArrayEntries(s))))
    case Compound(op, schemas) =>
      [(OpName(op), VList(CallAll(s, schemas)))]
    case Not(x) =>
      Put(Start(update), "not", VDict(Call(x, None)))
  }

  /** Each of a list of sub-schemas of `s` called without an update, in order. */
  function CallAll(s: Schema, xs: seq<Schema>): (r: seq<Value>)
    requires forall i :: 0 <= i < |xs| ==> xs[i] < s
    decreases s, 0
  {
    seq(|xs|, i requires 0 <= i < |xs| => VDict(Call(xs[i], None)))
  }

  /** `{name: definition() for name, definition in properties.items()}`. */
  function CallProperties(s: Schema, props: Dict<string, Schema>): (r: Dict<string, Value>)
    requires forall i :: 0 <= i < |props| ==> props[i].1 < s
    decreases s, 0
  {
    seq(|props|, i requires 0 <= i < |props| => (props[i].0, VDict(Call(props[i].1, None))))
  }

  /** The keys Schema emits, in its order. */
  function ObjectEntries(s: Schema): seq<(string, Option<Value>)>
    requires s.ObjectSchema?
    decreases s, 2
  {
    var properties :=
      match s.properties
      case NoProperties => None
      case Properties(props) =>
        assert forall i :: 0 <= i < |props| ==> props[i].1 < s by {
          forall i | 0 <= i < |props| ensures props[i].1 < s {
            assert props[i] in props;
          }
        }
        Some(VDict(CallProperties(s, props)));
    var additional :=
      match s.additional
      case None => None
      case Some(AllowAdditional(b)) => Some(VBool(b))
      case Some(AdditionalSchema(a)) => Some(VDict(Call(a, None)));
    var patterns :=
      if s.patternProperties.Some? then
        var pp := s.patternProperties.value;
        Some(VDict(seq(|pp|, i requires 0 <= i < |pp| => (pp[i].0, VSchema(pp[i].1)))))
      else None;
    [ ("properties", properties),
      ("additionalProperties", additional),
      ("required", if s.required.Some? then Some(VList(StringList(s.required.value))) else None),
      ("minProperties", IntValue(s.minProperties)),
      ("maxProperties", IntValue(s.maxProperties)),
      ("dependencies", if s.dependencies.Some? then Some(VDict(s.dependencies.value)) else None),
      ("patternProperties", patterns) ]
  }

  /** The keys Array emits, in its order. */
  function ArrayEntries(s: Schema): seq<(string, Option<Value>)>
    requires s.ArraySchema?
    decreases s, 2
  {
    [ ("items", ItemsValue(s)), ("additionalItems", BoolValue(s.additionalItems)),
      ("maxItems", IntValue(s.maxItems)), ("minItems", IntValue(s.minItems)),
      ("uniqueItems", BoolValue(s.uniqueItems)) ]
  }

  /** The schemas that derive from BaseType: every one but the compound and negated schemas. */
  predicate IsBaseType(s: Schema) {
    !s.Compound? && !s.Not?
  }

  /**
    Array's "items": one BaseType schema serialised, a list serialised item by item,
    anything else (a compound or negated schema among them) nothing.
   */
  function ItemsValue(s: Schema): Option<Value>
    requires s.ArraySchema?
    decreases s, 1
  {
    match s.items
    case None => None
    case Some(ItemSchema(x)) => if IsBaseType(x) then Some(VDict(Call(x, None))) else None
    case Some(ItemSchemas(xs)) =>
      assert forall i :: 0 <= i < |xs| ==> xs[i] < s by {
        forall i | 0 <= i < |xs| ensures xs[i] < s {
          assert xs[i] in xs;
        }
      }
      Some(VList(CallAll(s, xs)))
    case Some(ItemsOther(_)) => None
  }

  // ---------------------------------------------------------------------------
  // What a call emits.

  /** The value of the last entry for k that is set, if any. */
  function LastSet(es: seq<(string, Option<Value>)>, k: string): Option<Value> {
    if es == [] then None
    else
      var n := |es| - 1;
      if es[n].0 == k && es[n].1.Some? then es[n].1 else LastSet(es[..n], k)
  }

  /** No key is named twice. */
  predicate NamesDistinct(es: seq<(string, Option<Value>)>) {
    forall i, j :: 0 <= i < j < |es| ==> es[i].0 != es[j].0
  }

  /**
    Every attribute a schema that is not compound emits, as (key, value if
    set), its own class's first and its base class's after.
   */
  function Attributes(s: Schema): seq<(string, Option<Value>)>
    requires !s.Compound?
  {
    match s
    case Base(t, c) => BaseEntries(t, c)
    case StringSchema(_, _, _, _, c) => StringEntries(s) + BaseEntries(Some(StringType), c)
    case NumberSchema(t, _, _, _, _, c) => NumberEntries(s) + BaseEntries(Some(t), c)
    case ObjectSchema(t, _, _, _, _, _, _, _, c) => ObjectEntries(s) + BaseEntries(t, c)
    case ArraySchema(_, _, _, _, _, c) => ArrayEntries(s) + BaseEntries(Some(ArrayType), c)
    case Not(x) => [("not", Some(VDict(Call(x, None))))]
  }

  /** The type a schema declares, if any. */
  function DeclaredType(s: Schema): Option<SchemaType> {
    match s
    case Base(t, _) => t
    case StringSchema(_, _, _, _, _) => Some(StringType)
    case NumberSchema(t, _, _, _, _, _) => Some(t)
    case ObjectSchema(t, _, _, _, _, _, _, _, _) => t
    case ArraySchema(_, _, _, _, _, _) => Some(ArrayType)
    case Compound(_, _) => None
    case Not(_) => None
  }

  /** A run of insertions: a key set in the run has its last value there; every other key is as before. */
  lemma {:induction false} LayerGet(d: Dict<string, Value>, es: seq<(string, Option<Value>)>, k: string)
    ensures Get(Layer(d, es), k) == if LastSet(es, k).Some? then LastSet(es, k) else Get(d, k)
  {
    if es != [] {
      var n := |es| - 1;
      LayerGet(d, es[..n], k);
      if es[n].1.Some? {
        PutGet(Layer(d, es[..n]), es[n].0, es[n].1.value, k);
      }
    }
  }

  /** A run of insertions never repeats a key. */
  lemma {:induction false} LayerDistinct(d: Dict<string, Value>, es: seq<(string, Option<Value>)>)
    requires DistinctKeys(d)
    ensures DistinctKeys(Layer(d, es))
  {
    if es != [] {
      var n := |es| - 1;
      LayerDistinct(d, es[..n]);
      if es[n].1.Some? {
        PutDistinct(Layer(d, es[..n]), es[n].0, es[n].1.value);
      }
    }
  }

  /** The starting dictionary holds the update's last value per key, and nothing without an update. */
  lemma StartGet(update: Option<Dict<string, Value>>, k: string)
    ensures DistinctKeys(Start(update))
    ensures Get(Start(update), k) == if update.Some? then GetLast(update.value, k) else None
  {
    if update.Some? {
      UpdateGet([], update.value, k);
      UpdateDistinct([], update.value);
    }
  }

  /** A later run of insertions wins over an earlier one. */
  lemma {:induction false} LastSetAppend(a: seq<(string, Option<Value>)>, b: seq<(string, Option<Value>)>, k: string)
    ensures LastSet(a + b, k) == if LastSet(b, k).Some? then LastSet(b, k) else LastSet(a, k)
  {
    if b != [] {
      var n := |b| - 1;
      assert (a + b)[..|a + b| - 1] == a + b[..n];
      LastSetAppend(a, b[..n], k);
    } else {
      assert a + b == a;
    }
  }

  lemma {:induction false} LastSetAbsent(es: seq<(string, Option<Value>)>, k: string)
    requires forall i :: 0 <= i < |es| ==> es[i].0 != k
    ensures LastSet(es, k) == None
  {
    if es != [] {
      LastSetAbsent(es[..|es| - 1], k);
    }
  }

  /** With every key named once, the value of a key is the one its entry gives. */
  lemma {:induction false} LastSetAt(es: seq<(string, Option<Value>)>, i: nat)
    requires NamesDistinct(es) && i < |es|
    ensures LastSet(es, es[i].0) == es[i].1
  {
    var n := |es| - 1;
    if i == n {
      LastSetAbsent(es[..n], es[i].0);
    } else {
      LastSetAt(es[..n], i);
    }
  }

  /** A subclass's keys laid over the update, then handed to its base class as the update. */
  lemma NestedGet(update: Option<Dict<string, Value>>, sub: seq<(string, Option<Value>)>,
                  base: seq<(string, Option<Value>)>, k: string)
    ensures var out := Layer(Start(Some(Layer(Start(update), sub))), base);
            Get(out, k) == if LastSet(sub + base, k).Some? then LastSet(sub + base, k) else Get(Start(update), k)
  {
    var inner := Layer(Start(update), sub);
    StartGet(update, k);
    LayerDistinct(Start(update), sub);
    LayerGet(Start(Some(inner)), base, k);
    StartGet(Some(inner), k);
    GetLastDistinct(inner, k);
    LayerGet(Start(update), sub, k);
    LastSetAppend(sub, base, k);
  }

  /**
    What a call emits under each key: the schema's own value when the
    attribute is set, otherwise what the update gave.
   */
  lemma CallGet(s: Schema, update: Option<Dict<string, Value>>, k: string)
    requires !s.Compound?
    ensures Get(Call(s, update), k) ==
            if LastSet(Attributes(s), k).Some? then LastSet(Attributes(s), k) else Get(Start(update), k)
  {
    match s
    case Base(t, c) =>
      LayerGet(Start(update), BaseEntries(t, c), k);
    case StringSchema(_, _, _, _, c) =>
      NestedGet(update, StringEntries(s), BaseEntries(Some(StringType), c), k);
    case NumberSchema(t, _, _, _, _, c) =>
      NestedGet(update, NumberEntries(s), BaseEntries(Some(t), c), k);
    case ObjectSchema(t, _, _, _, _, _, _, _, c) =>
      NestedGet(update, ObjectEntries(s), BaseEntries(t, c), k);
    case ArraySchema(_, _, _, _, _, c) =>
      NestedGet(update, ArrayEntries(s), BaseEntries(Some(ArrayType), c), k);
    case Not(x) =>
      PutGet(Start(update), "not", VDict(Call(x, None)), k);
      assert [("not", Some(VDict(Call(x, None))))][..0] == [];
  }

  /** A call never emits a key twice. */
  lemma CallDistinct(s: Schema, update: Option<Dict<string, Value>>)
    ensures DistinctKeys(Call(s, update))
  {
    StartGet(update, "");
    match s
    case Base(t, c) =>
      LayerDistinct(Start(update), BaseEntries(t, c));
    case StringSchema(_, _, _, _, c) =>
      NestedDistinct(update, StringEntries(s), BaseEntries(Some(StringType), c));
    case NumberSchema(t, _, _, _, _, c) =>
      NestedDistinct(update, NumberEntries(s), BaseEntries(Some(t), c));
    case ObjectSchema(t, _, _, _, _, _, _, _, c) =>
      NestedDistinct(update, ObjectEntries(s), BaseEntries(t, c));
    case ArraySchema(_, _, _, _, _, c) =>
      NestedDistinct(update, ArrayEntries(s), BaseEntries(Some(ArrayType), c));
    case Compound(_, _) =>
    case Not(x) =>
      PutDistinct(Start(update), "not", VDict(Call(x, None)));
  }

  lemma NestedDistinct(update: Option<Dict<string, Value>>, sub: seq<(string, Option<Value>)>,
                       base: seq<(string, Option<Value>)>)
    ensures DistinctKeys(Layer(Start(Some(Layer(Start(update), sub))), base))
  {
    StartGet(Some(Layer(Start(update), sub)), "");
    LayerDistinct(Start(Some(Layer(Start(update), sub))), base);
  }

  /**
    The update a caller passes only fills in: a key the schema emits on
    its own keeps the schema's value, every other key keeps the last value
    the update gave it.
   */
  lemma UpdateOverride(s: Schema, update: Dict<string, Value>, k: string)
    requires !s.Compound?
    ensures Get(Call(s, Some(update)), k) ==
            if Get(Call(s, None), k).Some? then Get(Call(s, None), k) else GetLast(update, k)
  {
    CallGet(s, Some(update), k);
    CallGet(s, None, k);
    StartGet(Some(update), k);
    StartGet(None, k);
  }

  /** Compound schemas emit their one keyword, whatever the update. */
  lemma CompoundIgnoresUpdate(s: Schema, update: Option<Dict<string, Value>>)
    requires s.Compound?
    ensures Call(s, update) == Call(s, None)
    ensures Keys(Call(s, update)) == [OpName(s.op)]
    ensures var v := Call(s, update)[0].1;
            v.VList? && |v.items| == |s.schemas| &&
            forall i :: 0 <= i < |s.schemas| ==> v.items[i] == VDict(Call(s.schemas[i], None))
  {
  }

  function Names(es: seq<(string, Option<Value>)>): seq<string> {
    seq(|es|, i requires 0 <= i < |es| => es[i].0)
  }

  /** The keywords of each schema class, its own first and BaseType's after. */
  const BaseNames: seq<string> := ["type", "enum", "title", "description", "default"]
  const StringNames: seq<string> := ["minLength", "maxLength", "pattern", "format",
                                     "type", "enum", "title", "description", "default"]
  const NumberNames: seq<string> := ["minimum", "exclusiveMinimum", "maximum", "exclusiveMaximum",
                                     "type", "enum", "title", "description", "default"]
  const ObjectNames: seq<string> := ["properties", "additionalProperties", "required", "minProperties", "maxProperties",
                                     "dependencies", "patternProperties",
                                     "type", "enum", "title", "description", "default"]
  const ArrayNames: seq<string> := ["items", "additionalItems", "maxItems", "minItems", "uniqueItems",
                                    "type", "enum", "title", "description", "default"]

  /** The keywords a schema emits, in its order. */
  function KeywordNames(s: Schema): seq<string>
    requires !s.Compound?
  {
    match s
    case Base(_, _) => BaseNames
    case StringSchema(_, _, _, _, _) => StringNames
    case NumberSchema(_, _, _, _, _, _) => NumberNames
    case ObjectSchema(_, _, _, _, _, _, _, _, _) => ObjectNames
    case ArraySchema(_, _, _, _, _, _) => ArrayNames
    case Not(_) => ["not"]
  }

  /** No name is listed twice. */
  predicate Unrepeated(names: seq<string>) {
    forall i, j :: 0 <= i < j < |names| ==> names[i] != names[j]
  }

  lemma BaseNamesUnrepeated() ensures Unrepeated(BaseNames) {}
  lemma StringNamesUnrepeated() ensures Unrepeated(StringNames) {}
  lemma NumberNamesUnrepeated() ensures Unrepeated(NumberNames) {}
  lemma ObjectNamesUnrepeated() ensures Unrepeated(ObjectNames) {}
  lemma ArrayNamesUnrepeated() ensures Unrepeated(ArrayNames) {}

  /** The keys a schema emits are its class's keyword list. */
  lemma AttributeNames(s: Schema)
    requires !s.Compound?
    ensures Names(Attributes(s)) == KeywordNames(s)
  {
  }

  /** No schema emits the same keyword twice. */
  lemma AttributesDistinct(s: Schema)
    requires !s.Compound?
    ensures Names(Attributes(s)) == KeywordNames(s)
    ensures NamesDistinct(Attributes(s))
  {
    AttributeNames(s);
    var names := KeywordNames(s);
    match s {
      case Base(_, _) => BaseNamesUnrepeated();
      case StringSchema(_, _, _, _, _) => StringNamesUnrepeated();
      case NumberSchema(_, _, _, _, _, _) => NumberNamesUnrepeated();
      case ObjectSchema(_, _, _, _, _, _, _, _, _) => ObjectNamesUnrepeated();
      case ArraySchema(_, _, _, _, _, _) => ArrayNamesUnrepeated();
      case Not(_) =>
    }
    forall i, j | 0 <= i < j < |Attributes(s)| ensures Attributes(s)[i].0 != Attributes(s)[j].0 {
      assert Attributes(s)[i].0 == names[i] && Attributes(s)[j].0 == names[j];
    }
  }

  /** Each attribute: its value when set, otherwise whatever the update gave under that key. */
  lemma CallEntry(s: Schema, update: Option<Dict<string, Value>>, i: nat)
    requires !s.Compound? && i < |Attributes(s)|
    ensures Get(Call(s, update), Attributes(s)[i].0) ==
            if Attributes(s)[i].1.Some? then Attributes(s)[i].1 else Get(Start(update), Attributes(s)[i].0)
  {
    AttributesDistinct(s);
    LastSetAt(Attributes(s), i);
    CallGet(s, update, Attributes(s)[i].0);
  }

  /** A key that is no attribute of the schema is left as the update gave it. */
  lemma CallOther(s: Schema, update: Option<Dict<string, Value>>, k: string)
    requires !s.Compound?
    requires k !in KeywordNames(s)
    ensures Get(Call(s, update), k) == Get(Start(update), k)
  {
    AttributesDistinct(s);
    forall i | 0 <= i < |Attributes(s)| ensures Attributes(s)[i].0 != k {
      assert Attributes(s)[i].0 == Names(Attributes(s))[i];
    }
    LastSetAbsent(Attributes(s), k);
    CallGet(s, update, k);
  }

  /** The position of BaseType's first keyword among a schema's attributes. */
  function BaseOffset(s: Schema): nat
    requires !s.Compound? && !s.Not?
  {
    match s
    case Base(_, _) => 0
    case StringSchema(_, _, _, _, _) => 4
    case NumberSchema(_, _, _, _, _, _) => 4
    case ObjectSchema(_, _, _, _, _, _, _, _, _) => 7
    case ArraySchema(_, _, _, _, _, _) => 5
  }

  /** "type" is the declared type's name, whatever the update says; without a declared type the update's stays. */
  lemma TypeKey(s: Schema, update: Option<Dict<string, Value>>)
    requires !s.Compound? && !s.Not?
    ensures DeclaredType(s).Some? ==> Get(Call(s, update), "type") == Some(VString(TypeName(DeclaredType(s).value)))
    ensures DeclaredType(s).None? ==> Get(Call(s, update), "type") == Get(Start(update), "type")
  {
    var i := BaseOffset(s);
    assert Attributes(s)[i] == BaseEntries(DeclaredType(s), s.common)[0];
    CallEntry(s, update, i);
  }

  /** "additionalProperties": the flag, or the schema serialised; unset leaves the update's. */
  lemma ObjectAdditional(s: Schema, update: Option<Dict<string, Value>>)
    requires s.ObjectSchema?
    ensures Get(Call(s, update), "additionalProperties") ==
            match s.additional
            case None => Get(Start(update), "additionalProperties")
            case Some(AllowAdditional(b)) => Some(VBool(b))
            case Some(AdditionalSchema(a)) => Some(VDict(Call(a, None)))
  {
    assert Attributes(s)[1] == ObjectEntries(s)[1];
    CallEntry(s, update, 1);
  }

  /** An Object allows additional properties by default; an ExplicitObject never does. Both are of type "object". */
  lemma ObjectDefaults(properties: Properties, required: Option<seq<string>>, minProperties: Option<int>,
                       maxProperties: Option<int>, dependencies: Option<Dict<string, Value>>,
                       patternProperties: Option<Dict<string, Schema>>, common: Common,
                       update: Option<Dict<string, Value>>)
    ensures var o := Object(properties, AllowAll, required, minProperties, maxProperties, dependencies,
                            patternProperties, common);
            Get(Call(o, update), "additionalProperties") == Some(VBool(true)) &&
            Get(Call(o, update), "type") == Some(VString("object"))
    ensures var e := ExplicitObject(properties, required, minProperties, maxProperties, dependencies,
                                    patternProperties, common);
            Get(Call(e, update), "additionalProperties") == Some(VBool(false)) &&
            Get(Call(e, update), "type") == Some(VString("object"))
  {
    var o := Object(properties, AllowAll, required, minProperties, maxProperties, dependencies,
                    patternProperties, common);
    var e := ExplicitObject(properties, required, minProperties, maxProperties, dependencies,
                            patternProperties, common);
    ObjectAdditional(o, update);
    ObjectAdditional(e, update);
    TypeKey(o, update);
    TypeKey(e, update);
  }

  /** "properties" names the same properties in the same order, each definition serialised. */
  lemma ObjectProperties(s: Schema, update: Option<Dict<string, Value>>)
    requires s.ObjectSchema? && s.properties.Properties?
    ensures var v := Get(Call(s, update), "properties");
            v.Some? && v.value.VDict? && Keys(v.value.entries) == Keys(s.properties.defs) &&
            forall i :: 0 <= i < |s.properties.defs| ==> v.value.entries[i].1 == VDict(Call(s.properties.defs[i].1, None))
  {
    assert Attributes(s)[0] == ObjectEntries(s)[0];
    CallEntry(s, update, 0);
  }

  /** "required" and "dependencies" are copied, "patternProperties" keeps its schemas without serialising them. */
  lemma ObjectCopies(s: Schema, update: Option<Dict<string, Value>>)
    requires s.ObjectSchema?
    ensures s.required.Some? ==> Get(Call(s, update), "required") == Some(VList(StringList(s.required.value)))
    ensures s.dependencies.Some? ==> Get(Call(s, update), "dependencies") == Some(VDict(s.dependencies.value))
    ensures s.patternProperties.Some? ==>
            var v := Get(Call(s, update), "patternProperties");
            v.Some? && v.value.VDict? && Keys(v.value.entries) == Keys(s.patternProperties.value) &&
            forall i :: 0 <= i < |s.patternProperties.value| ==> v.value.entries[i].1 == VSchema(s.patternProperties.value[i].1)
  {
    assert Attributes(s)[2] == ObjectEntries(s)[2];
    assert Attributes(s)[5] == ObjectEntries(s)[5];
    assert Attributes(s)[6] == ObjectEntries(s)[6];
    CallEntry(s, update, 2);
    CallEntry(s, update, 5);
    CallEntry(s, update, 6);
  }

  /**
    "items": one BaseType schema serialised, or a list serialised item by item in
    order; anything else, a single compound or negated schema included, emits
    nothing and leaves the update's.
   */
  lemma ArrayItems(s: Schema, update: Option<Dict<string, Value>>)
    requires s.ArraySchema?
    ensures s.items == None ==> Get(Call(s, update), "items") == Get(Start(update), "items")
    ensures s.items.Some? && s.items.value.ItemsOther? ==> Get(Call(s, update), "items") == Get(Start(update), "items")
    ensures s.items.Some? && s.items.value.ItemSchema? && IsBaseType(s.items.value.schema) ==>
            Get(Call(s, update), "items") == Some(VDict(Call(s.items.value.schema, None)))
    ensures s.items.Some? && s.items.value.ItemSchema? && !IsBaseType(s.items.value.schema) ==>
            Get(Call(s, update), "items") == Get(Start(update), "items")
    ensures s.items.Some? && s.items.value.ItemSchemas? ==>
            var v := Get(Call(s, update), "items");
            var xs := s.items.value.schemas;
            v.Some? && v.value.VList? && |v.value.items| == |xs| &&
            forall i :: 0 <= i < |xs| ==> v.value.items[i] == VDict(Call(xs[i], None))
  {
    assert Attributes(s)[0] == ArrayEntries(s)[0];
    CallEntry(s, update, 0);
    if s.items.Some? && s.items.value.ItemSchemas? {
      assert ItemsValue(s) == Some(VList(CallAll(s, s.items.value.schemas)));
    }
  }

  /** An ExplicitArray never allows additional items, and is of type "array". */
  lemma ExplicitArrayForbids(items: Option<Items>, minItems: Option<int>, maxItems: Option<int>,
                             uniqueItems: Option<bool>, common: Common, update: Option<Dict<string, Value>>)
    ensures var a := ExplicitArray(items, minItems, maxItems, uniqueItems, common);
            Get(Call(a, update), "additionalItems") == Some(VBool(false)) &&
            Get(Call(a, update), "type") == Some(VString("array"))
  {
    var a := ExplicitArray(items, minItems, maxItems, uniqueItems, common);
    assert Attributes(a)[1] == ArrayEntries(a)[1];
    CallEntry(a, update, 1);
    TypeKey(a, update);
  }

  /** Not emits "not" with the schema serialised, over the update. */
  lemma NotKey(x: Schema, update: Option<Dict<string, Value>>, k: string)
    ensures Get(Call(Not(x), update), k) == if k == "not" then Some(VDict(Call(x, None))) else Get(Start(update), k)
  {
    CallGet(Not(x), update, k);
    assert [("not", Some(VDict(Call(x, None))))][..0] == [];
  }
}
