/** The schema of a topic: a second recursion over message definitions, and its agreement with every decoded message. */
module Schemas {
  import opened Wrappers
  import opened Bytes
  import opened MsgTypes
  import opened RosValues
  import opened Wire
  import opened Parser
  import opened Decoding
  import opened Access

  /** The dictionary that describes one field. */
  datatype Schema =
    | ScalarSchema(typeName: string)
    | ObjectSchema(children: seq<Entry>)
    | ScalarArraySchema(memberType: string)
    | ObjectArraySchema(children: seq<Entry>)

  datatype Entry = Entry(name: string, schema: Schema)

  /** Assignment to an ordered dictionary: a known key keeps its place. */
  function Assign(children: seq<Entry>, name: string, schema: Schema): seq<Entry> {
    if children == [] then [Entry(name, schema)]
    else if children[0].name == name then [Entry(name, schema)] + children[1..]
    else [children[0]] + Assign(children[1..], name, schema)
  }

  predicate IsPrimitiveName(typeName: string) {
    typeName in PRIMITIVE_TYPE_MAP
  }

  /** The field has the type that its name stands for. */
  predicate Typed(f: FieldDef) {
    f.fieldType == FieldOf(f.info).fieldType
  }

  /** The definition graph has no cycles: a definition ranks above those of its object fields. */
  type Ranks = map<string, nat>

  predicate RankedBelow(env: Definitions, rank: Ranks, fs: seq<FieldDef>, bound: nat) {
    forall i :: 0 <= i < |fs| && !IsPrimitiveName(fs[i].info.typeName) ==>
      Refers(env, fs[i]) && fs[i].typeDefinition.value in rank && rank[fs[i].typeDefinition.value] < bound
  }

  predicate Ranked(env: Definitions, rank: Ranks) {
    forall k :: k in env ==> k in rank && RankedBelow(env, rank, Fields(env[k].members), rank[k])
  }

  function SchemaOf(env: Definitions, rank: Ranks, f: FieldDef, bound: nat): Schema
    requires Ranked(env, rank) && RankedBelow(env, rank, [f], bound)
    decreases bound, 0
  {
    if IsPrimitiveName(f.info.typeName) then
      if f.info.arraySize == 0 then ScalarSchema(f.info.typeName) else ScalarArraySchema(f.info.typeName)
    else
      assert [f][0] == f;
      var children := SchemasOf(env, rank, Fields(DefOf(env, f).members), rank[f.typeDefinition.value]);
      if f.info.arraySize == 0 then ObjectSchema(children) else ObjectArraySchema(children)
  }

  function SchemasOf(env: Definitions, rank: Ranks, fs: seq<FieldDef>, bound: nat): seq<Entry>
    requires Ranked(env, rank) && RankedBelow(env, rank, fs, bound)
    decreases bound, |fs| + 1
  {
    if fs == [] then [] else
      var n := |fs| - 1;
      assert fs[..n] + [fs[n]] == fs && RankedBelow(env, rank, [fs[n]], bound);
      Assign(SchemasOf(env, rank, fs[..n], bound), fs[n].info.fieldName, SchemaOf(env, rank, fs[n], bound))
  }

  lemma SchemasSnoc(env: Definitions, rank: Ranks, fs: seq<FieldDef>, f: FieldDef, bound: nat)
    requires Ranked(env, rank) && RankedBelow(env, rank, fs, bound) && RankedBelow(env, rank, [f], bound)
    ensures RankedBelow(env, rank, fs + [f], bound)
    ensures SchemasOf(env, rank, fs + [f], bound) ==
      Assign(SchemasOf(env, rank, fs, bound), f.info.fieldName, SchemaOf(env, rank, f, bound))
  {
    hide Ranked, SchemaOf, Assign;
    assert [f][0] == f;
    assert (fs + [f])[..|fs|] == fs;
  }

  lemma NoSchemas(env: Definitions, rank: Ranks, bound: nat)
    requires Ranked(env, rank)
    ensures SchemasOf(env, rank, [], bound) == []
  {
  }

  lemma DefIsRanked(env: Definitions, rank: Ranks, name: string)
    requires Ranked(env, rank) && name in env
    ensures name in rank && RankedBelow(env, rank, Fields(env[name].members), rank[name])
  {
  }

  /** SchemaBuilder::schemaForField. */
  method SchemaForField(env: Definitions, ghost rank: Ranks, f: FieldDef, ghost bound: nat) returns (s: Schema)
    requires Ranked(env, rank) && RankedBelow(env, rank, [f], bound)
    ensures s == SchemaOf(env, rank, f, bound)
    decreases bound, 0
  {
    assert [f][0] == f;
    if f.info.arraySize == 0 {
      if IsPrimitiveName(f.info.typeName) {
        s := ScalarSchema(f.info.typeName);
      } else {
        var children := SchemaForMembers(env, rank, DefOf(env, f).members, rank[f.typeDefinition.value]);
        s := ObjectSchema(children);
      }
    } else {
      if IsPrimitiveName(f.info.typeName) {
        s := ScalarArraySchema(f.info.typeName);
      } else {
        var children := SchemaForMembers(env, rank, DefOf(env, f).members, rank[f.typeDefinition.value]);
        s := ObjectArraySchema(children);
      }
    }
  }

  /** The loop over members, as in schemaForField and generateSchema. */
  method SchemaForMembers(env: Definitions, ghost rank: Ranks, members: seq<Member>, ghost bound: nat)
    returns (children: seq<Entry>)
    requires Ranked(env, rank) && RankedBelow(env, rank, Fields(members), bound)
    ensures children == SchemasOf(env, rank, Fields(members), bound)
    decreases bound, |members| + 1
  {
    hide Ranked, SchemasOf, SchemaOf, Assign, Fields;
    children := [];
    NoSchemas(env, rank, bound);
    FieldsPrefix(members, 0);
    for j := 0 to |members|
      invariant RankedBelow(env, rank, Fields(members[..j]), bound)
      invariant children == SchemasOf(env, rank, Fields(members[..j]), bound)
    {
      FieldsPrefix(members, j);
      FieldsPrefix(members, j + 1);
      if members[j].Field? {
        var f := members[j].field;
        ghost var before, after := Fields(members[..j]), Fields(members[..j + 1]);
        assert after == before + [f] && f == Fields(members)[|before|];
        assert RankedBelow(env, rank, [f], bound);
        SchemasSnoc(env, rank, before, f, bound);
        var s := SchemaForField(env, rank, f, bound);
        children := Assign(children, f.info.fieldName, s);
      } else {
        assert Fields(members[..j + 1]) == Fields(members[..j]);
      }
    }
    assert members[..|members|] == members;
  }

  // ---------- Agreement with decoded messages ----------

  /** Cell i of the arena has the shape that the schema says: type, order and names of fields, and kind of elements. */
  predicate Describes(s: Schema, arena: Arena, i: nat)
    decreases s
  {
    i < |arena| &&
    match s
    case ScalarSchema(t) =>
      t in PRIMITIVE_TYPE_MAP && arena[i].PrimitiveCell? && arena[i].fieldType == PRIMITIVE_TYPE_MAP[t]
    case ObjectSchema(children) => DescribesFields(children, arena, i)
    case ScalarArraySchema(t) =>
      t in PRIMITIVE_TYPE_MAP &&
      if PRIMITIVE_TYPE_MAP[t] == String then
        arena[i].ArrayCell? && arena[i].children.Some? &&
        var c := arena[i].children.value;
        forall k :: c.offset <= k < c.offset + c.length ==>
          k < |arena| && arena[k].PrimitiveCell? && arena[k].fieldType == String
      else arena[i].PrimitiveArrayCell? && arena[i].elementType == PRIMITIVE_TYPE_MAP[t]
    case ObjectArraySchema(children) =>
      arena[i].ArrayCell? && arena[i].children.Some? &&
      var c := arena[i].children.value;
      forall k :: c.offset <= k < c.offset + c.length ==>
        k < |arena| && DescribesFields(children, arena, k)
  }

  predicate DescribesFields(children: seq<Entry>, arena: Arena, i: nat)
    decreases children
  {
    i < |arena| && arena[i].ObjectCell? && arena[i].children.Some? && arena[i].children.value.length == |children| &&
    forall k :: 0 <= k < |children| ==>
      && children[k].name in arena[i].fieldIndexes && arena[i].fieldIndexes[children[k].name] == k
      && Describes(children[k].schema, arena, arena[i].children.value.offset + k)
  }

  predicate UniqueNames(fs: seq<FieldDef>) {
    forall i, j :: 0 <= i < j < |fs| ==> fs[i].info.fieldName != fs[j].info.fieldName
  }

  /** A definition as it is built: typed fields with different names, indexed by position. */
  predicate Built(def: BaseDef) {
    def.fieldIndexes == IndexesOf(def.members) && UniqueNames(Fields(def.members)) &&
    forall i :: 0 <= i < |Fields(def.members)| ==> Typed(Fields(def.members)[i])
  }

  predicate AllBuilt(env: Definitions) {
    forall k :: k in env ==> Built(env[k])
  }

  /** What the constructors build is indexed and typed, so it is built as needed here iff its names are unique. */
  lemma ResolvedIsBuilt(ms: seq<ParsedMember>, name: string, keys: set<string>)
    ensures
      var d := ResolveDef(BaseOf(ms, name), keys);
      Built(d) <==> UniqueNames(Fields(d.members))
  {
    hide IndexesOf, Fields, UniqueNames;
    var raw := BaseOf(ms, name);
    var d := ResolveDef(raw, keys);
    FieldsOfResolved(raw.members, raw.scope, keys);
    forall i | 0 <= i < |Fields(d.members)|
      ensures Typed(Fields(d.members)[i])
    {
      var f := Fields(raw.members)[i];
      FieldsAreMembers(raw.members, f);
      var j :| 0 <= j < |raw.members| && raw.members[j] == Field(f);
      assert raw.members[j] == MemberOf(ms[j]);
    }
  }

  lemma {:induction false} EmbeddedIsParsed(es: seq<EmbeddedAst>, k: string)
    requires k in EmbeddedMap(es)
    ensures exists e :: e in es && e.typeName == k && EmbeddedMap(es)[k] == BaseOf(e.members, k)
  {
    hide BaseOf;
    var before, last := es[..|es| - 1], es[|es| - 1];
    if k in EmbeddedMap(before) {
      EmbeddedIsParsed(before, k);
      var e :| e in before && e.typeName == k && EmbeddedMap(before)[k] == BaseOf(e.members, k);
      assert e in es;
    } else {
      assert last in es;
    }
  }

  /** A resolved message definition is built as needed here iff no two fields of a definition share a name. */
  lemma ResolvedGraphIsBuilt(ast: MsgAst)
    ensures
      var g := ResolvedGraph(EmbeddedMap(ast.embedded));
      AllBuilt(g) <==> forall k :: k in g ==> UniqueNames(Fields(g[k].members))
  {
    hide Built, BaseOf, ResolveDef, Fields, UniqueNames;
    var embedded := EmbeddedMap(ast.embedded);
    forall k | k in embedded
      ensures
        var d := ResolveDef(embedded[k], embedded.Keys);
        Built(d) <==> UniqueNames(Fields(d.members))
    {
      EmbeddedIsParsed(ast.embedded, k);
      var e :| e in ast.embedded && e.typeName == k && embedded[k] == BaseOf(e.members, k);
      ResolvedIsBuilt(e.members, k, embedded.Keys);
    }
  }

  lemma {:induction false} AssignNew(children: seq<Entry>, name: string, schema: Schema)
    requires forall i :: 0 <= i < |children| ==> children[i].name != name
    ensures Assign(children, name, schema) == children + [Entry(name, schema)]
  {
    if children != [] {
      AssignNew(children[1..], name, schema);
    }
  }

  /** With unique names the schema lists the fields in order, each with its own schema. */
  lemma {:induction false} SchemasInOrder(env: Definitions, rank: Ranks, fs: seq<FieldDef>, bound: nat)
    requires Ranked(env, rank) && RankedBelow(env, rank, fs, bound) && UniqueNames(fs)
    ensures |SchemasOf(env, rank, fs, bound)| == |fs|
    ensures forall k :: 0 <= k < |fs| ==>
      RankedBelow(env, rank, [fs[k]], bound) &&
      SchemasOf(env, rank, fs, bound)[k] == Entry(fs[k].info.fieldName, SchemaOf(env, rank, fs[k], bound))
  {
    hide SchemaOf, SchemasOf, Assign, Ranked;
    if fs == [] {
      NoSchemas(env, rank, bound);
    } else {
      var n := |fs| - 1;
      assert fs == fs[..n] + [fs[n]];
      SchemasSnoc(env, rank, fs[..n], fs[n], bound);
      SchemasInOrder(env, rank, fs[..n], bound);
      AssignNew(SchemasOf(env, rank, fs[..n], bound), fs[n].info.fieldName, SchemaOf(env, rank, fs[n], bound));
    }
  }

  /** field_indexes sends each name to its position. */
  lemma IndexIsPosition(def: BaseDef, k: nat)
    requires Built(def) && k < |Fields(def.members)|
    ensures Fields(def.members)[k].info.fieldName in def.fieldIndexes
    ensures def.fieldIndexes[Fields(def.members)[k].info.fieldName] == k
  {
    IndexesPointAtFirstField(def.members);
  }

  lemma {:induction false} CellIsDescribed(env: Definitions, rank: Ranks, f: FieldDef, bound: nat, v: Value, kids: nat,
        pos: nat, arena: Arena, i: nat)
    requires Ranked(env, rank) && AllBuilt(env) && RankedBelow(env, rank, [f], bound) && Typed(f)
    requires Admits(env, f, v)
    requires i < |arena| && arena[i] == Cell(env, f, v, kids, pos) && Holds(arena, kids, Desc(env, f, v, kids, pos))
    ensures Describes(SchemaOf(env, rank, f, bound), arena, i)
    decreases v, 1
  {
    hide Admits, Cell, Desc, Ser, SerAll, Block, Concat, SchemasOf, Fields, DescribesFields, Ranked, AllBuilt, Fresh;
    assert [f][0] == f;
    if f.info.arraySize == 0 && f.fieldType == Object {
      FreshObject(env, f);
      ObjectFacts(env, f, v, kids, pos);
      ObjectIsDescribed(env, rank, f.typeDefinition.value, v.fields, kids, pos, arena, i);
    } else if f.info.arraySize == 0 {
      PrimitiveFacts(env, f, v, kids, pos);
    } else if f.fieldType == Object || f.fieldType == String {
      ArrayIsDescribed(env, rank, f, bound, v, kids, pos, arena, i);
    } else {
      PackedFacts(env, f, v, kids, pos);
    }
  }

  lemma {:induction false} ArrayIsDescribed(env: Definitions, rank: Ranks, f: FieldDef, bound: nat, v: Value,
        kids: nat, pos: nat, arena: Arena, i: nat)
    requires Ranked(env, rank) && AllBuilt(env) && RankedBelow(env, rank, [f], bound) && Typed(f)
    requires Admits(env, f, v) && f.info.arraySize != 0 && (f.fieldType == Object || f.fieldType == String)
    requires i < |arena| && arena[i] == Cell(env, f, v, kids, pos) && Holds(arena, kids, Desc(env, f, v, kids, pos))
    ensures Describes(SchemaOf(env, rank, f, bound), arena, i)
    decreases v, 0
  {
    hide Admits, Cell, Desc, Ser, SerAll, Block, Concat, SchemasOf, Fields, DescribesFields, Ranked, AllBuilt, Fresh;
    assert [f][0] == f;
    ArrayFacts(env, f, v, kids, pos);
    var n := |v.elements|;
    var at := pos + |Prefix(f, n)|;
    if f.fieldType == Object {
      DefIsRanked(env, rank, f.typeDefinition.value);
    }
    forall k | kids <= k < kids + n
      ensures k < |arena|
      ensures f.fieldType == String ==> arena[k].PrimitiveCell? && arena[k].fieldType == String
      ensures f.fieldType == Object ==>
        DescribesFields(SchemasOf(env, rank, Fields(DefOf(env, f).members), rank[f.typeDefinition.value]), arena, k)
    {
      ElementIsDescribed(env, rank, f, v.elements, kids, at, arena, k - kids);
    }
  }

  lemma {:induction false} ElementIsDescribed(env: Definitions, rank: Ranks, f: FieldDef, vs: seq<Value>, base: nat,
        pos: nat, arena: Arena, k: nat)
    requires Ranked(env, rank) && AllBuilt(env) && (f.fieldType == String || (f.fieldType == Object && Refers(env, f)))
    requires AdmitsAll(env, Copies(f, |vs|), vs) && k < |vs|
    requires Holds(arena, base, Block(env, Copies(f, |vs|), vs, base, pos))
    ensures base + k < |arena|
    ensures f.fieldType == String ==> arena[base + k].PrimitiveCell? && arena[base + k].fieldType == String
    ensures f.fieldType == Object ==>
      RankedBelow(env, rank, Fields(DefOf(env, f).members), rank[f.typeDefinition.value]) &&
      DescribesFields(SchemasOf(env, rank, Fields(DefOf(env, f).members), rank[f.typeDefinition.value]),
        arena, base + k)
    decreases vs, 0
  {
    hide Admits, Cell, Desc, Ser, SerAll, Concat, SchemasOf, Fields, DescribesFields, RankedBelow, AllBuilt, CountAll;
    var fs := Copies(f, |vs|);
    var kids, p := base + |vs| + CountAll(vs[..k]), pos + |SerAll(env, fs, vs[..k])|;
    BlockAt(env, fs, vs, base, pos, arena, k);
    assert Admits(env, fs[k], vs[k]) && fs[k] == Element(f);
    BlockLength(env, fs, vs, base, pos);
    if f.fieldType == String {
      PrimitiveFacts(env, Element(f), vs[k], kids, p);
    } else {
      ObjectFacts(env, Element(f), vs[k], kids, p);
      ObjectIsDescribed(env, rank, f.typeDefinition.value, vs[k].fields, kids, p, arena, base + k);
    }
  }

  lemma BlockLength(env: Definitions, fs: seq<FieldDef>, vs: seq<Value>, base: nat, pos: nat)
    ensures |Block(env, fs, vs, base, pos)| >= |vs|
  {
  }

  lemma {:induction false} ObjectIsDescribed(env: Definitions, rank: Ranks, name: string, vs: seq<Value>, kids: nat,
        pos: nat, arena: Arena, i: nat)
    requires Ranked(env, rank) && AllBuilt(env) && name in env
    requires AdmitsAll(env, Fields(env[name].members), vs)
    requires i < |arena| && arena[i] == ObjectCell(env[name].fieldIndexes, Some(Span(kids, |vs|)))
    requires Holds(arena, kids, Block(env, Fields(env[name].members), vs, kids, pos))
    ensures RankedBelow(env, rank, Fields(env[name].members), rank[name])
    ensures DescribesFields(SchemasOf(env, rank, Fields(env[name].members), rank[name]), arena, i)
    decreases vs, 1
  {
    RootIsDescribed(env, rank, env[name], rank[name], vs, kids, pos, arena, i);
  }

  lemma {:induction false} RootIsDescribed(env: Definitions, rank: Ranks, def: BaseDef, bound: nat, vs: seq<Value>,
        kids: nat, pos: nat, arena: Arena, i: nat)
    requires Ranked(env, rank) && AllBuilt(env) && Built(def) && RankedBelow(env, rank, Fields(def.members), bound)
    requires AdmitsAll(env, Fields(def.members), vs)
    requires i < |arena| && arena[i] == ObjectCell(def.fieldIndexes, Some(Span(kids, |vs|)))
    requires Holds(arena, kids, Block(env, Fields(def.members), vs, kids, pos))
    ensures DescribesFields(SchemasOf(env, rank, Fields(def.members), bound), arena, i)
    decreases vs, 0
  {
    hide Admits, Cell, Desc, Ser, SerAll, Block, SchemasOf, SchemaOf, Describes, Ranked, AllBuilt, CountAll, Fields;
    var fs := Fields(def.members);
    SchemasInOrder(env, rank, fs, bound);
    forall k | 0 <= k < |fs|
      ensures fs[k].info.fieldName in def.fieldIndexes && def.fieldIndexes[fs[k].info.fieldName] == k
      ensures Describes(SchemasOf(env, rank, fs, bound)[k].schema, arena, kids + k)
    {
      IndexIsPosition(def, k);
      BlockLength(env, fs, vs, kids, pos);
      BlockAt(env, fs, vs, kids, pos, arena, k);
      assert Admits(env, fs[k], vs[k]);
      CellIsDescribed(env, rank, fs[k], bound, vs[k], kids + |vs| + CountAll(vs[..k]), pos + |SerAll(env, fs,
        vs[..k])|, arena, kids + k);
    }
  }

  /** The schema of a message definition describes the arena of every message of that definition. */
  lemma SchemaDescribesEveryMessage(env: Definitions, rank: Ranks, def: BaseDef, bound: nat, vs: seq<Value>, pos: nat)
    requires Ranked(env, rank) && AllBuilt(env) && Built(def) && RankedBelow(env, rank, Fields(def.members), bound)
    requires AdmitsAll(env, Fields(def.members), vs)
    ensures DescribesFields(SchemasOf(env, rank, Fields(def.members), bound), MessageArena(env, def, vs, pos), 0)
  {
    hide Block, AdmitsAll, DescribesFields, SchemasOf, Ranked, AllBuilt, Built;
    var arena := MessageArena(env, def, vs, pos);
    assert Holds(arena, 1, Block(env, Fields(def.members), vs, 1, pos));
    RootIsDescribed(env, rank, def, bound, vs, 1, pos, arena, 0);
  }
}
