/**
 * Message definitions: the parsed form of a definition, and its resolution into a graph in which every
 * object field refers to an embedded definition.  A C++ pointer into the definition map is a key of that map.
 */
module MsgTypes {
  import opened Wrappers

  datatype Type =
    | RosBool | Int8 | UInt8 | Int16 | UInt16 | Int32 | UInt32 | Int64 | UInt64 | Float32 | Float64
    | String | RosTime | RosDuration
    | Object | Array | PrimitiveArray

  /** Types whose values all have one size. */
  predicate IsFixed(t: Type) {
    t !in {String, Object, Array, PrimitiveArray}
  }

  function SizeOf(t: Type): (n: nat)
    requires IsFixed(t)
    ensures n in {1, 2, 4, 8}
  {
    match t
    case RosBool | Int8 | UInt8 => 1
    case Int16 | UInt16 => 2
    case Int32 | UInt32 | Float32 => 4
    case Int64 | UInt64 | Float64 | RosTime | RosDuration => 8
  }

  const PRIMITIVE_TYPE_MAP: map<string, Type> := map[
    "bool" := RosBool, "int8" := Int8, "uint8" := UInt8, "int16" := Int16, "uint16" := UInt16,
    "int32" := Int32, "uint32" := UInt32, "int64" := Int64, "uint64" := UInt64,
    "float32" := Float32, "float64" := Float64, "string" := String, "time" := RosTime,
    "duration" := RosDuration, "byte" := Int8, "char" := UInt8]

  // ---------- The parsed form ----------

  /** arraySize is -1 for T[], 0 for T and n for T[n]. */
  datatype FieldInfo = FieldInfo(typeName: string, arraySize: int, fieldName: string)
  datatype ConstantDef = ConstantDef(typeName: string, constantName: string, value: string)
  datatype ParsedMember = ParsedField(info: FieldInfo) | ParsedConstant(constant: ConstantDef)
  datatype EmbeddedAst = EmbeddedAst(typeName: string, members: seq<ParsedMember>)
  datatype MsgAst = MsgAst(members: seq<ParsedMember>, embedded: seq<EmbeddedAst>)

  // ---------- Definitions ----------

  datatype FieldDef = FieldDef(info: FieldInfo, fieldType: Type, typeDefinition: Option<string>)
  datatype Member = Field(field: FieldDef) | Constant(constant: ConstantDef)
  datatype BaseDef = BaseDef(name: string, scope: string, members: seq<Member>, fieldIndexes: map<string, nat>)

  type Definitions = map<string, BaseDef>

  datatype ResolveError = UnknownType(typeName: string, scope: string)

  function FieldOf(info: FieldInfo): (f: FieldDef)
    ensures f.info == info && f.fieldType in PRIMITIVE_TYPE_MAP.Values + {Object}
    ensures f.fieldType !in {Array, PrimitiveArray}
  {
    if info.typeName in PRIMITIVE_TYPE_MAP then
      FieldDef(info, PRIMITIVE_TYPE_MAP[info.typeName], None)
    else
      FieldDef(info, Object, None)
  }

  function MemberOf(m: ParsedMember): Member {
    match m
    case ParsedField(info) => Field(FieldOf(info))
    case ParsedConstant(c) => Constant(c)
  }

  function MembersOf(ms: seq<ParsedMember>): seq<Member> {
    seq(|ms|, i requires 0 <= i < |ms| => MemberOf(ms[i]))
  }

  /** The fields of a definition, in order; constants take no part in a message. */
  function Fields(ms: seq<Member>): seq<FieldDef> {
    if ms == [] then [] else
      match ms[|ms| - 1]
      case Field(f) => Fields(ms[..|ms| - 1]) + [f]
      case Constant(_) => Fields(ms[..|ms| - 1])
  }

  lemma {:induction false} FieldsAreMembers(ms: seq<Member>, f: FieldDef)
    ensures f in Fields(ms) <==> Field(f) in ms
  {
    if ms != [] {
      FieldsAreMembers(ms[..|ms| - 1], f);
      assert ms == ms[..|ms| - 1] + [ms[|ms| - 1]];
    }
  }

  /** The part of a name before its first slash, or nothing. */
  function ScopeOf(name: string): (s: string)
    ensures '/' !in s
    ensures '/' in name <==> s + "/" <= name
    ensures '/' !in name ==> s == ""
  {
    var n := UpToSlash(name);
    if n < |name| then name[..n] else ""
  }

  function UpToSlash(name: string): (n: nat)
    ensures n <= |name| && '/' !in name[..n]
    ensures n < |name| ==> name[n] == '/'
    ensures n == |name| <==> '/' !in name
  {
    if name == "" || name[0] == '/' then 0 else
      var n := UpToSlash(name[1..]);
      assert name == [name[0]] + name[1..];
      assert name[..1 + n] == [name[0]] + name[1..][..n];
      1 + n
  }

  /** A map in which the first field of each name keeps its position, as emplace leaves it. */
  function IndexesOf(ms: seq<Member>): map<string, nat> {
    if ms == [] then map[] else
      var before := ms[..|ms| - 1];
      var indexes := IndexesOf(before);
      match ms[|ms| - 1]
      case Constant(_) => indexes
      case Field(f) => if f.info.fieldName in indexes then indexes else indexes[f.info.fieldName := |Fields(before)|]
  }

  function BaseOf(ms: seq<ParsedMember>, name: string): BaseDef {
    BaseDef(name, ScopeOf(name), MembersOf(ms), IndexesOf(MembersOf(ms)))
  }

  /** A name is indexed iff some field carries it, and the index is the position of the first such field. */
  lemma {:induction false} IndexesPointAtFirstField(ms: seq<Member>)
    ensures forall i :: 0 <= i < |Fields(ms)| ==> Fields(ms)[i].info.fieldName in IndexesOf(ms)
    ensures forall n :: n in IndexesOf(ms) ==>
      && IndexesOf(ms)[n] < |Fields(ms)|
      && Fields(ms)[IndexesOf(ms)[n]].info.fieldName == n
      && forall j :: 0 <= j < IndexesOf(ms)[n] ==> Fields(ms)[j].info.fieldName != n
  {
    if ms != [] {
      IndexesPointAtFirstField(ms[..|ms| - 1]);
    }
  }

  lemma AppendMember(ms: seq<Member>, m: Member)
    ensures Fields(ms + [m]) == if m.Field? then Fields(ms) + [m.field] else Fields(ms)
    ensures IndexesOf(ms + [m]) ==
      if m.Field? && m.field.info.fieldName !in IndexesOf(ms)
      then IndexesOf(ms)[m.field.info.fieldName := |Fields(ms)|]
      else IndexesOf(ms)
  {
    assert (ms + [m])[..|ms|] == ms;
  }

  lemma EmptyMembers()
    ensures Fields([]) == [] && IndexesOf([]) == map[]
  {
  }

  /** The constructor of BaseMsgDef: one pass that fills the members and their indexes. */
  method NewBaseDef(ms: seq<ParsedMember>, name: string) returns (d: BaseDef)
    ensures d == BaseOf(ms, name)
  {
    hide FieldOf, IndexesOf, Fields, ScopeOf;
    EmptyMembers();
    var members: seq<Member> := [];
    var indexes: map<string, nat> := map[];
    var fieldNum := 0;
    for i := 0 to |ms|
      invariant members == MembersOf(ms)[..i]
      invariant indexes == IndexesOf(members)
      invariant fieldNum == |Fields(members)|
    {
      ghost var before := members;
      AppendMember(before, MemberOf(ms[i]));
      match ms[i]
      case ParsedField(info) =>
        members := members + [Field(FieldOf(info))];
        if info.fieldName !in indexes {
          indexes := indexes[info.fieldName := fieldNum];
        }
        fieldNum := fieldNum + 1;
      case ParsedConstant(c) =>
        members := members + [Constant(c)];
    }
    assert members == MembersOf(ms);
    d := BaseDef(name, ScopeOf(name), members, indexes);
  }

  // ---------- Resolution ----------

  /** The definition a type name refers to: the scoped entry if there is one, otherwise the plain entry. */
  function Lookup(typeName: string, scope: string, keys: set<string>): Option<string> {
    if scope + "/" + typeName in keys then Some(scope + "/" + typeName)
    else if typeName in keys then Some(typeName)
    else None
  }

  /** k is the type name with its scope in front: scope, a slash, type name. */
  predicate Scoped(k: string, scope: string, typeName: string) {
    && |k| == |scope| + 1 + |typeName|
    && k[..|scope|] == scope && k[|scope|] == '/' && k[|scope| + 1..] == typeName
  }

  /** The scoped name is found if it is there, otherwise the plain name if that is there. */
  lemma LookupMeaning(typeName: string, scope: string, keys: set<string>)
    ensures exists k :: Scoped(k, scope, typeName)
    ensures forall k :: Scoped(k, scope, typeName) ==>
      Lookup(typeName, scope, keys) == if k in keys then Some(k) else if typeName in keys then Some(typeName) else None
  {
    var joined := scope + "/" + typeName;
    assert Scoped(joined, scope, typeName);
    forall k | Scoped(k, scope, typeName)
      ensures k == joined
    {
      assert k == k[..|scope|] + [k[|scope|]] + k[|scope| + 1..];
    }
  }

  /** FieldDef::setTypeDefinition on an object field: plain name first, then the scoped name on top of it. */
  method SetTypeDefinition(f: FieldDef, definitions: Definitions, scope: string)
    returns (r: Result<FieldDef, ResolveError>)
    requires f.fieldType == Object && f.typeDefinition == None
    ensures Lookup(f.info.typeName, scope, definitions.Keys) == None ==> r == Err(UnknownType(f.info.typeName, scope))
    ensures Lookup(f.info.typeName, scope, definitions.Keys) != None ==>
      r == Ok(ResolveField(f, scope, definitions.Keys))
    ensures forall k :: Scoped(k, scope, f.info.typeName) ==>
      && (k in definitions ==> r == Ok(f.(typeDefinition := Some(k))))
      && (k !in definitions && f.info.typeName in definitions ==>
          r == Ok(f.(typeDefinition := Some(f.info.typeName))))
      && (k !in definitions && f.info.typeName !in definitions ==> r == Err(UnknownType(f.info.typeName, scope)))
  {
    LookupMeaning(f.info.typeName, scope, definitions.Keys);
    var typeDefinition := f.typeDefinition;
    if f.info.typeName in definitions {
      typeDefinition := Some(f.info.typeName);
    }
    var scopedName := scope + "/" + f.info.typeName;
    if scopedName in definitions {
      typeDefinition := Some(scopedName);
    }
    if typeDefinition == None {
      return Err(UnknownType(f.info.typeName, scope));
    }
    r := Ok(f.(typeDefinition := typeDefinition));
  }

  function ResolveField(f: FieldDef, scope: string, keys: set<string>): FieldDef {
    if f.fieldType == Object then f.(typeDefinition := Lookup(f.info.typeName, scope, keys)) else f
  }

  function ResolveMember(m: Member, scope: string, keys: set<string>): Member {
    match m
    case Field(f) => Field(ResolveField(f, scope, keys))
    case Constant(_) => m
  }

  function ResolveMembers(ms: seq<Member>, scope: string, keys: set<string>): seq<Member> {
    seq(|ms|, i requires 0 <= i < |ms| => ResolveMember(ms[i], scope, keys))
  }

  function ResolveDef(d: BaseDef, keys: set<string>): BaseDef {
    d.(members := ResolveMembers(d.members, d.scope, keys))
  }

  /** No field has been resolved yet: the state in which definitions are built. */
  predicate Unresolved(d: BaseDef) {
    forall m :: m in d.members && m.Field? ==> m.field.typeDefinition == None
  }

  /** The field m names an object type that has neither a scoped nor a plain entry. */
  predicate Dangling(m: Member, scope: string, keys: set<string>) {
    m.Field? && m.field.fieldType == Object && Lookup(m.field.info.typeName, scope, keys) == None
  }

  predicate HasDangling(d: BaseDef, keys: set<string>) {
    exists m :: m in d.members && Dangling(m, d.scope, keys)
  }

  /** An error names a dangling field of the definition. */
  predicate Blames(e: ResolveError, d: BaseDef, keys: set<string>) {
    exists m :: m in d.members && Dangling(m, d.scope, keys) && e == UnknownType(m.field.info.typeName, d.scope)
  }

  method InitializeFieldTypeDefinitions(d: BaseDef, definitions: Definitions) returns (r: Result<BaseDef, ResolveError>)
    requires Unresolved(d)
    ensures r.Ok? <==> !HasDangling(d, definitions.Keys)
    ensures r.Ok? ==> r.value == ResolveDef(d, definitions.Keys)
    ensures r.Err? ==> Blames(r.error, d, definitions.Keys)
  {
    var members := d.members;
    ghost var resolved := ResolveDef(d, definitions.Keys).members;
    for i := 0 to |members|
      invariant |members| == |d.members|
      invariant members[..i] == resolved[..i] && members[i..] == d.members[i..]
      invariant forall j :: 0 <= j < i ==> !Dangling(d.members[j], d.scope, definitions.Keys)
    {
      assert members[i] == members[i..][0] == d.members[i];
      if members[i].Field? && members[i].field.fieldType == Object {
        assert d.members[i] in d.members;
        var f := SetTypeDefinition(members[i].field, definitions, d.scope);
        if f.Err? {
          assert Dangling(d.members[i], d.scope, definitions.Keys);
          return Err(f.error);
        }
        members := members[i := Field(f.value)];
      }
    }
    r := Ok(d.(members := members));
    assert members == resolved;
  }

  /** The embedded definitions by name; the first one of each name is kept. */
  function EmbeddedMap(es: seq<EmbeddedAst>): Definitions {
    if es == [] then map[] else
      var before := EmbeddedMap(es[..|es| - 1]);
      var e := es[|es| - 1];
      if e.typeName in before then before else before[e.typeName := BaseOf(e.members, e.typeName)]
  }

  predicate Named(es: seq<EmbeddedAst>, k: string) {
    exists i :: 0 <= i < |es| && es[i].typeName == k
  }

  /** Definition i is the first of its name. */
  predicate FirstNamed(es: seq<EmbeddedAst>, i: nat) {
    i < |es| && forall j :: 0 <= j < i ==> es[j].typeName != es[i].typeName
  }

  lemma NamedSnoc(es: seq<EmbeddedAst>, e: EmbeddedAst, k: string)
    ensures Named(es + [e], k) <==> Named(es, k) || k == e.typeName
  {
    if i :| 0 <= i < |es| && es[i].typeName == k {
      assert (es + [e])[i].typeName == k;
    }
    if k == e.typeName {
      assert (es + [e])[|es|].typeName == k;
    }
  }

  lemma {:induction false} EmbeddedKeys(es: seq<EmbeddedAst>, k: string)
    ensures k in EmbeddedMap(es) <==> Named(es, k)
  {
    hide BaseOf, Named;
    if es == [] {
      assert !Named([], k) by { NothingNamed(k); }
    } else {
      var n := |es| - 1;
      EmbeddedKeys(es[..n], k);
      NamedSnoc(es[..n], es[n], k);
      assert es == es[..n] + [es[n]];
    }
  }

  lemma NothingNamed(k: string)
    ensures !Named([], k)
  {
  }

  lemma {:induction false} FirstIsKept(es: seq<EmbeddedAst>, i: nat)
    requires FirstNamed(es, i)
    ensures es[i].typeName in EmbeddedMap(es)
    ensures EmbeddedMap(es)[es[i].typeName] == BaseOf(es[i].members, es[i].typeName)
  {
    hide BaseOf;
    var n := |es| - 1;
    EmbeddedKeys(es[..n], es[i].typeName);
    if i < n {
      assert es[..n][i] == es[i];
      FirstIsKept(es[..n], i);
    }
  }

  /** The map has exactly the names of the embedded definitions, each with the first definition of that name. */
  lemma EmbeddedMapMeaning(es: seq<EmbeddedAst>)
    ensures forall k :: k in EmbeddedMap(es) <==> Named(es, k)
    ensures forall i: nat :: FirstNamed(es, i) ==>
      es[i].typeName in EmbeddedMap(es) && EmbeddedMap(es)[es[i].typeName] == BaseOf(es[i].members, es[i].typeName)
  {
    hide BaseOf, EmbeddedMap, Named, FirstNamed;
    forall k
      ensures k in EmbeddedMap(es) <==> Named(es, k)
    {
      EmbeddedKeys(es, k);
    }
    forall i: nat | FirstNamed(es, i)
      ensures i < |es| && es[i].typeName in EmbeddedMap(es)
      ensures EmbeddedMap(es)[es[i].typeName] == BaseOf(es[i].members, es[i].typeName)
    {
      assert i < |es| by { FirstIsThere(es, i); }
      FirstIsKept(es, i);
    }
  }

  lemma FirstIsThere(es: seq<EmbeddedAst>, i: nat)
    requires FirstNamed(es, i)
    ensures i < |es|
  {
  }

  lemma {:induction false} SomeFirst(es: seq<EmbeddedAst>, k: string) returns (i: nat)
    requires Named(es, k)
    ensures FirstNamed(es, i) && es[i].typeName == k
  {
    var n := |es| - 1;
    if Named(es[..n], k) {
      i := SomeFirst(es[..n], k);
      assert forall j :: 0 <= j < n ==> es[..n][j] == es[j];
    } else {
      i := n;
      var j :| 0 <= j < |es| && es[j].typeName == k;
      assert forall m :: 0 <= m < n ==> es[..n][m].typeName != k;
    }
  }

  /** A type name has an embedded definition: under its scoped name or under itself. */
  predicate HasEntry(es: seq<EmbeddedAst>, scope: string, typeName: string) {
    exists i :: 0 <= i < |es| && (es[i].typeName == typeName || Scoped(es[i].typeName, scope, typeName))
  }

  /** Every field of a definition has a primitive type or an entry. */
  predicate AllHaveEntries(ms: seq<ParsedMember>, name: string, es: seq<EmbeddedAst>) {
    forall i :: 0 <= i < |ms| && ms[i].ParsedField? && ms[i].info.typeName !in PRIMITIVE_TYPE_MAP ==>
      HasEntry(es, ScopeOf(name), ms[i].info.typeName)
  }

  lemma EntryMeaning(es: seq<EmbeddedAst>, scope: string, typeName: string)
    ensures HasEntry(es, scope, typeName) <==> Lookup(typeName, scope, EmbeddedMap(es).Keys).Some?
  {
    hide EmbeddedMap;
    var keys := EmbeddedMap(es).Keys;
    EmbeddedMapMeaning(es);
    LookupMeaning(typeName, scope, keys);
    var k :| Scoped(k, scope, typeName);
    if i :| 0 <= i < |es| && (es[i].typeName == typeName || Scoped(es[i].typeName, scope, typeName)) {
      assert Named(es, es[i].typeName);
    }
    if Named(es, k) {
      var i :| 0 <= i < |es| && es[i].typeName == k;
    }
  }

  lemma DanglingMeaning(ms: seq<ParsedMember>, name: string, es: seq<EmbeddedAst>)
    ensures HasDangling(BaseOf(ms, name), EmbeddedMap(es).Keys) <==> !AllHaveEntries(ms, name, es)
  {
    hide EmbeddedMap, IndexesOf, Lookup, HasEntry;
    var d, keys := BaseOf(ms, name), EmbeddedMap(es).Keys;
    EmbeddedMapMeaning(es);
    forall i | 0 <= i < |ms|
      ensures Dangling(d.members[i], d.scope, keys) <==>
        ms[i].ParsedField? && ms[i].info.typeName !in PRIMITIVE_TYPE_MAP && !HasEntry(es, d.scope, ms[i].info.typeName)
    {
      if ms[i].ParsedField? {
        EntryMeaning(es, d.scope, ms[i].info.typeName);
      }
    }
    if HasDangling(d, keys) {
      var m :| m in d.members && Dangling(m, d.scope, keys);
      var i :| 0 <= i < |d.members| && d.members[i] == m;
    }
    if !AllHaveEntries(ms, name, es) {
      var i :| 0 <= i < |ms| && ms[i].ParsedField? && ms[i].info.typeName !in PRIMITIVE_TYPE_MAP &&
        !HasEntry(es, ScopeOf(name), ms[i].info.typeName);
      assert d.members[i] in d.members;
    }
  }

  /** Resolution succeeds iff every field of the root, and of the first embedded definition of each name, has a
      primitive type or an entry. */
  lemma ResolvableMeaning(ast: MsgAst, name: string)
    ensures Resolvable(ast, name) <==>
      && AllHaveEntries(ast.members, name, ast.embedded)
      && forall i: nat :: FirstNamed(ast.embedded, i) ==>
        AllHaveEntries(ast.embedded[i].members, ast.embedded[i].typeName, ast.embedded)
  {
    hide EmbeddedMap, HasDangling, AllHaveEntries, BaseOf;
    var es, definitions := ast.embedded, EmbeddedMap(ast.embedded);
    EmbeddedMapMeaning(es);
    DanglingMeaning(ast.members, name, es);
    forall i: nat | FirstNamed(es, i)
      ensures HasDangling(definitions[es[i].typeName], definitions.Keys) <==>
        !AllHaveEntries(es[i].members, es[i].typeName, es)
    {
      DanglingMeaning(es[i].members, es[i].typeName, es);
    }
    forall k | k in definitions
      ensures exists i: nat :: FirstNamed(es, i) && es[i].typeName == k
    {
      var i := SomeFirst(es, k);
    }
  }

  /** Every object field of the root and of every definition refers to a definition. */
  predicate ClosedDef(d: BaseDef, definitions: Definitions) {
    forall f :: f in Fields(d.members) && f.fieldType == Object ==>
      f.typeDefinition.Some? && f.typeDefinition.value in definitions
  }

  predicate Closed(root: BaseDef, definitions: Definitions) {
    ClosedDef(root, definitions) && forall k :: k in definitions ==> ClosedDef(definitions[k], definitions)
  }

  /** The graph that resolution is meant to produce, with no order of work in it. */
  function ResolvedGraph(definitions: Definitions): (g: Definitions)
    ensures g.Keys == definitions.Keys
  {
    map k | k in definitions :: ResolveDef(definitions[k], definitions.Keys)
  }

  class MsgDef {
    var root: BaseDef
    var definitions: Definitions

    constructor (ast: MsgAst, name: string)
      ensures root == BaseOf(ast.members, name)
      ensures definitions == EmbeddedMap(ast.embedded)
    {
      var d := NewBaseDef(ast.members, name);
      var defs: Definitions := map[];
      for i := 0 to |ast.embedded|
        invariant defs == EmbeddedMap(ast.embedded[..i])
      {
        assert ast.embedded[..i + 1][..i] == ast.embedded[..i];
        var e := ast.embedded[i];
        var b := NewBaseDef(e.members, e.typeName);
        if e.typeName !in defs {
          defs := defs[e.typeName := b];
        }
      }
      assert ast.embedded[..|ast.embedded|] == ast.embedded;
      root := d;
      definitions := defs;
    }

    /** The body of the MsgDef constructor; the map is visited in an arbitrary order. */
    method Resolve() returns (error: Option<ResolveError>)
      requires Unresolved(root) && forall k :: k in definitions ==> Unresolved(definitions[k])
      modifies this
      ensures error == None <==>
        !HasDangling(old(root), old(definitions).Keys) &&
        forall k :: k in old(definitions) ==> !HasDangling(old(definitions)[k], old(definitions).Keys)
      ensures error == None ==>
        root == ResolveDef(old(root), old(definitions).Keys) && definitions == ResolvedGraph(old(definitions))
      ensures error.Some? ==>
        Blames(error.value, old(root), old(definitions).Keys) ||
        exists k :: k in old(definitions) && Blames(error.value, old(definitions)[k], old(definitions).Keys)
    {
      var keys := definitions.Keys;
      var r := InitializeFieldTypeDefinitions(root, definitions);
      if r.Err? {
        return Some(r.error);
      }
      root := r.value;
      var todo := keys;
      while todo != {}
        invariant todo <= keys == definitions.Keys == old(definitions).Keys
        invariant forall k :: k in todo ==> definitions[k] == old(definitions)[k]
        invariant forall k :: k in keys - todo ==>
          definitions[k] == ResolveDef(old(definitions)[k], keys) && !HasDangling(old(definitions)[k], keys)
        invariant root == ResolveDef(old(root), keys)
      {
        var k :| k in todo;
        var e := InitializeFieldTypeDefinitions(definitions[k], definitions);
        if e.Err? {
          return Some(e.error);
        }
        definitions := definitions[k := e.value];
        todo := todo - {k};
      }
      assert definitions == ResolvedGraph(old(definitions));
      error := None;
    }
  }

  /** parseMsgDef after the grammar: build the definitions and resolve them. */
  method BuildMsgDef(ast: MsgAst, name: string) returns (r: Result<MsgDef, ResolveError>)
    ensures r.Ok? <==> Resolvable(ast, name)
    ensures r.Ok? <==>
      && AllHaveEntries(ast.members, name, ast.embedded)
      && forall i: nat :: FirstNamed(ast.embedded, i) ==>
        AllHaveEntries(ast.embedded[i].members, ast.embedded[i].typeName, ast.embedded)
    ensures r.Ok? ==>
      && fresh(r.value)
      && r.value.root == ResolveDef(BaseOf(ast.members, name), EmbeddedMap(ast.embedded).Keys)
      && r.value.definitions == ResolvedGraph(EmbeddedMap(ast.embedded))
      && Closed(r.value.root, r.value.definitions)
  {
    hide AllHaveEntries, FirstNamed;
    ResolvableMeaning(ast, name);
    var m := new MsgDef(ast, name);
    FreshDefinitionsAreUnresolved(ast, name);
    var e := m.Resolve();
    if e.Some? {
      return Err(e.value);
    }
    ResolutionIsClosed(ast, name);
    r := Ok(m);
  }

  predicate Resolvable(ast: MsgAst, name: string) {
    var definitions := EmbeddedMap(ast.embedded);
    !HasDangling(BaseOf(ast.members, name), definitions.Keys) &&
    forall k :: k in definitions ==> !HasDangling(definitions[k], definitions.Keys)
  }

  lemma {:induction false} EmbeddedMapIsUnresolved(es: seq<EmbeddedAst>)
    ensures forall k :: k in EmbeddedMap(es) ==> Unresolved(EmbeddedMap(es)[k])
  {
    if es != [] {
      EmbeddedMapIsUnresolved(es[..|es| - 1]);
    }
  }

  lemma FreshDefinitionsAreUnresolved(ast: MsgAst, name: string)
    ensures Unresolved(BaseOf(ast.members, name))
    ensures forall k :: k in EmbeddedMap(ast.embedded) ==> Unresolved(EmbeddedMap(ast.embedded)[k])
  {
    EmbeddedMapIsUnresolved(ast.embedded);
  }

  /** The definition that a field of a resolved definition refers to: the one with the scoped name if there is one,
      otherwise the one with the plain name. */
  lemma ResolvedRefersAsMeant(ms: seq<ParsedMember>, name: string, es: seq<EmbeddedAst>, i: nat)
    requires i < |ms| && ms[i].ParsedField?
    ensures
      var d := ResolveDef(BaseOf(ms, name), EmbeddedMap(es).Keys);
      var t := ms[i].info.typeName;
      && i < |d.members| && d.members[i].Field? && d.members[i].field.info == ms[i].info
      && (t in PRIMITIVE_TYPE_MAP ==> d.members[i].field.typeDefinition == None)
      && (t !in PRIMITIVE_TYPE_MAP ==> forall k :: Scoped(k, ScopeOf(name), t) ==>
        d.members[i].field.typeDefinition ==
          if Named(es, k) then Some(k) else if Named(es, t) then Some(t) else None)
  {
    hide EmbeddedMap, IndexesOf, Lookup, Scoped, Named;
    EmbeddedMapMeaning(es);
    LookupMeaning(ms[i].info.typeName, ScopeOf(name), EmbeddedMap(es).Keys);
  }

  /** Resolution touches nothing but the references: same fields in the same order, same indexes. */
  lemma {:induction false} FieldsOfResolved(ms: seq<Member>, scope: string, keys: set<string>)
    ensures
      var rs := ResolveMembers(ms, scope, keys);
      && |Fields(rs)| == |Fields(ms)|
      && IndexesOf(rs) == IndexesOf(ms)
      && forall i :: 0 <= i < |Fields(ms)| ==> Fields(rs)[i] == ResolveField(Fields(ms)[i], scope, keys)
  {
    if ms != [] {
      var init := ms[..|ms| - 1];
      FieldsOfResolved(init, scope, keys);
      assert ResolveMembers(ms, scope, keys)[..|ms| - 1] == ResolveMembers(init, scope, keys);
    }
  }

  lemma ResolvedDefIsClosed(d: BaseDef, definitions: Definitions)
    requires !HasDangling(d, definitions.Keys)
    ensures ClosedDef(ResolveDef(d, definitions.Keys), ResolvedGraph(definitions))
  {
    var keys := definitions.Keys;
    var r := ResolveDef(d, keys);
    forall f | f in Fields(r.members) && f.fieldType == Object
      ensures f.typeDefinition.Some? && f.typeDefinition.value in ResolvedGraph(definitions)
    {
      FieldsAreMembers(r.members, f);
      var i :| 0 <= i < |r.members| && r.members[i] == Field(f);
      assert d.members[i] in d.members && !Dangling(d.members[i], d.scope, keys);
    }
  }

  /** Successful resolution leaves a closed graph, in which each object field refers to the scoped entry when
      that exists and to the plain entry otherwise. */
  lemma ResolutionIsClosed(ast: MsgAst, name: string)
    requires Resolvable(ast, name)
    ensures
      var definitions := EmbeddedMap(ast.embedded);
      Closed(ResolveDef(BaseOf(ast.members, name), definitions.Keys), ResolvedGraph(definitions))
  {
    var definitions := EmbeddedMap(ast.embedded);
    ResolvedDefIsClosed(BaseOf(ast.members, name), definitions);
    forall k | k in definitions
      ensures ClosedDef(ResolvedGraph(definitions)[k], ResolvedGraph(definitions))
    {
      ResolvedDefIsClosed(definitions[k], definitions);
    }
  }
}
