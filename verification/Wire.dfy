/**
 * Message values, their ROS serialization, and the arena that a value is laid out in.
 *
 * The layout is a function of the value, the index of the next free cell and the position of its bytes: a block holds
 * the cells of all siblings first (Row) and then what lies below each of them in turn (Below).
 */
module Wire {
  import opened Wrappers
  import opened Bytes
  import opened MsgTypes
  import opened RosValues

  datatype Value =
    | Scalar(fieldType: Type, bytes: seq<byte>)
    | Text(bytes: seq<byte>)
    | Record(fields: seq<Value>)
    | Many(elements: seq<Value>)
    | Packed(elementType: Type, items: seq<seq<byte>>)

  // ---------- Which values a field admits ----------

  predicate Admits(env: Definitions, f: FieldDef, v: Value)
    decreases v
  {
    if f.info.arraySize == 0 then
      match f.fieldType
      case Object => v.Record? && Refers(env, f) &&
        AdmitsAll(env, Fields(env[f.typeDefinition.value].members), v.fields)
      case String => v.Text? && |v.bytes| < TWO_TO_32
      case t => v.Scalar? && v.fieldType == t && IsFixed(t) && |v.bytes| == SizeOf(t)
    else if f.fieldType == Object || f.fieldType == String then
      v.Many? && Length(f, |v.elements|) && (f.fieldType == Object ==> Refers(env, f)) &&
      AdmitsAll(env, Copies(f, |v.elements|), v.elements)
    else
      v.Packed? && v.elementType == f.fieldType && IsFixed(f.fieldType) && Length(f, |v.items|) &&
      forall i :: 0 <= i < |v.items| ==> |v.items[i]| == SizeOf(f.fieldType)
  }

  predicate AdmitsAll(env: Definitions, fs: seq<FieldDef>, vs: seq<Value>)
    decreases vs
  {
    |fs| == |vs| && forall i :: 0 <= i < |vs| ==> Admits(env, fs[i], vs[i])
  }

  predicate Refers(env: Definitions, f: FieldDef) {
    f.typeDefinition.Some? && f.typeDefinition.value in env
  }

  /** A dynamic array has a 32-bit length, a fixed one exactly its declared length. */
  predicate Length(f: FieldDef, n: nat) {
    n < TWO_TO_32 && (f.info.arraySize == -1 || f.info.arraySize == n)
  }

  /** The field of one element of an array field. */
  function Element(f: FieldDef): FieldDef {
    f.(info := f.info.(arraySize := 0))
  }

  function Copies(f: FieldDef, n: nat): seq<FieldDef> {
    seq(n, _ => Element(f))
  }

  const NO_FIELD := FieldDef(FieldInfo("", 0, ""), Object, None)

  function Nth(fs: seq<FieldDef>, i: nat): FieldDef {
    if i < |fs| then fs[i] else NO_FIELD
  }

  /** The definition behind an object field. */
  function DefOf(env: Definitions, f: FieldDef): BaseDef {
    if Refers(env, f) then env[f.typeDefinition.value] else BaseDef("", "", [], map[])
  }

  // ---------- Serialization ----------

  /** The length prefix, which only dynamic arrays have. */
  function Prefix(f: FieldDef, n: nat): seq<byte> {
    if f.info.arraySize == -1 then U32(n % TWO_TO_32) else []
  }

  function Ser(env: Definitions, f: FieldDef, v: Value): seq<byte>
    decreases v
  {
    match v
    case Scalar(_, bytes) => bytes
    case Text(bytes) => U32(|bytes| % TWO_TO_32) + bytes
    case Record(fields) => SerAll(env, Fields(DefOf(env, f).members), fields)
    case Many(elements) => Prefix(f, |elements|) + SerAll(env, Copies(f, |elements|), elements)
    case Packed(_, items) => Prefix(f, |items|) + Concat(items)
  }

  function SerAll(env: Definitions, fs: seq<FieldDef>, vs: seq<Value>): seq<byte>
    decreases vs
  {
    if vs == [] then [] else
      SerAll(env, fs, vs[..|vs| - 1]) + Ser(env, Nth(fs, |vs| - 1), vs[|vs| - 1])
  }

  function Concat(items: seq<seq<byte>>): seq<byte> {
    if items == [] then [] else Concat(items[..|items| - 1]) + items[|items| - 1]
  }

  // ---------- Layout ----------

  /** The number of cells below the cell of a value. */
  function Count(v: Value): nat
    decreases v
  {
    match v
    case Record(fields) => |fields| + CountAll(fields)
    case Many(elements) => |elements| + CountAll(elements)
    case _ => 0
  }

  function CountAll(vs: seq<Value>): nat
    decreases vs
  {
    if vs == [] then 0 else CountAll(vs[..|vs| - 1]) + Count(vs[|vs| - 1])
  }

  /** The fields and values of the children of a value, and where their bytes start. */
  function ChildFields(env: Definitions, f: FieldDef, v: Value): seq<FieldDef> {
    match v
    case Record(_) => Fields(DefOf(env, f).members)
    case Many(elements) => Copies(f, |elements|)
    case _ => []
  }

  function ChildPos(f: FieldDef, v: Value, pos: nat): nat {
    match v
    case Many(elements) => pos + |Prefix(f, |elements|)|
    case Packed(_, items) => pos + |Prefix(f, |items|)|
    case _ => pos
  }

  /** The finished cell of a value whose children start at index kids and whose bytes start at pos. */
  function Cell(env: Definitions, f: FieldDef, v: Value, kids: nat, pos: nat): RosValue {
    match v
    case Scalar(_, _) => PrimitiveCell(f.fieldType, Some(pos))
    case Text(_) => PrimitiveCell(f.fieldType, Some(pos))
    case Record(fields) => ObjectCell(DefOf(env, f).fieldIndexes, Some(Span(kids, |fields|)))
    case Many(elements) => ArrayCell(Some(Span(kids, |elements|)))
    case Packed(_, items) => PrimitiveArrayCell(f.fieldType, Some(Span(ChildPos(f, v, pos), |items|)))
  }

  /** Everything below the cell of a value. */
  function Desc(env: Definitions, f: FieldDef, v: Value, kids: nat, pos: nat): (cells: Arena)
    ensures |cells| == Count(v)
    decreases v, 1
  {
    match v
    case Record(fields) => Block(env, ChildFields(env, f, v), fields, kids, pos)
    case Many(elements) => Block(env, ChildFields(env, f, v), elements, kids, ChildPos(f, v, pos))
    case _ => []
  }

  /** The siblings, and then what lies below them. */
  function Block(env: Definitions, fs: seq<FieldDef>, vs: seq<Value>, base: nat, pos: nat): (cells: Arena)
    ensures |cells| == |vs| + CountAll(vs)
    decreases vs, 1
  {
    Row(env, fs, vs, base + |vs|, pos) + Below(env, fs, vs, base + |vs|, pos)
  }

  function Row(env: Definitions, fs: seq<FieldDef>, vs: seq<Value>, kids: nat, pos: nat): (cells: Arena)
    ensures |cells| == |vs|
    decreases vs, 0
  {
    if vs == [] then [] else
      var vs0, n := vs[..|vs| - 1], |vs| - 1;
      Row(env, fs, vs0, kids, pos) + [Cell(env, Nth(fs, n), vs[n], kids + CountAll(vs0), pos + |SerAll(env, fs, vs0)|)]
  }

  function Below(env: Definitions, fs: seq<FieldDef>, vs: seq<Value>, kids: nat, pos: nat): (cells: Arena)
    ensures |cells| == CountAll(vs)
    decreases vs, 0
  {
    if vs == [] then [] else
      var vs0, n := vs[..|vs| - 1], |vs| - 1;
      Below(env, fs, vs0, kids, pos) + Desc(env, Nth(fs, n), vs[n], kids + CountAll(vs0), pos + |SerAll(env, fs, vs0)|)
  }

  lemma SiblingsSnoc(env: Definitions, fs: seq<FieldDef>, vs: seq<Value>, kids: nat, pos: nat)
    requires vs != []
    ensures
      var vs0, n := vs[..|vs| - 1], |vs| - 1;
      var p, k := pos + |SerAll(env, fs, vs0)|, kids + CountAll(vs0);
      && CountAll(vs) == CountAll(vs0) + Count(vs[n])
      && Row(env, fs, vs, kids, pos) == Row(env, fs, vs0, kids, pos) + [Cell(env, Nth(fs, n), vs[n], k, p)]
      && Below(env, fs, vs, kids, pos) == Below(env, fs, vs0, kids, pos) + Desc(env, Nth(fs, n), vs[n], k, p)
  {
    hide Cell, Desc, SerAll, Count;
  }

  lemma SerAllSnoc(env: Definitions, fs: seq<FieldDef>, vs: seq<Value>)
    requires vs != []
    ensures SerAll(env, fs, vs) == SerAll(env, fs, vs[..|vs| - 1]) + Ser(env, Nth(fs, |vs| - 1), vs[|vs| - 1])
  {
    hide Ser;
  }

  // ---------- The k-th sibling ----------

  lemma {:induction false} SerAllAt(env: Definitions, fs: seq<FieldDef>, vs: seq<Value>, k: nat, buffer: seq<byte>,
        pos: nat)
    requires k < |vs|
    requires Holds(buffer, pos, SerAll(env, fs, vs))
    ensures Holds(buffer, pos + |SerAll(env, fs, vs[..k])|, Ser(env, Nth(fs, k), vs[k]))
    ensures SerAll(env, fs, vs[..k + 1]) == SerAll(env, fs, vs[..k]) + Ser(env, Nth(fs, k), vs[k])
  {
    hide Ser, SerAll, Nth;
    var n := |vs| - 1;
    SerAllSnoc(env, fs, vs);
    HoldsConcat(buffer, pos, SerAll(env, fs, vs[..n]), Ser(env, Nth(fs, n), vs[n]));
    if k < n {
      SerAllAt(env, fs, vs[..n], k, buffer, pos);
      assert vs[..n][..k] == vs[..k];
      assert vs[..n][..k + 1] == vs[..k + 1];
    } else {
      assert vs[..k + 1] == vs;
    }
  }

  lemma {:induction false} RowAt(env: Definitions, fs: seq<FieldDef>, vs: seq<Value>, kids: nat, pos: nat, k: nat)
    requires k < |vs|
    ensures Row(env, fs, vs, kids, pos)[k] ==
      Cell(env, Nth(fs, k), vs[k], kids + CountAll(vs[..k]), pos + |SerAll(env, fs, vs[..k])|)
  {
    hide Cell, Row, Below, CountAll, SerAll;
    var n := |vs| - 1;
    SiblingsSnoc(env, fs, vs, kids, pos);
    if k < n {
      RowAt(env, fs, vs[..n], kids, pos, k);
      assert vs[..n][..k] == vs[..k];
    }
  }

  lemma {:induction false} BelowAt(env: Definitions, fs: seq<FieldDef>, vs: seq<Value>, kids: nat, pos: nat, k: nat,
        arena: Arena, base: nat)
    requires k < |vs|
    requires Holds(arena, base, Below(env, fs, vs, kids, pos))
    ensures Holds(arena, base + CountAll(vs[..k]),
      Desc(env, Nth(fs, k), vs[k], kids + CountAll(vs[..k]), pos + |SerAll(env, fs, vs[..k])|))
  {
    hide Desc, Cell, Row, Below, CountAll, SerAll;
    var n := |vs| - 1;
    SiblingsSnoc(env, fs, vs, kids, pos);
    var last := Desc(env, Nth(fs, n), vs[n], kids + CountAll(vs[..n]), pos + |SerAll(env, fs, vs[..n])|);
    HoldsConcat(arena, base, Below(env, fs, vs[..n], kids, pos), last);
    if k < n {
      BelowAt(env, fs, vs[..n], kids, pos, k, arena, base);
      assert vs[..n][k] == vs[k] && vs[..n][..k] == vs[..k];
    } else {
      assert vs[..k] == vs[..n];
    }
  }
}
