/**
 * Consequences for a user of decoded messages: access along a path of field names and indexes, independence from the
 * surroundings of the message bytes, and uniqueness of the decoded value.
 */
module Access {
  import opened Wrappers
  import opened Bytes
  import opened MsgTypes
  import opened RosValues
  import opened Wire
  import opened Parser
  import opened Decoding

  // ---------- Access along a path ----------

  /** data()["pose"][3]["x"] is the path Key("pose"), Index(3), Key("x"). */
  datatype Step = Key(name: string) | Index(i: nat)

  /** What the accessors do with a path. */
  function Follow(arena: Arena, p: Pointer, path: seq<Step>): Result<Pointer, AccessError>
    decreases |path|
  {
    match Deref(arena, p)
    case Err(e) => Err(e)
    case Ok(c) =>
      if path == [] then Ok(p) else
        match (match path[0] case Key(n) => Get(c, n) case Index(i) => At(c, i))
        case Err(e) => Err(e)
        case Ok(q) => Follow(arena, q, path[1..])
  }

  function ReadPointer(arena: Arena, buffer: seq<byte>, p: Pointer): Result<Value, AccessError> {
    match p
    case InArena(i) => if i < |arena| then ReadAt(arena, buffer, i) else Err(OutOfRange)
    case Detached(t, offset) =>
      match AsBytes(PrimitiveCell(t, Some(offset)), buffer)
      case Err(e) => Err(e)
      case Ok(bytes) => Ok(Scalar(t, bytes))
  }

  /** The position that a step selects among the fields of a definition. */
  function Position(def: BaseDef, s: Step): Option<nat> {
    match s
    case Index(i) => Some(i)
    case Key(n) => if n in def.fieldIndexes then Some(def.fieldIndexes[n]) else None
  }

  /** What a path means in a value, with no arena in sight. */
  function Select(env: Definitions, f: FieldDef, v: Value, path: seq<Step>): Option<Value>
    decreases |path|, 1
  {
    if path == [] then Some(v) else
      match v
      case Record(fields) => SelectField(env, DefOf(env, f), fields, path)
      case Many(elements) =>
        if path[0].Index? && path[0].i < |elements| then
          Select(env, Element(f), elements[path[0].i], path[1..])
        else None
      case Packed(t, items) =>
        if path == [path[0]] && path[0].Index? && path[0].i < |items| then Some(Scalar(t, items[path[0].i])) else None
      case _ => None
  }

  function SelectField(env: Definitions, def: BaseDef, vs: seq<Value>, path: seq<Step>): Option<Value>
    requires path != []
    decreases |path|, 0
  {
    var k := Position(def, path[0]);
    if k.Some? && k.value < |vs| then Select(env, Nth(Fields(def.members), k.value), vs[k.value], path[1..]) else None
  }

  /** The path ends beyond the end of a primitive array, where the accessor does not check. */
  predicate Overruns(env: Definitions, f: FieldDef, v: Value, path: seq<Step>)
    decreases |path|, 1
  {
    path != [] &&
    match v
    case Record(fields) => FieldOverruns(env, DefOf(env, f), fields, path)
    case Many(elements) =>
      path[0].Index? && path[0].i < |elements| && Overruns(env, Element(f), elements[path[0].i], path[1..])
    case Packed(_, items) => path == [path[0]] && path[0].Index? && path[0].i >= |items|
    case _ => false
  }

  predicate FieldOverruns(env: Definitions, def: BaseDef, vs: seq<Value>, path: seq<Step>)
    requires path != []
    decreases |path|, 0
  {
    var k := Position(def, path[0]);
    k.Some? && k.value < |vs| && Overruns(env, Nth(Fields(def.members), k.value), vs[k.value], path[1..])
  }

  /** The accessors agree with the value on one path. */
  predicate Agrees(arena: Arena, buffer: seq<byte>, p: Pointer, path: seq<Step>, selected: Option<Value>,
        overruns: bool) {
    var r := Follow(arena, p, path);
    && (r.Ok? <==> selected.Some? || overruns)
    && (selected.Some? ==> !overruns && ReadPointer(arena, buffer, r.value) == Ok(selected.value))
  }

  lemma PrimitivePath(env: Definitions, f: FieldDef, v: Value, kids: nat, pos: nat, arena: Arena, buffer: seq<byte>,
        i: nat, path: seq<Step>)
    requires Admits(env, f, v) && f.info.arraySize == 0 && f.fieldType != Object
    requires i < |arena| && arena[i] == Cell(env, f, v, kids, pos)
    requires path != []
    ensures Agrees(arena, buffer, InArena(i), path, Select(env, f, v, path), Overruns(env, f, v, path))
  {
    hide Admits, Ser, Cell, Desc;
    PrimitiveFacts(env, f, v, kids, pos);
  }

  lemma PackedPath(env: Definitions, f: FieldDef, v: Value, kids: nat, pos: nat, arena: Arena, buffer: seq<byte>,
        i: nat, path: seq<Step>)
    requires Admits(env, f, v) && f.info.arraySize != 0 && f.fieldType != Object && f.fieldType != String
    requires i < |arena| && arena[i] == Cell(env, f, v, kids, pos)
    requires Holds(buffer, pos, Ser(env, f, v))
    requires path != []
    ensures Agrees(arena, buffer, InArena(i), path, Select(env, f, v, path), Overruns(env, f, v, path))
  {
    hide Admits, Ser, Cell, Desc, Concat, Fresh, ReadAt, Holds, Length;
    PackedFacts(env, f, v, kids, pos);
    HoldsConcat(buffer, pos, Prefix(f, |v.items|), Concat(v.items));
    if path[0].Index? {
      var k := path[0].i;
      var q := Detached(f.fieldType, pos + |Prefix(f, |v.items|)| + k * SizeOf(f.fieldType));
      assert At(arena[i], k) == Ok(q);
      assert Follow(arena, InArena(i), path) == Follow(arena, q, path[1..]);
      if k < |v.items| {
        ConcatAt(v.items, SizeOf(f.fieldType), buffer, pos + |Prefix(f, |v.items|)|, k);
      }
      if |path| == 1 {
        assert path == [path[0]] && path[1..] == [];
        assert Follow(arena, q, []) == Ok(q);
      } else {
        assert path != [path[0]] && path[1..] != [];
      }
    }
  }

  /** Following any path from a finished cell does what the path means in its value. */
  lemma {:induction false} CellPath(env: Definitions, f: FieldDef, v: Value, kids: nat, pos: nat, arena: Arena,
        buffer: seq<byte>, i: nat, path: seq<Step>)
    requires Admits(env, f, v)
    requires i < |arena| && i < kids && arena[i] == Cell(env, f, v, kids, pos)
    requires Holds(arena, kids, Desc(env, f, v, kids, pos))
    requires Holds(buffer, pos, Ser(env, f, v))
    ensures Agrees(arena, buffer, InArena(i), path, Select(env, f, v, path), Overruns(env, f, v, path))
    decreases |path|, 1
  {
    hide Admits, Ser, Cell, Desc, SerAll, Block, Fields, ReadAt, SelectField, FieldOverruns;
    if path == [] {
      CellReadsBack(env, f, v, kids, pos, arena, buffer, i);
    } else if f.info.arraySize == 0 && f.fieldType == Object {
      ObjectFacts(env, f, v, kids, pos);
      FieldPath(env, DefOf(env, f), v.fields, kids, pos, arena, buffer, i, path);
    } else if f.info.arraySize == 0 {
      PrimitivePath(env, f, v, kids, pos, arena, buffer, i, path);
    } else if f.fieldType == Object || f.fieldType == String {
      ArrayPath(env, f, v, kids, pos, arena, buffer, i, path);
    } else {
      PackedPath(env, f, v, kids, pos, arena, buffer, i, path);
    }
  }

  lemma {:induction false} ArrayPath(env: Definitions, f: FieldDef, v: Value, kids: nat, pos: nat, arena: Arena,
        buffer: seq<byte>, i: nat, path: seq<Step>)
    requires Admits(env, f, v) && f.info.arraySize != 0 && (f.fieldType == Object || f.fieldType == String)
    requires i < |arena| && i < kids && arena[i] == Cell(env, f, v, kids, pos)
    requires Holds(arena, kids, Desc(env, f, v, kids, pos))
    requires Holds(buffer, pos, Ser(env, f, v))
    requires path != []
    ensures Agrees(arena, buffer, InArena(i), path, Select(env, f, v, path), Overruns(env, f, v, path))
    decreases |path|, 0
  {
    hide Admits, Ser, Cell, Desc, SerAll, Block, Fields, ReadPointer;
    ArrayFacts(env, f, v, kids, pos);
    var n := |v.elements|;
    if path[0].Index? && path[0].i < n {
      HoldsConcat(buffer, pos, Prefix(f, n), SerAll(env, Copies(f, n), v.elements));
      ChildPath(env, Copies(f, n), v.elements, kids, pos + |Prefix(f, n)|, arena, buffer, path[0].i, path[1..]);
    }
  }

  lemma {:induction false} ChildPath(env: Definitions, fs: seq<FieldDef>, vs: seq<Value>, base: nat, pos: nat,
                                     arena: Arena, buffer: seq<byte>, k: nat, path: seq<Step>)
    requires AdmitsAll(env, fs, vs)
    requires k < |vs|
    requires Holds(arena, base, Block(env, fs, vs, base, pos))
    requires Holds(buffer, pos, SerAll(env, fs, vs))
    ensures Agrees(arena, buffer, InArena(base + k), path,
      Select(env, fs[k], vs[k], path), Overruns(env, fs[k], vs[k], path))
    decreases |path|, 2
  {
    hide Admits, Ser, Cell, Desc, SerAll, Block, Agrees, CountAll;
    BlockAt(env, fs, vs, base, pos, arena, k);
    SerAllAt(env, fs, vs, k, buffer, pos);
    assert Admits(env, fs[k], vs[k]);
    CellPath(env, fs[k], vs[k], base + |vs| + CountAll(vs[..k]), pos + |SerAll(env, fs, vs[..k])|, arena, buffer,
      base + k, path);
  }

  lemma {:induction false} FieldPath(env: Definitions, def: BaseDef, vs: seq<Value>, kids: nat, pos: nat,
                                     arena: Arena, buffer: seq<byte>, i: nat, path: seq<Step>)
    requires AdmitsAll(env, Fields(def.members), vs)
    requires i < |arena| && arena[i] == ObjectCell(def.fieldIndexes, Some(Span(kids, |vs|)))
    requires Holds(arena, kids, Block(env, Fields(def.members), vs, kids, pos))
    requires Holds(buffer, pos, SerAll(env, Fields(def.members), vs))
    requires path != []
    ensures Agrees(arena, buffer, InArena(i), path, SelectField(env, def, vs, path), FieldOverruns(env, def, vs, path))
    decreases |path|, 0
  {
    hide Admits, Ser, Cell, Desc, SerAll, Block, Fields;
    var k := Position(def, path[0]);
    if k.Some? && k.value < |vs| {
      ChildPath(env, Fields(def.members), vs, kids, pos, arena, buffer, k.value, path[1..]);
    }
  }

  /** Every path into a decoded message behaves as in the message itself: it fails exactly when the message has nothing
      there, except that an index beyond the end of a primitive array is not noticed; and what it finds reads back as
      the selected part. */
  lemma MessagePath(env: Definitions, def: BaseDef, vs: seq<Value>, pos: nat, buffer: seq<byte>, path: seq<Step>)
    requires AdmitsAll(env, Fields(def.members), vs)
    requires Holds(buffer, pos, SerAll(env, Fields(def.members), vs))
    requires path != []
    ensures Agrees(MessageArena(env, def, vs, pos), buffer, InArena(0), path,
      SelectField(env, def, vs, path), FieldOverruns(env, def, vs, path))
  {
    hide Block, SerAll, Agrees, Admits;
    var arena := MessageArena(env, def, vs, pos);
    assert Holds(arena, 1, Block(env, Fields(def.members), vs, 1, pos));
    FieldPath(env, def, vs, 1, pos, arena, buffer, 0, path);
  }

  /** The unchecked access is reachable: element 1 of a one-element uint8 array. */
  lemma OverrunIsReachable()
    ensures
      var f := FieldDef(FieldInfo("uint8", -1, "data"), UInt8, None);
      var def := BaseDef("m", "", [Field(f)], map["data" := 0]);
      var vs := [Packed(UInt8, [[7]])];
      && AdmitsAll(map[], Fields(def.members), vs)
      && SelectField(map[], def, vs, [Key("data"), Index(1)]) == None
      && FieldOverruns(map[], def, vs, [Key("data"), Index(1)])
  {
    var f := FieldDef(FieldInfo("uint8", -1, "data"), UInt8, None);
    var def := BaseDef("m", "", [Field(f)], map["data" := 0]);
    var v := Packed(UInt8, [[7]]);
    var path := [Key("data"), Index(1)];
    OneField(f);
    hide Fields, IndexesOf;
    assert path[1..] == [Index(1)];
    assert Admits(map[], f, v) && Select(map[], f, v, [Index(1)]) == None && Overruns(map[], f, v, [Index(1)]);
    hide Select, Overruns, Admits;
  }

  lemma OneField(f: FieldDef)
    ensures Fields([Field(f)]) == [f]
  {
    assert [Field(f)][..0] == [];
  }

  /** The raw buffer of a primitive array is the concatenation of its elements; asking for it fails exactly for an empty
      array whose bytes would start at the end of the buffer. */
  lemma ArrayBufferIsElements(env: Definitions, f: FieldDef, v: Value, kids: nat, pos: nat, buffer: seq<byte>)
    requires Admits(env, f, v) && v.Packed?
    requires Holds(buffer, pos, Ser(env, f, v))
    ensures
      var c := Cell(env, f, v, kids, pos);
      var size := ArrayBufferSize(c);
      && size == Ok(|Concat(v.items)|)
      && (ArrayBuffer(c, buffer).Err? <==> v.items == [] && pos + |Ser(env, f, v)| == |buffer|)
      && (ArrayBuffer(c, buffer).Ok? ==> Holds(buffer, ArrayBuffer(c, buffer).value, Concat(v.items)))
  {
    hide Concat;
    PackedFacts(env, f, v, kids, pos);
    HoldsConcat(buffer, pos, Prefix(f, |v.items|), Concat(v.items));
  }

  lemma FreshObject(env: Definitions, f: FieldDef)
    requires f.info.arraySize == 0 && f.fieldType == Object
    ensures Fresh(env, f).GetType() == Object
  {
  }

  /** The number of children or elements of a container value. */
  function Arity(v: Value): nat {
    match v
    case Record(fields) => |fields|
    case Many(elements) => |elements|
    case Packed(_, items) => |items|
    case _ => 0
  }

  /** On a decoded container getValues and getObjects cannot fail: it has its size, answers every index below it, and
      every name of its definition. */
  lemma ContainersAnswer(env: Definitions, f: FieldDef, v: Value, kids: nat, pos: nat)
    requires Admits(env, f, v) && (v.Record? || v.Many? || v.Packed?)
    requires v.Record? ==> DefOf(env, f).fieldIndexes == IndexesOf(DefOf(env, f).members)
    ensures
      var c := Cell(env, f, v, kids, pos);
      && Size(c) == Ok(Arity(v))
      && (forall j :: 0 <= j < Arity(v) ==> At(c, j).Ok?)
      && (v.Record? ==> c.ObjectCell? && forall k :: k in c.fieldIndexes ==> Get(c, k).Ok?)
  {
    if v.Record? {
      IndexesPointAtFirstField(DefOf(env, f).members);
    }
  }

  /** getElementType of a decoded array: the type of its elements, but an array of objects or strings has none when it
      is empty. */
  lemma ElementTypeOfArray(env: Definitions, f: FieldDef, v: Value, kids: nat, pos: nat, arena: Arena)
    requires Admits(env, f, v) && f.info.arraySize != 0
    requires Holds(arena, kids, Desc(env, f, v, kids, pos))
    ensures GetElementType(arena, Cell(env, f, v, kids, pos)) ==
      if v.Many? && v.elements == [] then Err(OutOfRange) else Ok(f.fieldType)
  {
    hide Admits, Cell, Desc, Ser, SerAll, Block, Concat, CountAll;
    if f.fieldType == Object || f.fieldType == String {
      ArrayFacts(env, f, v, kids, pos);
      var n := |v.elements|;
      if n > 0 {
        var fs, at := Copies(f, n), pos + |Prefix(f, n)|;
        BlockAt(env, fs, v.elements, kids, at, arena, 0);
        FirstIsThere(env, fs, v.elements, kids, at);
        assert Admits(env, fs[0], v.elements[0]) && fs[0] == Element(f);
        var k, p := kids + n + CountAll(v.elements[..0]), at + |SerAll(env, fs, v.elements[..0])|;
        if f.fieldType == Object {
          FreshObject(env, fs[0]);
          ObjectFacts(env, fs[0], v.elements[0], k, p);
        } else {
          PrimitiveFacts(env, fs[0], v.elements[0], k, p);
        }
      }
    } else {
      PackedFacts(env, f, v, kids, pos);
    }
  }

  lemma FirstIsThere(env: Definitions, fs: seq<FieldDef>, vs: seq<Value>, base: nat, pos: nat)
    requires vs != []
    ensures |Block(env, fs, vs, base, pos)| > 0
  {
  }

  // ---------- Locality ----------

  /** A cell with its byte offsets moved by d. */
  function Shift(c: RosValue, d: nat): RosValue {
    match c
    case PrimitiveCell(t, Some(p)) => PrimitiveCell(t, Some(p + d))
    case PrimitiveArrayCell(t, Some(e)) => PrimitiveArrayCell(t, Some(Span(e.offset + d, e.length)))
    case _ => c
  }

  function ShiftAll(cells: Arena, d: nat): Arena {
    seq(|cells|, i requires 0 <= i < |cells| => Shift(cells[i], d))
  }

  lemma ShiftConcat(a: Arena, b: Arena, d: nat)
    ensures ShiftAll(a + b, d) == ShiftAll(a, d) + ShiftAll(b, d)
    ensures |b| == 1 ==> ShiftAll(b, d) == [Shift(b[0], d)]
  {
  }

  lemma {:induction false} DescShifts(env: Definitions, f: FieldDef, v: Value, kids: nat, pos: nat, d: nat)
    ensures Desc(env, f, v, kids, pos + d) == ShiftAll(Desc(env, f, v, kids, pos), d)
    ensures Cell(env, f, v, kids, pos + d) == Shift(Cell(env, f, v, kids, pos), d)
    decreases v
  {
    hide Row, Below, Fields, DefOf;
    match v
    case Record(fields) =>
      BlockShifts(env, ChildFields(env, f, v), fields, kids, pos, d);
    case Many(elements) =>
      BlockShifts(env, ChildFields(env, f, v), elements, kids, ChildPos(f, v, pos), d);
    case _ =>
  }

  lemma {:induction false} BlockShifts(env: Definitions, fs: seq<FieldDef>, vs: seq<Value>, base: nat, pos: nat, d: nat)
    ensures Block(env, fs, vs, base, pos + d) == ShiftAll(Block(env, fs, vs, base, pos), d)
    decreases vs, 1
  {
    hide Row, Below, ShiftAll;
    SiblingsShift(env, fs, vs, base + |vs|, pos, d);
    ShiftConcat(Row(env, fs, vs, base + |vs|, pos), Below(env, fs, vs, base + |vs|, pos), d);
  }

  lemma NothingShifts(env: Definitions, fs: seq<FieldDef>, kids: nat, pos: nat, d: nat)
    ensures Row(env, fs, [], kids, pos + d) == ShiftAll(Row(env, fs, [], kids, pos), d)
    ensures Below(env, fs, [], kids, pos + d) == ShiftAll(Below(env, fs, [], kids, pos), d)
  {
  }

  lemma {:induction false} SiblingsShift(env: Definitions, fs: seq<FieldDef>, vs: seq<Value>, kids: nat, pos: nat,
        d: nat)
    ensures Row(env, fs, vs, kids, pos + d) == ShiftAll(Row(env, fs, vs, kids, pos), d)
    ensures Below(env, fs, vs, kids, pos + d) == ShiftAll(Below(env, fs, vs, kids, pos), d)
    decreases vs, 0
  {
    hide Cell, Desc, SerAll, Shift, ShiftAll, CountAll, Row, Below;
    if vs == [] {
      NothingShifts(env, fs, kids, pos, d);
    } else {
      var vs0, n := vs[..|vs| - 1], |vs| - 1;
      SiblingsSnoc(env, fs, vs, kids, pos);
      SiblingsSnoc(env, fs, vs, kids, pos + d);
      var p, k := pos + |SerAll(env, fs, vs0)|, kids + CountAll(vs0);
      SiblingsShift(env, fs, vs0, kids, pos, d);
      assert p + d == pos + d + |SerAll(env, fs, vs0)|;
      DescShifts(env, Nth(fs, n), vs[n], k, p, d);
      ShiftConcat(Row(env, fs, vs0, kids, pos), [Cell(env, Nth(fs, n), vs[n], k, p)], d);
      ShiftConcat(Below(env, fs, vs0, kids, pos), Desc(env, Nth(fs, n), vs[n], k, p), d);
    }
  }

  /** Only the bytes of the message matter: where another buffer holds the same bytes, at another offset, the arena has
      the same shape with its byte offsets moved, and the same value is read back. */
  lemma DecodingIsLocal(env: Definitions, def: BaseDef, vs: seq<Value>, a: seq<byte>, p: nat, b: seq<byte>, q: nat)
    requires AdmitsAll(env, Fields(def.members), vs)
    requires Holds(a, p, SerAll(env, Fields(def.members), vs))
    requires p <= q && q + |SerAll(env, Fields(def.members), vs)| <= |b|
    requires b[q..q + |SerAll(env, Fields(def.members), vs)|] == a[p..p + |SerAll(env, Fields(def.members), vs)|]
    ensures MessageArena(env, def, vs, q) == ShiftAll(MessageArena(env, def, vs, p), q - p)
    ensures ReadAt(MessageArena(env, def, vs, q), b, 0) == ReadAt(MessageArena(env, def, vs, p), a, 0)
  {
    hide Block, SerAll, ReadAt;
    BlockShifts(env, Fields(def.members), vs, 1, p, q - p);
    MessageReadsBack(env, def, vs, p, a);
    MessageReadsBack(env, def, vs, q, b);
  }

  // ---------- Uniqueness ----------

  /** No two values of a field have serializations that start at the same place: the bytes determine the value. */
  lemma {:induction false} ValueIsUnique(env: Definitions, f: FieldDef, v: Value, w: Value, buffer: seq<byte>, pos: nat)
    requires Admits(env, f, v) && Admits(env, f, w)
    requires Holds(buffer, pos, Ser(env, f, v)) && Holds(buffer, pos, Ser(env, f, w))
    ensures v == w
    decreases v
  {
    hide Admits, Ser, Cell, Desc, SerAll, Block, Fields, Fresh, Concat, AdmitsAll, IsFixed;
    if f.info.arraySize == 0 && f.fieldType == Object {
      FreshObject(env, f);
      ObjectFacts(env, f, v, 0, 0);
      ObjectFacts(env, f, w, 0, 0);
      SiblingsAreUnique(env, Fields(DefOf(env, f).members), v.fields, w.fields, buffer, pos, |v.fields|);
      assert v.fields[..|v.fields|] == v.fields && w.fields[..|w.fields|] == w.fields;
    } else if f.info.arraySize == 0 {
      PrimitiveFacts(env, f, v, 0, 0);
      PrimitiveFacts(env, f, w, 0, 0);
      if f.fieldType == String {
        TextReadBack(v.bytes, buffer, pos);
        TextReadBack(w.bytes, buffer, pos);
      }
    } else if f.fieldType == Object || f.fieldType == String {
      ArrayFacts(env, f, v, 0, 0);
      ArrayFacts(env, f, w, 0, 0);
      var m, n := |v.elements|, |w.elements|;
      HoldsConcat(buffer, pos, Prefix(f, m), SerAll(env, Copies(f, m), v.elements));
      HoldsConcat(buffer, pos, Prefix(f, n), SerAll(env, Copies(f, n), w.elements));
      PrefixIsUnique(f, m, n, buffer, pos);
      SiblingsAreUnique(env, Copies(f, m), v.elements, w.elements, buffer, pos + |Prefix(f, m)|, m);
      assert v.elements[..m] == v.elements && w.elements[..m] == w.elements;
    } else {
      PackedIsUnique(env, f, v, w, buffer, pos);
    }
  }

  lemma PackedIsUnique(env: Definitions, f: FieldDef, v: Value, w: Value, buffer: seq<byte>, pos: nat)
    requires Admits(env, f, v) && Admits(env, f, w)
    requires f.info.arraySize != 0 && f.fieldType != Object && f.fieldType != String
    requires Holds(buffer, pos, Ser(env, f, v)) && Holds(buffer, pos, Ser(env, f, w))
    ensures v == w
  {
    hide Admits, Ser, Cell, Desc, Concat, Fresh, Prefix, Length, SizeOf, IsFixed;
    PackedFacts(env, f, v, 0, 0);
    PackedFacts(env, f, w, 0, 0);
    var m, n := |v.items|, |w.items|;
    HoldsConcat(buffer, pos, Prefix(f, m), Concat(v.items));
    HoldsConcat(buffer, pos, Prefix(f, n), Concat(w.items));
    PrefixIsUnique(f, m, n, buffer, pos);
    forall k | 0 <= k < m
      ensures v.items[k] == w.items[k]
    {
      ConcatAt(v.items, SizeOf(f.fieldType), buffer, pos + |Prefix(f, m)|, k);
      ConcatAt(w.items, SizeOf(f.fieldType), buffer, pos + |Prefix(f, m)|, k);
    }
  }

  lemma PrefixIsUnique(f: FieldDef, m: nat, n: nat, buffer: seq<byte>, pos: nat)
    requires f.info.arraySize != 0 && Length(f, m) && Length(f, n)
    requires Holds(buffer, pos, Prefix(f, m)) && Holds(buffer, pos, Prefix(f, n))
    ensures m == n
  {
    hide U32, ReadU32;
    if f.info.arraySize == -1 {
      U32RoundTrip(buffer, pos, m);
      U32RoundTrip(buffer, pos, n);
    }
  }

  lemma {:induction false} SiblingsAreUnique(env: Definitions, fs: seq<FieldDef>, vs: seq<Value>, ws: seq<Value>,
        buffer: seq<byte>, pos: nat, k: nat)
    requires AdmitsAll(env, fs, vs) && AdmitsAll(env, fs, ws)
    requires Holds(buffer, pos, SerAll(env, fs, vs)) && Holds(buffer, pos, SerAll(env, fs, ws))
    requires k <= |vs|
    ensures vs[..k] == ws[..k]
    decreases vs, k
  {
    hide Admits, Ser, SerAll;
    if k > 0 {
      SiblingsAreUnique(env, fs, vs, ws, buffer, pos, k - 1);
      SerAllAt(env, fs, vs, k - 1, buffer, pos);
      SerAllAt(env, fs, ws, k - 1, buffer, pos);
      assert Admits(env, fs[k - 1], vs[k - 1]) && Admits(env, fs[k - 1], ws[k - 1]);
      ValueIsUnique(env, fs[k - 1], vs[k - 1], ws[k - 1], buffer, pos + |SerAll(env, fs, vs[..k - 1])|);
      assert vs[..k] == vs[..k - 1] + [vs[k - 1]] && ws[..k] == ws[..k - 1] + [ws[k - 1]];
    }
  }
}
