/**
 * What the arena built by MessageParser means: reading it through the accessors gives back the message, its child
 * ranges form a tree over all cells, and it depends on nothing but the bytes of the message.
 */
module Decoding {
  import opened Wrappers
  import opened Bytes
  import opened MsgTypes
  import opened RosValues
  import opened Wire
  import opened Parser

  // ---------- Reading a whole value through the accessors ----------

  /** Reads the value of cell i.  An arena whose children do not lie after their parent is reported, not followed. */
  function ReadAt(arena: Arena, buffer: seq<byte>, i: nat): Result<Value, AccessError>
    requires i < |arena|
    decreases |arena| - i
  {
    var c := arena[i];
    match c.GetType()
    case Object =>
      (match Size(c)
       case Err(e) => Err(e)
       case Ok(n) => match ReadList(arena, buffer, c, n, i) case Err(e) => Err(e) case Ok(vs) => Ok(Record(vs)))
    case Array =>
      (match Size(c)
       case Err(e) => Err(e)
       case Ok(n) => match ReadList(arena, buffer, c, n, i) case Err(e) => Err(e) case Ok(vs) => Ok(Many(vs)))
    case PrimitiveArray =>
      (match Size(c)
       case Err(e) => Err(e)
       case Ok(n) =>
         match ReadItems(arena, buffer, c, n) case Err(e) => Err(e) case Ok(items) => Ok(Packed(c.elementType, items)))
    case String =>
      (match AsString(c, buffer) case Err(e) => Err(e) case Ok(bytes) => Ok(Text(bytes)))
    case t =>
      (match AsBytes(c, buffer) case Err(e) => Err(e) case Ok(bytes) => Ok(Scalar(t, bytes)))
  }

  /** The first n children of container c, which is cell i. */
  function ReadList(arena: Arena, buffer: seq<byte>, c: RosValue, n: nat, i: nat): Result<seq<Value>, AccessError>
    requires i < |arena|
    decreases |arena| - i, n
  {
    if n == 0 then Ok([]) else
      match ReadList(arena, buffer, c, n - 1, i)
      case Err(e) => Err(e)
      case Ok(vs) =>
        match At(c, n - 1)
        case Ok(InArena(k)) =>
          if !(i < k < |arena|) then Err(OutOfRange) else
            (match ReadAt(arena, buffer, k) case Err(e) => Err(e) case Ok(v) => Ok(vs + [v]))
        case Ok(Detached(_, _)) => Err(NotAContainer)
        case Err(e) => Err(e)
  }

  /** The first n elements of a primitive array. */
  function ReadItems(arena: Arena, buffer: seq<byte>, c: RosValue, n: nat): Result<seq<seq<byte>>, AccessError> {
    if n == 0 then Ok([]) else
      match ReadItems(arena, buffer, c, n - 1)
      case Err(e) => Err(e)
      case Ok(items) =>
        match At(c, n - 1)
        case Err(e) => Err(e)
        case Ok(p) =>
          match Deref(arena, p)
          case Err(e) => Err(e)
          case Ok(v) => (match AsBytes(v, buffer) case Err(e) => Err(e) case Ok(bytes) => Ok(items + [bytes]))
  }

  /** The k-th cell of a block, and what lies below it. */
  lemma BlockAt(env: Definitions, fs: seq<FieldDef>, vs: seq<Value>, base: nat, pos: nat, arena: Arena, k: nat)
    requires Holds(arena, base, Block(env, fs, vs, base, pos))
    requires k < |vs|
    ensures
      var kids := base + |vs| + CountAll(vs[..k]);
      var p := pos + |SerAll(env, fs, vs[..k])|;
      && arena[base + k] == Cell(env, Nth(fs, k), vs[k], kids, p)
      && Holds(arena, kids, Desc(env, Nth(fs, k), vs[k], kids, p))
  {
    hide Cell, Desc, SerAll, Row, Below, CountAll;
    var row, below := Row(env, fs, vs, base + |vs|, pos), Below(env, fs, vs, base + |vs|, pos);
    HoldsConcat(arena, base, row, below);
    HoldsAt(arena, base, row, k);
    RowAt(env, fs, vs, base + |vs|, pos, k);
    BelowAt(env, fs, vs, base + |vs|, pos, k, arena, base + |vs|);
  }

  lemma {:induction false} ConcatAt(items: seq<seq<byte>>, size: nat, buffer: seq<byte>, pos: nat, k: nat)
    requires forall i :: 0 <= i < |items| ==> |items[i]| == size
    requires Holds(buffer, pos, Concat(items))
    requires k < |items|
    ensures Holds(buffer, pos + k * size, items[k])
  {
    var n := |items| - 1;
    ConcatLength(items[..n], size);
    HoldsConcat(buffer, pos, Concat(items[..n]), items[n]);
    if k < n {
      ConcatAt(items[..n], size, buffer, pos, k);
    }
  }

  lemma {:induction false} ItemsReadBack(items: seq<seq<byte>>, t: Type, pos: nat, arena: Arena, buffer: seq<byte>,
        n: nat)
    requires IsFixed(t) && forall i :: 0 <= i < |items| ==> |items[i]| == SizeOf(t)
    requires Holds(buffer, pos, Concat(items))
    requires n <= |items|
    ensures ReadItems(arena, buffer, PrimitiveArrayCell(t, Some(Span(pos, |items|))), n) == Ok(items[..n])
  {
    if n > 0 {
      ItemsReadBack(items, t, pos, arena, buffer, n - 1);
      ConcatAt(items, SizeOf(t), buffer, pos, n - 1);
      assert items[..n] == items[..n - 1] + [items[n - 1]];
    }
  }

  lemma TextReadBack(bytes: seq<byte>, buffer: seq<byte>, pos: nat)
    requires |bytes| < TWO_TO_32
    requires Holds(buffer, pos, U32(|bytes|) + bytes)
    ensures AsString(PrimitiveCell(String, Some(pos)), buffer) == Ok(bytes)
  {
    HoldsConcat(buffer, pos, U32(|bytes|), bytes);
    U32RoundTrip(buffer, pos, |bytes|);
  }

  lemma PrimitiveReadsBack(env: Definitions, f: FieldDef, v: Value, kids: nat, pos: nat, arena: Arena,
        buffer: seq<byte>, i: nat)
    requires Admits(env, f, v) && f.info.arraySize == 0 && f.fieldType != Object
    requires i < |arena| && arena[i] == Cell(env, f, v, kids, pos)
    requires Holds(buffer, pos, Ser(env, f, v))
    ensures ReadAt(arena, buffer, i) == Ok(v)
  {
    hide Cell, Desc, Ser, Admits;
    PrimitiveFacts(env, f, v, kids, pos);
    if f.fieldType == String {
      TextReadBack(v.bytes, buffer, pos);
    }
  }

  lemma PackedReadsBack(env: Definitions, f: FieldDef, v: Value, kids: nat, pos: nat, arena: Arena, buffer: seq<byte>,
        i: nat)
    requires Admits(env, f, v) && f.info.arraySize != 0 && f.fieldType != Object && f.fieldType != String
    requires i < |arena| && arena[i] == Cell(env, f, v, kids, pos)
    requires Holds(buffer, pos, Ser(env, f, v))
    ensures ReadAt(arena, buffer, i) == Ok(v)
  {
    hide Cell, Desc, Ser, Admits, Concat, ReadItems;
    PackedFacts(env, f, v, kids, pos);
    var n := |v.items|;
    HoldsConcat(buffer, pos, Prefix(f, n), Concat(v.items));
    ItemsReadBack(v.items, f.fieldType, pos + |Prefix(f, n)|, arena, buffer, n);
    assert v.items[..n] == v.items;
  }

  /** A finished cell with everything below it in place reads back as the value it was made from. */
  lemma {:induction false} CellReadsBack(env: Definitions, f: FieldDef, v: Value, kids: nat, pos: nat, arena: Arena,
        buffer: seq<byte>, i: nat)
    requires Admits(env, f, v)
    requires i < |arena| && i < kids && arena[i] == Cell(env, f, v, kids, pos)
    requires Holds(arena, kids, Desc(env, f, v, kids, pos))
    requires Holds(buffer, pos, Ser(env, f, v))
    ensures ReadAt(arena, buffer, i) == Ok(v)
    decreases v
  {
    hide Cell, Desc, Ser, SerAll, Block, Admits, Concat, ReadItems, ReadList, Fields;
    if f.info.arraySize == 0 && f.fieldType == Object {
      ObjectFacts(env, f, v, kids, pos);
      BlockReadsBack(env, Fields(DefOf(env, f).members), v.fields, kids, pos, arena, buffer, arena[i], i, |v.fields|);
      assert v.fields[..|v.fields|] == v.fields;
    } else if f.info.arraySize == 0 {
      PrimitiveReadsBack(env, f, v, kids, pos, arena, buffer, i);
    } else if f.fieldType == Object || f.fieldType == String {
      ArrayFacts(env, f, v, kids, pos);
      var n := |v.elements|;
      HoldsConcat(buffer, pos, Prefix(f, n), SerAll(env, Copies(f, n), v.elements));
      BlockReadsBack(env, Copies(f, n), v.elements, kids, pos + |Prefix(f, n)|, arena, buffer, arena[i], i, n);
      assert v.elements[..n] == v.elements;
    } else {
      PackedReadsBack(env, f, v, kids, pos, arena, buffer, i);
    }
  }

  lemma {:induction false} BlockReadsBack(env: Definitions, fs: seq<FieldDef>, vs: seq<Value>, base: nat, pos: nat,
                                          arena: Arena, buffer: seq<byte>, c: RosValue, i: nat, n: nat)
    requires AdmitsAll(env, fs, vs)
    requires i < base && i < |arena|
    requires Holds(arena, base, Block(env, fs, vs, base, pos))
    requires Holds(buffer, pos, SerAll(env, fs, vs))
    requires forall j :: 0 <= j < |vs| ==> At(c, j) == Ok(InArena(base + j))
    requires n <= |vs|
    ensures ReadList(arena, buffer, c, n, i) == Ok(vs[..n])
    decreases vs, n
  {
    hide Cell, Desc, Ser, SerAll, Block, CountAll, Admits;
    if n > 0 {
      var k := n - 1;
      BlockReadsBack(env, fs, vs, base, pos, arena, buffer, c, i, k);
      BlockAt(env, fs, vs, base, pos, arena, k);
      SerAllAt(env, fs, vs, k, buffer, pos);
      assert Admits(env, fs[k], vs[k]);
      CellReadsBack(env, fs[k], vs[k], base + |vs| + CountAll(vs[..k]), pos + |SerAll(env, fs, vs[..k])|, arena,
        buffer, base + k);
      assert vs[..n] == vs[..k] + [vs[k]];
    }
  }

  /** The decoder round trip: wherever the serialization of a message lies, the arena built for that place reads back
      as that message. */
  lemma MessageReadsBack(env: Definitions, def: BaseDef, vs: seq<Value>, pos: nat, buffer: seq<byte>)
    requires AdmitsAll(env, Fields(def.members), vs)
    requires Holds(buffer, pos, SerAll(env, Fields(def.members), vs))
    ensures ReadAt(MessageArena(env, def, vs, pos), buffer, 0) == Ok(Record(vs))
  {
    hide Block, SerAll, AdmitsAll, Fields, ReadList;
    var arena := MessageArena(env, def, vs, pos);
    assert Holds(arena, 1, Block(env, Fields(def.members), vs, 1, pos));
    BlockReadsBack(env, Fields(def.members), vs, 1, pos, arena, buffer, arena[0], 0, |vs|);
    assert vs[..|vs|] == vs;
  }

  // ---------- The arena is a tree ----------

  function One(b: bool): nat { if b then 1 else 0 }

  /** The cell of a value and the cells below it claim exactly the indexes of the cells below it, once each. */
  lemma {:induction false} ValueOwners(env: Definitions, f: FieldDef, v: Value, kids: nat, pos: nat, j: nat)
    ensures One(Owns(Cell(env, f, v, kids, pos), j)) + Owners(Desc(env, f, v, kids, pos), j) ==
      One(kids <= j < kids + Count(v))
    decreases v
  {
    hide Block, CountAll, Fields, DefOf;
    match v
    case Record(fields) =>
      BlockOwners(env, ChildFields(env, f, v), fields, kids, pos, j);
    case Many(elements) =>
      BlockOwners(env, ChildFields(env, f, v), elements, kids, ChildPos(f, v, pos), j);
    case _ =>
  }

  lemma {:induction false} BlockOwners(env: Definitions, fs: seq<FieldDef>, vs: seq<Value>, base: nat, pos: nat, j: nat)
    ensures Owners(Block(env, fs, vs, base, pos), j) == One(base + |vs| <= j < base + |vs| + CountAll(vs))
    decreases vs, 1
  {
    hide Row, Below, CountAll, Owners;
    OwnersConcat(Row(env, fs, vs, base + |vs|, pos), Below(env, fs, vs, base + |vs|, pos), j);
    SiblingOwners(env, fs, vs, base + |vs|, pos, j);
  }

  lemma OneCellOwners(c: RosValue, j: nat)
    ensures Owners([c], j) == One(Owns(c, j))
  {
    assert [c][..0] == [];
  }

  lemma NothingIsOwned(env: Definitions, fs: seq<FieldDef>, kids: nat, pos: nat, j: nat)
    ensures Owners(Row(env, fs, [], kids, pos), j) == Owners(Below(env, fs, [], kids, pos), j) == 0 == CountAll([])
  {
  }

  lemma {:induction false} SiblingOwners(env: Definitions, fs: seq<FieldDef>, vs: seq<Value>, kids: nat, pos: nat,
        j: nat)
    ensures Owners(Row(env, fs, vs, kids, pos), j) + Owners(Below(env, fs, vs, kids, pos), j) ==
      One(kids <= j < kids + CountAll(vs))
    decreases vs, 0
  {
    hide Cell, Desc, Owns, Owners, Count, CountAll, SerAll, Row, Below;
    if vs == [] {
      NothingIsOwned(env, fs, kids, pos, j);
    } else {
      var vs0, n := vs[..|vs| - 1], |vs| - 1;
      var kids', pos' := kids + CountAll(vs0), pos + |SerAll(env, fs, vs0)|;
      var cell := Cell(env, Nth(fs, n), vs[n], kids', pos');
      SiblingsSnoc(env, fs, vs, kids, pos);
      SiblingOwners(env, fs, vs0, kids, pos, j);
      ValueOwners(env, Nth(fs, n), vs[n], kids', pos', j);
      OneCellOwners(cell, j);
      OwnersConcat(Row(env, fs, vs0, kids, pos), [cell], j);
      OwnersConcat(Below(env, fs, vs0, kids, pos), Desc(env, Nth(fs, n), vs[n], kids', pos'), j);
    }
  }

  lemma ForwardConcat(a: Arena, b: Arena, base: nat, end: nat)
    requires Forward(a, base, end) && Forward(b, base + |a|, end)
    ensures Forward(a + b, base, end)
  {
    forall i | 0 <= i < |a + b|
      ensures (a + b)[i] == if i < |a| then a[i] else b[i - |a|]
    {
    }
  }

  lemma {:induction false} DescForward(env: Definitions, f: FieldDef, v: Value, kids: nat, pos: nat, end: nat)
    requires kids + Count(v) <= end
    ensures Forward(Desc(env, f, v, kids, pos), kids, end)
    decreases v
  {
    hide Block, CountAll, Fields, DefOf, Forward;
    match v
    case Record(fields) =>
      BlockForward(env, ChildFields(env, f, v), fields, kids, pos, end);
    case Many(elements) =>
      BlockForward(env, ChildFields(env, f, v), elements, kids, ChildPos(f, v, pos), end);
    case _ =>
      assert Forward([], kids, end) by { NothingIsForward(kids, end); }
  }

  lemma NothingIsForward(base: nat, end: nat)
    ensures Forward([], base, end)
  {
  }

  lemma {:induction false} BlockForward(env: Definitions, fs: seq<FieldDef>, vs: seq<Value>, base: nat, pos: nat,
        end: nat)
    requires base + |vs| + CountAll(vs) <= end
    ensures Forward(Block(env, fs, vs, base, pos), base, end)
    decreases vs, 1
  {
    hide Row, Below, CountAll, Forward;
    RowForward(env, fs, vs, base, base + |vs|, pos, end);
    BelowForward(env, fs, vs, base + |vs|, pos, end);
    ForwardConcat(Row(env, fs, vs, base + |vs|, pos), Below(env, fs, vs, base + |vs|, pos), base, end);
  }

  lemma {:induction false} RowForward(env: Definitions, fs: seq<FieldDef>, vs: seq<Value>, base: nat, kids: nat,
        pos: nat, end: nat)
    requires base + |vs| <= kids && kids + CountAll(vs) <= end
    ensures Forward(Row(env, fs, vs, kids, pos), base, end)
    decreases vs
  {
    if vs == [] {
    } else {
      var vs0, n := vs[..|vs| - 1], |vs| - 1;
      RowForward(env, fs, vs0, base, kids, pos, end);
      ForwardConcat(Row(env, fs, vs0, kids, pos),
        [Cell(env, Nth(fs, n), vs[n], kids + CountAll(vs0), pos + |SerAll(env, fs, vs0)|)], base, end);
    }
  }

  lemma {:induction false} BelowForward(env: Definitions, fs: seq<FieldDef>, vs: seq<Value>, kids: nat, pos: nat,
        end: nat)
    requires kids + CountAll(vs) <= end
    ensures Forward(Below(env, fs, vs, kids, pos), kids, end)
    decreases vs, 0
  {
    hide Desc, Forward, SerAll;
    if vs == [] {
      NothingIsForward(kids, end);
    } else {
      var vs0, n := vs[..|vs| - 1], |vs| - 1;
      BelowForward(env, fs, vs0, kids, pos, end);
      DescForward(env, Nth(fs, n), vs[n], kids + CountAll(vs0), pos + |SerAll(env, fs, vs0)|, end);
      ForwardConcat(Below(env, fs, vs0, kids, pos),
        Desc(env, Nth(fs, n), vs[n], kids + CountAll(vs0), pos + |SerAll(env, fs, vs0)|), kids, end);
    }
  }

  /** Cell i claims index j and no other cell does. */
  predicate OnlyOwner(cells: Arena, i: nat, j: nat) {
    i < |cells| && Owns(cells[i], j) && forall k :: 0 <= k < |cells| && Owns(cells[k], j) ==> k == i
  }

  predicate HasOneParent(cells: Arena, j: nat) {
    exists i :: 0 <= i < j && OnlyOwner(cells, i, j)
  }

  /** With one owner there is a unique one; with none there is none. */
  lemma {:induction false} OwnersCount(cells: Arena, j: nat)
    ensures Owners(cells, j) == 0 ==> forall i :: 0 <= i < |cells| ==> !Owns(cells[i], j)
    ensures Owners(cells, j) == 1 ==> exists i :: OnlyOwner(cells, i, j)
  {
    if cells != [] {
      var n := |cells| - 1;
      OwnersCount(cells[..n], j);
      assert forall k :: 0 <= k < n ==> cells[k] == cells[..n][k];
      if Owners(cells, j) == 1 {
        if Owns(cells[n], j) {
          assert OnlyOwner(cells, n, j);
        } else {
          var i :| OnlyOwner(cells[..n], i, j);
          assert OnlyOwner(cells, i, j);
        }
      }
    }
  }

  /** Every cell but the root has exactly one parent, which lies before it; the root has none; every cell is
      initialised; and no container reaches beyond the arena. */
  lemma ArenaIsATree(env: Definitions, def: BaseDef, vs: seq<Value>, pos: nat)
    ensures
      var arena := MessageArena(env, def, vs, pos);
      && |arena| == 1 + |vs| + CountAll(vs)
      && Forward(arena, 0, |arena|)
      && (forall i :: 0 <= i < |arena| ==> !Owns(arena[i], 0))
      && forall j :: 1 <= j < |arena| ==> HasOneParent(arena, j)
  {
    hide Block, Owners;
    var root := [ObjectCell(def.fieldIndexes, Some(Span(1, |vs|)))];
    var block := Block(env, Fields(def.members), vs, 1, pos);
    var arena := MessageArena(env, def, vs, pos);
    assert arena == root + block;
    BlockForward(env, Fields(def.members), vs, 1, pos, |arena|);
    ForwardConcat(root, block, 0, |arena|);
    forall j | 1 <= j < |arena|
      ensures HasOneParent(arena, j)
    {
      OwnersConcat(root, block, j);
      OneCellOwners(root[0], j);
      BlockOwners(env, Fields(def.members), vs, 1, pos, j);
      OwnersCount(arena, j);
      var i :| OnlyOwner(arena, i, j);
    }
  }
}
