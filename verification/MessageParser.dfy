/**
 * MessageParser: one walk over the bytes of a message that fills the arena.
 *
 * Bytes are consumed depth first, while all siblings are emplaced before the first of them is expanded.  The parser is
 * proved to build exactly the layout of Wire for the value whose serialization lies at its offset.  That value is a
 * ghost parameter: the parser itself only sees definitions and bytes.
 *
 * The value may reach beyond the message buffer.  The parser looks at no bytes but those of lengths, so it builds the
 * layout of any value whose lengths all start inside the buffer, and throws at the first length that does not.
 */
module Parser {
  import opened Wrappers
  import opened Bytes
  import opened MsgTypes
  import opened RosValues
  import opened Wire
  import opened Lengths

  /** A cell as emplaceField leaves it. */
  function Fresh(env: Definitions, f: FieldDef): RosValue {
    if f.info.arraySize == 0 then
      if f.fieldType != Object then PrimitiveCell(f.fieldType, None) else ObjectCell(DefOf(env, f).fieldIndexes, None)
    else if f.fieldType == Object || f.fieldType == String then ArrayCell(None)
    else PrimitiveArrayCell(f.fieldType, None)
  }

  function FreshAll(env: Definitions, fs: seq<FieldDef>): (cells: Arena)
    ensures |cells| == |fs|
  {
    seq(|fs|, i requires 0 <= i < |fs| => Fresh(env, fs[i]))
  }

  /** The arena after k of the siblings in fs have been filled in: a is what was there before them. */
  ghost function Progress(a: Arena, env: Definitions, fs: seq<FieldDef>, vs: seq<Value>, k: nat, pos: nat): (r: Arena)
    requires k <= |vs| == |fs|
    ensures |r| == |a| + |vs| + CountAll(vs[..k])
  {
    var kids := |a| + |vs|;
    a + (Row(env, fs, vs[..k], kids, pos) + FreshAll(env, fs)[k..]) + Below(env, fs, vs[..k], kids, pos)
  }

  lemma Splice<T>(a: seq<T>, row: seq<T>, unset: seq<T>, below: seq<T>, cell: T, desc: seq<T>)
    requires unset != []
    ensures (a + (row + unset) + below)[|a| + |row|] == unset[0]
    ensures (a + (row + unset) + below)[|a| + |row| := cell] + desc ==
      a + ((row + [cell]) + unset[1..]) + (below + desc)
  {
  }

  /** Filling in sibling k and appending what lies below it. */
  lemma ProgressStep(a: Arena, env: Definitions, fs: seq<FieldDef>, vs: seq<Value>, k: nat, pos: nat)
    requires k < |vs| == |fs|
    ensures
      var before := Progress(a, env, fs, vs, k, pos);
      && before[|a| + k] == Fresh(env, fs[k])
      && before[|a| + k := Cell(env, fs[k], vs[k], |before|, pos + |SerAll(env, fs, vs[..k])|)]
         + Desc(env, fs[k], vs[k], |before|, pos + |SerAll(env, fs, vs[..k])|)
         == Progress(a, env, fs, vs, k + 1, pos)
  {
    hide Desc, Cell, Fresh, Row, Below, CountAll, SerAll;
    var kids := |a| + |vs|;
    SiblingsSnoc(env, fs, vs[..k + 1], kids, pos);
    var before := Progress(a, env, fs, vs, k, pos);
    var cell := Cell(env, fs[k], vs[k], |before|, pos + |SerAll(env, fs, vs[..k])|);
    var desc := Desc(env, fs[k], vs[k], |before|, pos + |SerAll(env, fs, vs[..k])|);
    var unset := FreshAll(env, fs)[k..];
    assert vs[..k + 1][..k] == vs[..k];
    assert Row(env, fs, vs[..k + 1], kids, pos) == Row(env, fs, vs[..k], kids, pos) + [cell];
    assert Below(env, fs, vs[..k + 1], kids, pos) == Below(env, fs, vs[..k], kids, pos) + desc;
    assert unset[1..] == FreshAll(env, fs)[k + 1..];
    Splice(a, Row(env, fs, vs[..k], kids, pos), unset, Below(env, fs, vs[..k], kids, pos), cell, desc);
  }

  lemma ProgressStart(a: Arena, env: Definitions, fs: seq<FieldDef>, vs: seq<Value>, pos: nat)
    requires |vs| == |fs|
    ensures Progress(a, env, fs, vs, 0, pos) == a + FreshAll(env, fs)
    ensures SerAll(env, fs, vs[..0]) == []
  {
    assert vs[..0] == [];
  }

  lemma ProgressEnd(a: Arena, env: Definitions, fs: seq<FieldDef>, vs: seq<Value>, pos: nat)
    requires |vs| == |fs|
    ensures Progress(a, env, fs, vs, |vs|, pos) == a + Block(env, fs, vs, |a|, pos)
  {
    assert vs[..|vs|] == vs;
  }

  lemma ProgressParent(a: Arena, env: Definitions, fs: seq<FieldDef>, vs: seq<Value>, k: nat, pos: nat, o: nat,
        c: RosValue)
    requires k <= |vs| == |fs|
    requires o < |a|
    ensures Progress(a, env, fs, vs, k, pos)[o := c] == Progress(a[o := c], env, fs, vs, k, pos)
    ensures Progress(a, env, fs, vs, k, pos)[o] == a[o]
  {
    hide Row, Below, FreshAll;
  }

  /** The j-th member, when it is a field, is the field numbered by the fields before it. */
  lemma {:induction false} FieldsPrefix(ms: seq<Member>, j: nat)
    requires j <= |ms|
    ensures Fields(ms[..j]) <= Fields(ms)
    ensures j == 0 ==> Fields(ms[..j]) == []
    ensures j < |ms| ==> Fields(ms[..j + 1]) == Fields(ms[..j]) + if ms[j].Field? then [ms[j].field] else []
    decreases |ms| - j
  {
    if j < |ms| {
      assert ms[..j + 1][..j] == ms[..j];
      FieldsPrefix(ms, j + 1);
    } else {
      assert ms[..j] == ms;
    }
  }

  // ---------- What admitting a value says about the work for its field ----------

  lemma ObjectFacts(env: Definitions, f: FieldDef, v: Value, kids: nat, pos: nat)
    requires Admits(env, f, v)
    requires Fresh(env, f).GetType() == Object
    ensures v.Record? && Fresh(env, f) == ObjectCell(DefOf(env, f).fieldIndexes, None)
    ensures AdmitsAll(env, Fields(DefOf(env, f).members), v.fields) && |v.fields| == |Fields(DefOf(env, f).members)|
    ensures Ser(env, f, v) == SerAll(env, Fields(DefOf(env, f).members), v.fields)
    ensures Cell(env, f, v, kids, pos) == ObjectCell(DefOf(env, f).fieldIndexes, Some(Span(kids, |v.fields|)))
    ensures Desc(env, f, v, kids, pos) == Block(env, Fields(DefOf(env, f).members), v.fields, kids, pos)
  {
    hide SerAll, Block, Row, Below, Concat, Fields, CountAll;
  }

  lemma PrimitiveFacts(env: Definitions, f: FieldDef, v: Value, kids: nat, pos: nat)
    requires Admits(env, f, v)
    requires f.info.arraySize == 0 && f.fieldType != Object
    ensures Element(f) == f && Fresh(env, f) == PrimitiveCell(f.fieldType, None)
    ensures Cell(env, f, v, kids, pos) == PrimitiveCell(f.fieldType, Some(pos)) && Desc(env, f, v, kids, pos) == []
    ensures f.fieldType == String ==>
      v.Text? && |v.bytes| < TWO_TO_32 && Ser(env, f, v) == U32(|v.bytes|) + v.bytes
    ensures f.fieldType != String ==>
      IsFixed(f.fieldType) && v == Scalar(f.fieldType, Ser(env, f, v)) && |Ser(env, f, v)| == SizeOf(f.fieldType)
  {
    hide AdmitsAll, SerAll, Block, Row, Below, Concat, Fields, CountAll, U32, SizeOf;
    assert Element(f) == f;
    if f.fieldType == String {
      assert v.Text?;
    } else {
      assert v.Scalar?;
    }
  }

  lemma ArrayFacts(env: Definitions, f: FieldDef, v: Value, kids: nat, pos: nat)
    requires Admits(env, f, v)
    requires f.info.arraySize != 0 && (f.fieldType == Object || f.fieldType == String)
    ensures v.Many? && Length(f, |v.elements|) && AdmitsAll(env, Copies(f, |v.elements|), v.elements)
    ensures Fresh(env, f) == ArrayCell(None)
    ensures Cell(env, f, v, kids, pos) == ArrayCell(Some(Span(kids, |v.elements|)))
    ensures Ser(env, f, v) == Prefix(f, |v.elements|) + SerAll(env, Copies(f, |v.elements|), v.elements)
    ensures Desc(env, f, v, kids, pos) ==
      Block(env, Copies(f, |v.elements|), v.elements, kids, pos + |Prefix(f, |v.elements|)|)
  {
    hide AdmitsAll, SerAll, Block, Row, Below, Concat, Fields, CountAll;
  }

  lemma PackedFacts(env: Definitions, f: FieldDef, v: Value, kids: nat, pos: nat)
    requires Admits(env, f, v)
    requires f.info.arraySize != 0 && f.fieldType != Object && f.fieldType != String
    ensures v.Packed? && Length(f, |v.items|) && IsFixed(f.fieldType) && v.elementType == f.fieldType
    ensures forall i :: 0 <= i < |v.items| ==> |v.items[i]| == SizeOf(f.fieldType)
    ensures Fresh(env, f) == PrimitiveArrayCell(f.fieldType, None)
    ensures Cell(env, f, v, kids, pos) ==
      PrimitiveArrayCell(f.fieldType, Some(Span(pos + |Prefix(f, |v.items|)|, |v.items|)))
    ensures Ser(env, f, v) == Prefix(f, |v.items|) + Concat(v.items)
    ensures |Concat(v.items)| == |v.items| * SizeOf(f.fieldType)
    ensures Desc(env, f, v, kids, pos) == []
  {
    hide AdmitsAll, SerAll, Block, Row, Below, Concat, Fields, CountAll;
    ConcatLength(v.items, SizeOf(f.fieldType));
  }

  /** The type of an unset cell tells which of the three the field is. */
  lemma DispatchFacts(env: Definitions, f: FieldDef, v: Value)
    requires Admits(env, f, v)
    ensures Fresh(env, f).GetType() in {Array, PrimitiveArray} <==> f.info.arraySize != 0
    ensures Fresh(env, f).GetType() !in {Object, Array, PrimitiveArray} ==>
      f.info.arraySize == 0 && f.fieldType != Object
  {
    hide AdmitsAll, SerAll, Block, Row, Below, Concat, Fields, CountAll;
  }

  lemma FreshElement(env: Definitions, f: FieldDef)
    requires f.fieldType == Object || f.fieldType == String
    ensures Fresh(env, Element(f)) ==
      if f.fieldType == String then PrimitiveCell(String, None) else ObjectCell(DefOf(env, f).fieldIndexes, None)
    ensures DefOf(env, Element(f)) == DefOf(env, f)
  {
  }

  /** memory starts with the message buffer and the three bytes behind it. */
  ghost predicate Sees(buffer: seq<byte>, beyond: seq<byte>, memory: seq<byte>) {
    |beyond| == 3 && Holds(memory, 0, buffer + beyond)
  }

  lemma SeenU32(buffer: seq<byte>, beyond: seq<byte>, memory: seq<byte>, p: nat)
    requires Sees(buffer, beyond, memory) && p < |buffer|
    ensures p + 4 <= |memory| && ReadU32(buffer + beyond, p) == ReadU32(memory, p)
  {
    var b := buffer + beyond;
    assert memory[0..0 + |b|] == b;
    assert forall i :: 0 <= i < |b| ==> memory[0..|b|][i] == memory[i];
    assert b[p] == memory[p] && b[p + 1] == memory[p + 1] && b[p + 2] == memory[p + 2] && b[p + 3] == memory[p + 3];
  }

  /** What the lengths of a value are, by the kind of the value. */
  lemma LengthFacts(env: Definitions, f: FieldDef, v: Value, pos: nat, limit: nat)
    ensures v.Scalar? ==> LengthsInside(env, f, v, pos, limit)
    ensures v.Text? ==> (LengthsInside(env, f, v, pos, limit) <==> pos < limit)
    ensures v.Record? ==>
      (LengthsInside(env, f, v, pos, limit) <==>
       AllLengthsInside(env, Fields(DefOf(env, f).members), v.fields, pos, limit))
    ensures v.Many? ==>
      (LengthsInside(env, f, v, pos, limit) <==>
       (f.info.arraySize == -1 ==> pos < limit) &&
       AllLengthsInside(env, Copies(f, |v.elements|), v.elements, pos + |Prefix(f, |v.elements|)|, limit))
    ensures v.Packed? ==> (LengthsInside(env, f, v, pos, limit) <==> (f.info.arraySize == -1 ==> pos < limit))
  {
    hide AllLengthsInside, Fields, DefOf, Copies, Prefix;
  }

  lemma NotInside(env: Definitions, fs: seq<FieldDef>, vs: seq<Value>, k: nat, pos: nat, limit: nat)
    requires k <= |vs| && !AllLengthsInside(env, fs, vs[..k], pos, limit)
    ensures !AllLengthsInside(env, fs, vs, pos, limit)
  {
    if AllLengthsInside(env, fs, vs, pos, limit) {
      InsidePrefix(env, fs, vs, k, pos, limit);
    }
  }

  class MessageParser {
    const messageBuffer: array<byte>
    const beyond: seq<byte>
    ghost const memory: seq<byte>
    const definitions: Definitions
    const msgDef: BaseDef
    var messageBufferOffset: nat
    var rosValues: Arena
    var rosValuesOffset: nat

    constructor (messageBuffer: array<byte>, beyond: seq<byte>, offset: nat, msgDef: BaseDef,
          definitions: Definitions, ghost memory: seq<byte>)
      ensures this.messageBuffer == messageBuffer && this.beyond == beyond && this.memory == memory
      ensures messageBufferOffset == offset
      ensures this.msgDef == msgDef && this.definitions == definitions
      ensures rosValues == [] && rosValuesOffset == 0
    {
      this.messageBuffer, this.beyond, this.memory, this.messageBufferOffset := messageBuffer, beyond, memory, offset;
      this.msgDef, this.definitions := msgDef, definitions;
      rosValues, rosValuesOffset := [], 0;
    }

    ghost predicate Reads()
      reads messageBuffer
    {
      Sees(messageBuffer[..], beyond, memory)
    }

    /** A length at the cursor.  at() throws when its first byte is not in the buffer; the others may lie behind it. */
    method ReadLength() returns (n: Option<nat>)
      requires Reads()
      ensures n == None <==> messageBufferOffset >= messageBuffer.Length
      ensures n.Some? ==> messageBufferOffset + 4 <= |memory| && n.value == ReadU32(memory, messageBufferOffset)
    {
      if messageBufferOffset >= messageBuffer.Length {
        return None;
      }
      SeenU32(messageBuffer[..], beyond, memory, messageBufferOffset);
      n := Some(ReadU32(messageBuffer[..] + beyond, messageBufferOffset));
    }

    method EmplaceField(f: FieldDef)
      modifies this`rosValues, this`rosValuesOffset
      ensures rosValues == old(rosValues) + [Fresh(definitions, f)]
      ensures rosValuesOffset == old(rosValuesOffset) + 1
    {
      if f.info.arraySize == 0 {
        if f.fieldType != Object {
          rosValues := rosValues + [PrimitiveCell(f.fieldType, None)];
        } else {
          rosValues := rosValues + [ObjectCell(DefOf(definitions, f).fieldIndexes, None)];
        }
      } else if f.fieldType == Object || f.fieldType == String {
        rosValues := rosValues + [ArrayCell(None)];
      } else {
        rosValues := rosValues + [PrimitiveArrayCell(f.fieldType, None)];
      }
      rosValuesOffset := rosValuesOffset + 1;
    }

    /** f may be a string array, of which v is one element. */
    method InitPrimitive(o: nat, f: FieldDef, ghost v: Value) returns (ok: bool)
      requires o < |rosValues| && rosValues[o] == PrimitiveCell(f.fieldType, None)
      requires Admits(definitions, Element(f), v) && f.fieldType != Object
      requires Reads() && Holds(memory, messageBufferOffset, Ser(definitions, Element(f), v))
      modifies this`rosValues, this`messageBufferOffset
      ensures ok <==> LengthsInside(definitions, Element(f), v, old(messageBufferOffset), messageBuffer.Length)
      ensures ok ==>
        && rosValues == old(rosValues)[o := PrimitiveCell(f.fieldType, Some(old(messageBufferOffset)))]
        && messageBufferOffset == old(messageBufferOffset) + |Ser(definitions, Element(f), v)|
    {
      hide Admits, Ser, Cell, Desc, Fresh, LengthsInside;
      PrimitiveFacts(definitions, Element(f), v, 0, messageBufferOffset);
      LengthFacts(definitions, Element(f), v, messageBufferOffset, messageBuffer.Length);
      rosValues := rosValues[o := PrimitiveCell(f.fieldType, Some(messageBufferOffset))];
      if f.fieldType == String {
        HoldsConcat(memory, messageBufferOffset, U32(|v.bytes|), v.bytes);
        U32RoundTrip(memory, messageBufferOffset, |v.bytes|);
        var length := ReadLength();
        if length == None {
          return false;
        }
        messageBufferOffset := messageBufferOffset + (length.value + 4);
      } else {
        messageBufferOffset := messageBufferOffset + SizeOf(f.fieldType);
      }
      ok := true;
    }

    /** The first loop of initObject: one unset cell per field, none for constants. */
    method EmplaceMembers(def: BaseDef)
      modifies this`rosValues, this`rosValuesOffset
      ensures rosValues == old(rosValues) + FreshAll(definitions, Fields(def.members))
      ensures rosValuesOffset == old(rosValuesOffset) + |Fields(def.members)|
    {
      hide Fresh;
      ghost var env, fs := definitions, Fields(def.members);
      for j := 0 to |def.members|
        invariant |Fields(def.members[..j])| <= |fs|
        invariant rosValuesOffset == old(rosValuesOffset) + |Fields(def.members[..j])|
        invariant rosValues == old(rosValues) + FreshAll(env, fs)[..|Fields(def.members[..j])|]
      {
        FieldsPrefix(def.members, j);
        FieldsPrefix(def.members, j + 1);
        if def.members[j].Field? {
          EmplaceField(def.members[j].field);
        }
      }
      assert def.members[..|def.members|] == def.members;
      assert FreshAll(env, fs)[..|fs|] == FreshAll(env, fs);
    }

    method InitObject(o: nat, def: BaseDef, ghost vs: seq<Value>) returns (ok: bool)
      requires rosValuesOffset == |rosValues|
      requires o < |rosValues| && rosValues[o] == ObjectCell(def.fieldIndexes, None)
      requires AdmitsAll(definitions, Fields(def.members), vs)
      requires Reads() && Holds(memory, messageBufferOffset, SerAll(definitions, Fields(def.members), vs))
      modifies this
      ensures ok <==>
        AllLengthsInside(definitions, Fields(def.members), vs, old(messageBufferOffset), messageBuffer.Length)
      ensures ok ==>
        && rosValuesOffset == |rosValues|
        && rosValues ==
          old(rosValues)[o := ObjectCell(def.fieldIndexes, Some(Span(|old(rosValues)|, |vs|)))]
          + Block(definitions, Fields(def.members), vs, |old(rosValues)|, old(messageBufferOffset))
        && messageBufferOffset == old(messageBufferOffset) + |SerAll(definitions, Fields(def.members), vs)|
      decreases vs, 1
    {
      hide Admits, Ser, SerAll, Cell, Desc, Fresh, FreshAll, Block, Row, Below, Progress, Fields, CountAll, Holds,
        LengthsInside, AllLengthsInside, Sees;
      ghost var fs, env, limit := Fields(def.members), definitions, messageBuffer.Length;
      ghost var a0, pos := rosValues, messageBufferOffset;
      var childrenOffset := rosValuesOffset;
      rosValues := rosValues[o := ObjectCell(def.fieldIndexes, Some(Span(childrenOffset, 0)))];
      ghost var a := rosValues;
      EmplaceMembers(def);
      ProgressStart(a, env, fs, vs, pos);
      FieldsPrefix(def.members, 0);
      NothingInside(env, fs, vs, pos, limit);
      ghost var k := 0;
      for j := 0 to |def.members|
        invariant k == |Fields(def.members[..j])| <= |fs|
        invariant AllLengthsInside(env, fs, vs[..k], pos, limit)
        invariant rosValuesOffset == |rosValues|
        invariant a == a0[o := ObjectCell(def.fieldIndexes, Some(Span(childrenOffset, k)))]
        invariant rosValues == Progress(a, env, fs, vs, k, pos)
        invariant messageBufferOffset == pos + |SerAll(env, fs, vs[..k])|
      {
        FieldsPrefix(def.members, j);
        FieldsPrefix(def.members, j + 1);
        if def.members[j].Field? {
          assert Admits(env, fs[k], vs[k]) && fs[k] == def.members[j].field;
          InsideStep(env, fs, vs, k, pos, limit);
          var more := InitField(o, def, childrenOffset, def.members[j].field, a, fs, vs, k, pos);
          if !more {
            NotInside(env, fs, vs, k + 1, pos, limit);
            return false;
          }
          a := a[o := ObjectCell(def.fieldIndexes, Some(Span(childrenOffset, k + 1)))];
          k := k + 1;
        }
      }
      assert def.members[..|def.members|] == def.members;
      ProgressEnd(a, env, fs, vs, pos);
      assert vs[..|vs|] == vs;
      ok := true;
    }

    /** The body of the second loop of initObject: the object's range grows by one child, which is filled in. */
    method InitField(o: nat, def: BaseDef, childrenOffset: nat, field: FieldDef, ghost a: Arena,
          ghost fs: seq<FieldDef>, ghost vs: seq<Value>, ghost k: nat, ghost pos: nat)
      returns (ok: bool)
      requires k < |vs| == |fs| && fs[k] == field && Admits(definitions, fs[k], vs[k])
      requires childrenOffset == |a| && o < |a| && a[o] == ObjectCell(def.fieldIndexes, Some(Span(childrenOffset, k)))
      requires rosValuesOffset == |rosValues| && rosValues == Progress(a, definitions, fs, vs, k, pos)
      requires messageBufferOffset == pos + |SerAll(definitions, fs, vs[..k])|
      requires Reads() && Holds(memory, pos, SerAll(definitions, fs, vs))
      modifies this
      ensures ok <==> LengthsInside(definitions, Nth(fs, k), vs[k], old(messageBufferOffset), messageBuffer.Length)
      ensures ok ==>
        var a' := a[o := ObjectCell(def.fieldIndexes, Some(Span(childrenOffset, k + 1)))];
        && rosValuesOffset == |rosValues|
        && rosValues == Progress(a', definitions, fs, vs, k + 1, pos)
        && messageBufferOffset == pos + |SerAll(definitions, fs, vs[..k + 1])|
      decreases vs, 0
    {
      hide Admits, Ser, SerAll, Cell, Desc, Fresh, FreshAll, Block, Row, Below, Progress, CountAll, Holds,
        LengthsInside, Sees;
      ghost var a' := a[o := ObjectCell(def.fieldIndexes, Some(Span(childrenOffset, k + 1)))];
      ProgressParent(a, definitions, fs, vs, k, pos, o, a'[o]);
      var length := rosValues[o].children.value.length;
      var child := childrenOffset + length;
      rosValues := rosValues[o := rosValues[o].(children := Some(Span(childrenOffset, length + 1)))];
      ProgressStep(a', definitions, fs, vs, k, pos);
      SerAllAt(definitions, fs, vs, k, memory, pos);
      ok := InitMember(child, field, vs[k]);
    }

    /** The switch of initObject on the type of the unset cell. */
    method InitMember(child: nat, field: FieldDef, ghost v: Value) returns (ok: bool)
      requires rosValuesOffset == |rosValues|
      requires child < |rosValues| && rosValues[child] == Fresh(definitions, field)
      requires Admits(definitions, field, v)
      requires Reads() && Holds(memory, messageBufferOffset, Ser(definitions, field, v))
      modifies this
      ensures ok <==> LengthsInside(definitions, field, v, old(messageBufferOffset), messageBuffer.Length)
      ensures ok ==>
        && rosValuesOffset == |rosValues|
        && rosValues ==
          old(rosValues)[child := Cell(definitions, field, v, |old(rosValues)|, old(messageBufferOffset))]
          + Desc(definitions, field, v, |old(rosValues)|, old(messageBufferOffset))
        && messageBufferOffset == old(messageBufferOffset) + |Ser(definitions, field, v)|
      decreases v, 1
    {
      hide Admits, AdmitsAll, Ser, SerAll, Cell, Desc, Fresh, Block, Row, Below, Fields, Holds, DefOf, LengthsInside,
        AllLengthsInside, Sees;
      DispatchFacts(definitions, field, v);
      LengthFacts(definitions, field, v, messageBufferOffset, messageBuffer.Length);
      var t := rosValues[child].GetType();
      if t == Object {
        ObjectFacts(definitions, field, v, |rosValues|, messageBufferOffset);
        ok := InitObject(child, DefOf(definitions, field), v.fields);
      } else if t == Array || t == PrimitiveArray {
        ok := InitArray(child, field, v);
      } else {
        PrimitiveFacts(definitions, field, v, |rosValues|, messageBufferOffset);
        ok := InitPrimitive(child, field, v);
      }
    }

    method InitArray(o: nat, f: FieldDef, ghost v: Value) returns (ok: bool)
      requires rosValuesOffset == |rosValues|
      requires f.info.arraySize != 0
      requires o < |rosValues| && rosValues[o] == Fresh(definitions, f)
      requires Admits(definitions, f, v)
      requires Reads() && Holds(memory, messageBufferOffset, Ser(definitions, f, v))
      modifies this
      ensures ok <==> LengthsInside(definitions, f, v, old(messageBufferOffset), messageBuffer.Length)
      ensures ok ==>
        && rosValuesOffset == |rosValues|
        && rosValues ==
          old(rosValues)[o := Cell(definitions, f, v, |old(rosValues)|, old(messageBufferOffset))]
          + Desc(definitions, f, v, |old(rosValues)|, old(messageBufferOffset))
        && messageBufferOffset == old(messageBufferOffset) + |Ser(definitions, f, v)|
      decreases v, 0
    {
      hide Admits, Ser, SerAll, Cell, Desc, Fresh, Block, Row, Below, Progress, CountAll, Concat, LengthsInside,
        AllLengthsInside, Sees;
      ghost var env, start := definitions, messageBufferOffset;
      LengthFacts(env, f, v, start, messageBuffer.Length);
      if f.fieldType == Object || f.fieldType == String {
        ArrayFacts(env, f, v, |rosValues|, start);
        HoldsConcat(memory, start, Prefix(f, |v.elements|), SerAll(env, Copies(f, |v.elements|), v.elements));
      } else {
        PackedFacts(env, f, v, |rosValues|, start);
        HoldsConcat(memory, start, Prefix(f, |v.items|), Concat(v.items));
      }
      var length := ReadArrayLength(f, if v.Many? then |v.elements| else |v.items|);
      if length == None {
        return false;
      }
      var arrayLength := length.value;
      if f.fieldType == Object || f.fieldType == String {
        var childrenOffset := rosValuesOffset;
        rosValuesOffset := rosValuesOffset + arrayLength;
        rosValues := rosValues[o := ArrayCell(Some(Span(childrenOffset, arrayLength)))];
        EmplaceElements(f, arrayLength);
        ok := InitElements(f, childrenOffset, arrayLength, v.elements);
      } else {
        rosValues := rosValues[o := PrimitiveArrayCell(f.fieldType, Some(Span(messageBufferOffset, arrayLength)))];
        messageBufferOffset := messageBufferOffset + arrayLength * SizeOf(f.fieldType);
        ok := true;
      }
    }

    /** The first loop of initArray: one unset cell per element. */
    method EmplaceElements(f: FieldDef, arrayLength: nat)
      requires f.fieldType == Object || f.fieldType == String
      modifies this`rosValues
      ensures rosValues == old(rosValues) + FreshAll(definitions, Copies(f, arrayLength))
    {
      ghost var env, fs := definitions, Copies(f, arrayLength);
      for i := 0 to arrayLength
        invariant rosValues == old(rosValues) + FreshAll(env, fs)[..i]
      {
        FreshElement(env, f);
        if f.fieldType == String {
          rosValues := rosValues + [PrimitiveCell(f.fieldType, None)];
        } else {
          rosValues := rosValues + [ObjectCell(DefOf(definitions, f).fieldIndexes, None)];
        }
      }
      assert FreshAll(env, fs)[..|fs|] == FreshAll(env, fs);
    }

    /** The body of the second loop of initArray: one element is filled in. */
    method InitElement(f: FieldDef, o: nat, ghost v: Value) returns (ok: bool)
      requires f.fieldType == Object || f.fieldType == String
      requires rosValuesOffset == |rosValues|
      requires o < |rosValues| && rosValues[o] == Fresh(definitions, Element(f))
      requires Admits(definitions, Element(f), v)
      requires Reads() && Holds(memory, messageBufferOffset, Ser(definitions, Element(f), v))
      modifies this
      ensures ok <==> LengthsInside(definitions, Element(f), v, old(messageBufferOffset), messageBuffer.Length)
      ensures ok ==>
        && rosValuesOffset == |rosValues|
        && rosValues ==
          old(rosValues)[o := Cell(definitions, Element(f), v, |old(rosValues)|, old(messageBufferOffset))]
          + Desc(definitions, Element(f), v, |old(rosValues)|, old(messageBufferOffset))
        && messageBufferOffset == old(messageBufferOffset) + |Ser(definitions, Element(f), v)|
      decreases v, 2
    {
      hide Admits, AdmitsAll, Ser, SerAll, Cell, Desc, Fresh, Block, Fields, Holds, DefOf, LengthsInside,
        AllLengthsInside, Sees;
      LengthFacts(definitions, Element(f), v, messageBufferOffset, messageBuffer.Length);
      FreshElement(definitions, f);
      if f.fieldType == String {
        PrimitiveFacts(definitions, Element(f), v, |rosValues|, messageBufferOffset);
        ok := InitPrimitive(o, f, v);
      } else {
        ObjectFacts(definitions, Element(f), v, |rosValues|, messageBufferOffset);
        ok := InitObject(o, DefOf(definitions, f), v.fields);
      }
    }

    /** The second loop of initArray: the elements are filled in, in order. */
    method InitElements(f: FieldDef, childrenOffset: nat, arrayLength: nat, ghost vs: seq<Value>) returns (ok: bool)
      requires f.fieldType == Object || f.fieldType == String
      requires |vs| == arrayLength && AdmitsAll(definitions, Copies(f, arrayLength), vs)
      requires rosValuesOffset == |rosValues| == childrenOffset + arrayLength
      requires rosValues[childrenOffset..] == FreshAll(definitions, Copies(f, arrayLength))
      requires Reads() && Holds(memory, messageBufferOffset, SerAll(definitions, Copies(f, arrayLength), vs))
      modifies this
      ensures ok <==>
        AllLengthsInside(definitions, Copies(f, arrayLength), vs, old(messageBufferOffset), messageBuffer.Length)
      ensures ok ==>
        && rosValuesOffset == |rosValues|
        && rosValues == old(rosValues)[..childrenOffset]
          + Block(definitions, Copies(f, arrayLength), vs, childrenOffset, old(messageBufferOffset))
        && messageBufferOffset == old(messageBufferOffset) + |SerAll(definitions, Copies(f, arrayLength), vs)|
      decreases vs, 2
    {
      hide Admits, Ser, SerAll, Cell, Desc, Fresh, FreshAll, Block, Row, Below, Progress, CountAll, Holds,
        LengthsInside, AllLengthsInside, Sees;
      ghost var env, fs, pos := definitions, Copies(f, arrayLength), messageBufferOffset;
      ghost var a, limit := rosValues[..childrenOffset], messageBuffer.Length;
      ProgressStart(a, env, fs, vs, pos);
      NothingInside(env, fs, vs, pos, limit);
      for i := 0 to arrayLength
        invariant rosValuesOffset == |rosValues|
        invariant rosValues == Progress(a, env, fs, vs, i, pos)
        invariant messageBufferOffset == pos + |SerAll(env, fs, vs[..i])|
        invariant AllLengthsInside(env, fs, vs[..i], pos, limit)
      {
        ProgressStep(a, env, fs, vs, i, pos);
        SerAllAt(env, fs, vs, i, memory, pos);
        InsideStep(env, fs, vs, i, pos, limit);
        assert Admits(env, fs[i], vs[i]) && fs[i] == Element(f);
        var more := InitElement(f, childrenOffset + i, vs[i]);
        if !more {
          NotInside(env, fs, vs, i + 1, pos, limit);
          return false;
        }
      }
      ProgressEnd(a, env, fs, vs, pos);
      assert vs[..|vs|] == vs;
      ok := true;
    }

    /** The head of initArray: a dynamic array starts with its length, a fixed one has it in the definition. */
    method ReadArrayLength(f: FieldDef, ghost n: nat) returns (arrayLength: Option<nat>)
      requires f.info.arraySize != 0 && Length(f, n)
      requires Reads() && Holds(memory, messageBufferOffset, Prefix(f, n))
      modifies this`messageBufferOffset
      ensures arrayLength.Some? <==> (f.info.arraySize == -1 ==> old(messageBufferOffset) < messageBuffer.Length)
      ensures arrayLength.Some? ==>
        arrayLength.value == n && messageBufferOffset == old(messageBufferOffset) + |Prefix(f, n)|
    {
      hide Prefix, U32, ReadU32, Sees, Holds;
      PrefixIs(f, n);
      if f.info.arraySize == -1 {
        U32RoundTrip(memory, messageBufferOffset, n);
        arrayLength := ReadLength();
        if arrayLength.Some? {
          messageBufferOffset := messageBufferOffset + 4;
        }
      } else {
        arrayLength := Some(f.info.arraySize);
      }
    }

    /** The arena of a whole message: its root object, then the block of everything below it.  It throws exactly when
        some length of the message starts outside the buffer. */
    method Parse(ghost vs: seq<Value>) returns (root: Option<Pointer>)
      requires rosValues == []
      requires AdmitsAll(definitions, Fields(msgDef.members), vs)
      requires Reads() && Holds(memory, messageBufferOffset, SerAll(definitions, Fields(msgDef.members), vs))
      modifies this
      ensures root.Some? <==>
        AllLengthsInside(definitions, Fields(msgDef.members), vs, old(messageBufferOffset), messageBuffer.Length)
      ensures root.Some? ==>
        && root.value == InArena(0)
        && rosValues == MessageArena(definitions, msgDef, vs, old(messageBufferOffset))
        && messageBufferOffset == old(messageBufferOffset) + |SerAll(definitions, Fields(msgDef.members), vs)|
    {
      hide Admits, AdmitsAll, SerAll, Block, Fields, Holds, AllLengthsInside, Sees;
      rosValues := rosValues + [ObjectCell(msgDef.fieldIndexes, None)];
      rosValuesOffset := 1;
      var ok := InitObject(0, msgDef, vs);
      root := if ok then Some(InArena(0)) else None;
    }
  }

  lemma PrefixIs(f: FieldDef, n: nat)
    requires n < TWO_TO_32
    ensures f.info.arraySize == -1 ==> Prefix(f, n) == U32(n) && |Prefix(f, n)| == 4
    ensures f.info.arraySize != -1 ==> Prefix(f, n) == []
  {
    hide U32;
  }

  lemma OneMore(k: nat, n: nat)
    ensures (k + 1) * n == k * n + n
  {
  }

  lemma {:induction false} ConcatLength(items: seq<seq<byte>>, n: nat)
    requires forall i :: 0 <= i < |items| ==> |items[i]| == n
    ensures |Concat(items)| == |items| * n
  {
    if items != [] {
      ConcatLength(items[..|items| - 1], n);
      OneMore(|items| - 1, n);
    }
  }

  function MessageArena(env: Definitions, def: BaseDef, vs: seq<Value>, pos: nat): Arena {
    [ObjectCell(def.fieldIndexes, Some(Span(1, |vs|)))] + Block(env, Fields(def.members), vs, 1, pos)
  }
}
