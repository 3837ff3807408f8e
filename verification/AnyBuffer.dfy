/**
 * Parsing where nothing is known about the bytes.  For a definition graph without cycles the parser ends on every
 * buffer and at every offset: it throws when a length that it needs starts outside the buffer, and otherwise it builds
 * the tree of the message that the bytes stand for, with zeros where there are no bytes.
 */
module AnyBuffer {
  import opened Wrappers
  import opened Bytes
  import opened MsgTypes
  import opened RosValues
  import opened Wire
  import opened Lengths
  import opened Parser
  import opened Decoding
  import opened Schemas

  // ---------- Bytes without an end ----------

  /** n bytes at p of a memory that goes on with zeros. */
  function Slice(m: seq<byte>, p: nat, n: nat): (b: seq<byte>)
    ensures |b| == n
  {
    seq(n, i requires 0 <= i < n => if p + i < |m| then m[p + i] else 0)
  }

  function LengthAt(m: seq<byte>, p: nat): (n: nat)
    ensures n < TWO_TO_32
  {
    ReadU32(Slice(m, p, 4), 0)
  }

  function Zeros(n: nat): seq<byte> {
    seq(n, _ => 0)
  }

  lemma SliceConcat(m: seq<byte>, p: nat, a: nat, b: nat)
    ensures Slice(m, p, a) + Slice(m, p + a, b) == Slice(m, p, a + b)
  {
  }

  lemma SliceIsThere(m: seq<byte>, p: nat, n: nat, zeros: nat)
    requires p + n <= |m| + zeros
    ensures Holds(m + Zeros(zeros), p, Slice(m, p, n))
  {
    assert (m + Zeros(zeros))[p..p + n] == Slice(m, p, n);
  }

  lemma LastDigit(b: nat, a: nat)
    requires b < 0x100
    ensures (b + 0x100 * a) % 0x100 == b && (b + 0x100 * a) / 0x100 == a
  {
  }

  lemma HigherDigits(n: nat)
    ensures n / 0x1_0000 == n / 0x100 / 0x100 && n / 0x100_0000 == n / 0x100 / 0x100 / 0x100
  {
  }

  /** A number that was read is written as the bytes it was read from. */
  lemma ReadIsWritten(b: seq<byte>)
    requires |b| == 4
    ensures U32(ReadU32(b, 0)) == b
  {
    var b0: nat, b1: nat, b2: nat, b3: nat := b[0], b[1], b[2], b[3];
    var c := b2 + 0x100 * b3;
    var a := b1 + 0x100 * c;
    var n := b0 + 0x100 * a;
    LastDigit(b0, a);
    LastDigit(b1, c);
    LastDigit(b2, b3);
    HigherDigits(n);
    assert ReadU32(b, 0) == n;
  }

  // ---------- Definitions without cycles ----------

  /** A field as the parser of definitions makes it, which refers, if it is an object, to a definition that ranks below
      the bound. */
  predicate Walkable(env: Definitions, rank: Ranks, f: FieldDef, bound: nat) {
    && -1 <= f.info.arraySize < TWO_TO_32 && f.fieldType !in {Array, PrimitiveArray}
    && (f.fieldType == Object ==>
      Refers(env, f) && f.typeDefinition.value in rank && rank[f.typeDefinition.value] < bound)
  }

  predicate AllWalkable(env: Definitions, rank: Ranks, fs: seq<FieldDef>, bound: nat) {
    forall i :: 0 <= i < |fs| ==> Walkable(env, rank, fs[i], bound)
  }

  predicate WalkableGraph(env: Definitions, rank: Ranks) {
    forall k :: k in env ==> k in rank && AllWalkable(env, rank, Fields(env[k].members), rank[k])
  }

  predicate Sizes(fs: seq<FieldDef>) {
    forall i :: 0 <= i < |fs| ==> -1 <= fs[i].info.arraySize < TWO_TO_32
  }

  /** Typed fields of a ranked graph are such fields. */
  lemma RankedIsWalkable(env: Definitions, rank: Ranks, fs: seq<FieldDef>, bound: nat)
    requires RankedBelow(env, rank, fs, bound) && Sizes(fs) && forall i :: 0 <= i < |fs| ==> Typed(fs[i])
    ensures AllWalkable(env, rank, fs, bound)
  {
    forall i | 0 <= i < |fs|
      ensures Walkable(env, rank, fs[i], bound)
    {
      assert Typed(fs[i]);
    }
  }

  // ---------- What any bytes stand for ----------

  function Level(f: FieldDef): nat {
    if f.info.arraySize == 0 then 0 else 1
  }

  predicate AllLevel(fs: seq<FieldDef>, level: nat) {
    forall i :: 0 <= i < |fs| ==> Level(fs[i]) <= level
  }

  /** The length of an array, and its first element. */
  function LengthOf(f: FieldDef, m: seq<byte>, pos: nat): nat {
    if f.info.arraySize == -1 then LengthAt(m, pos) else if f.info.arraySize > 0 then f.info.arraySize else 0
  }

  function Items(size: nat, n: nat, m: seq<byte>, pos: nat): (items: seq<seq<byte>>)
    ensures |items| == n && forall i :: 0 <= i < n ==> |items[i]| == size
  {
    if n == 0 then [] else Items(size, n - 1, m, pos) + [Slice(m, pos + (n - 1) * size, size)]
  }

  lemma CopiesAreWalkable(env: Definitions, rank: Ranks, f: FieldDef, bound: nat, n: nat)
    requires Walkable(env, rank, f, bound)
    ensures AllWalkable(env, rank, Copies(f, n), bound) && AllLevel(Copies(f, n), 0)
  {
  }

  /** The value of a field at pos.  The recursion ends because the definitions below a field rank lower. */
  function ValueAt(env: Definitions, rank: Ranks, f: FieldDef, bound: nat, m: seq<byte>, pos: nat): Value
    requires WalkableGraph(env, rank) && Walkable(env, rank, f, bound)
    decreases bound, Level(f), 0
  {
    if f.info.arraySize == 0 then
      if f.fieldType == Object then
        var d := f.typeDefinition.value;
        Record(ValuesAt(env, rank, Fields(env[d].members), rank[d], 1, m, pos))
      else if f.fieldType == String then Text(Slice(m, pos + 4, LengthAt(m, pos)))
      else Scalar(f.fieldType, Slice(m, pos, SizeOf(f.fieldType)))
    else
      var n := LengthOf(f, m, pos);
      var start := pos + |Prefix(f, n)|;
      if f.fieldType == Object || f.fieldType == String then
        CopiesAreWalkable(env, rank, f, bound, n);
        Many(ValuesAt(env, rank, Copies(f, n), bound, 0, m, start))
      else Packed(f.fieldType, Items(SizeOf(f.fieldType), n, m, start))
  }

  function ValuesAt(env: Definitions, rank: Ranks, fs: seq<FieldDef>, bound: nat, level: nat, m: seq<byte>, pos: nat):
    (vs: seq<Value>)
    requires WalkableGraph(env, rank) && AllWalkable(env, rank, fs, bound) && AllLevel(fs, level)
    ensures |vs| == |fs|
    decreases bound, level, |fs| + 1
  {
    if fs == [] then [] else
      var n := |fs| - 1;
      var before := ValuesAt(env, rank, fs[..n], bound, level, m, pos);
      before + [ValueAt(env, rank, fs[n], bound, m, pos + |SerAll(env, fs, before)|)]
  }

  /** The bytes from pos on are those of the value. */
  predicate StandsFor(m: seq<byte>, pos: nat, b: seq<byte>) {
    Slice(m, pos, |b|) == b
  }

  lemma StandsConcat(m: seq<byte>, pos: nat, a: seq<byte>, b: seq<byte>)
    requires StandsFor(m, pos, a) && StandsFor(m, pos + |a|, b)
    ensures StandsFor(m, pos, a + b)
  {
    SliceConcat(m, pos, |a|, |b|);
  }

  lemma PrefixStands(f: FieldDef, m: seq<byte>, pos: nat)
    requires f.info.arraySize < TWO_TO_32
    ensures LengthOf(f, m, pos) < TWO_TO_32 && StandsFor(m, pos, Prefix(f, LengthOf(f, m, pos)))
  {
    hide U32, ReadU32;
    ReadIsWritten(Slice(m, pos, 4));
    SliceStands(m, pos, 4);
  }

  lemma {:induction false} ItemsStand(size: nat, n: nat, m: seq<byte>, pos: nat)
    ensures |Concat(Items(size, n, m, pos))| == n * size && StandsFor(m, pos, Concat(Items(size, n, m, pos)))
  {
    hide StandsFor;
    if n == 0 {
      assert StandsFor(m, pos, []) by { NothingStands(m, pos); }
    } else {
      var before, last := Items(size, n - 1, m, pos), Slice(m, pos + (n - 1) * size, size);
      ItemsStand(size, n - 1, m, pos);
      assert (before + [last])[..n - 1] == before;
      SliceStands(m, pos + (n - 1) * size, size);
      StandsConcat(m, pos, Concat(before), last);
    }
  }

  lemma NothingStands(m: seq<byte>, pos: nat)
    ensures StandsFor(m, pos, [])
  {
  }

  lemma SliceStands(m: seq<byte>, pos: nat, n: nat)
    ensures StandsFor(m, pos, Slice(m, pos, n))
  {
  }

  /** SerAll looks at no field beyond the values. */
  lemma {:induction false} SerAllOfPrefix(env: Definitions, fs: seq<FieldDef>, n: nat, vs: seq<Value>)
    requires |vs| <= n <= |fs|
    ensures SerAll(env, fs[..n], vs) == SerAll(env, fs, vs)
  {
    hide Ser;
    if vs != [] {
      SerAllOfPrefix(env, fs, n, vs[..|vs| - 1]);
    }
  }

  lemma PrimitiveStands(env: Definitions, rank: Ranks, f: FieldDef, bound: nat, m: seq<byte>, pos: nat)
    requires WalkableGraph(env, rank) && Walkable(env, rank, f, bound)
    requires f.info.arraySize == 0 && f.fieldType != Object
    ensures
      var v := ValueAt(env, rank, f, bound, m, pos);
      Admits(env, f, v) && StandsFor(m, pos, Ser(env, f, v))
  {
    hide StandsFor, U32, LengthAt, AdmitsAll, SerAll, Fields, Concat, Prefix, SizeOf, WalkableGraph;
    if f.fieldType == String {
      TextStands(m, pos);
    } else {
      SliceStands(m, pos, SizeOf(f.fieldType));
    }
  }

  lemma TextStands(m: seq<byte>, pos: nat)
    ensures StandsFor(m, pos, U32(LengthAt(m, pos)) + Slice(m, pos + 4, LengthAt(m, pos)))
  {
    hide StandsFor, U32, ReadU32;
    var n := LengthAt(m, pos);
    ReadIsWritten(Slice(m, pos, 4));
    SliceStands(m, pos, 4);
    SliceStands(m, pos + 4, n);
    StandsConcat(m, pos, U32(n), Slice(m, pos + 4, n));
  }

  lemma PackedStands(env: Definitions, rank: Ranks, f: FieldDef, bound: nat, m: seq<byte>, pos: nat)
    requires WalkableGraph(env, rank) && Walkable(env, rank, f, bound)
    requires f.info.arraySize != 0 && f.fieldType != Object && f.fieldType != String
    ensures
      var v := ValueAt(env, rank, f, bound, m, pos);
      Admits(env, f, v) && StandsFor(m, pos, Ser(env, f, v))
  {
    hide StandsFor, Concat, Prefix;
    var n := LengthOf(f, m, pos);
    var start := pos + |Prefix(f, n)|;
    PrefixStands(f, m, pos);
    ItemsStand(SizeOf(f.fieldType), n, m, start);
    StandsConcat(m, pos, Prefix(f, n), Concat(Items(SizeOf(f.fieldType), n, m, start)));
  }

  /** Whatever the bytes are, a field admits the value they stand for, and they are its serialization. */
  lemma {:induction false} ValueStands(env: Definitions, rank: Ranks, f: FieldDef, bound: nat, m: seq<byte>, pos: nat)
    requires WalkableGraph(env, rank) && Walkable(env, rank, f, bound)
    ensures
      var v := ValueAt(env, rank, f, bound, m, pos);
      Admits(env, f, v) && StandsFor(m, pos, Ser(env, f, v))
    decreases bound, Level(f), 0
  {
    hide StandsFor, AdmitsAll, SerAll, Prefix, Concat, Fields, ValuesAt;
    if f.fieldType == Object && f.info.arraySize == 0 {
      var d := f.typeDefinition.value;
      ValuesStand(env, rank, Fields(env[d].members), rank[d], 1, m, pos);
    } else if f.info.arraySize == 0 {
      PrimitiveStands(env, rank, f, bound, m, pos);
    } else if f.fieldType == Object || f.fieldType == String {
      var n := LengthOf(f, m, pos);
      var start := pos + |Prefix(f, n)|;
      PrefixStands(f, m, pos);
      CopiesAreWalkable(env, rank, f, bound, n);
      ValuesStand(env, rank, Copies(f, n), bound, 0, m, start);
      var vs := ValuesAt(env, rank, Copies(f, n), bound, 0, m, start);
      StandsConcat(m, pos, Prefix(f, n), SerAll(env, Copies(f, n), vs));
    } else {
      PackedStands(env, rank, f, bound, m, pos);
    }
  }

  lemma {:induction false} ValuesStand(env: Definitions, rank: Ranks, fs: seq<FieldDef>, bound: nat, level: nat,
        m: seq<byte>, pos: nat)
    requires WalkableGraph(env, rank) && AllWalkable(env, rank, fs, bound) && AllLevel(fs, level)
    ensures
      var vs := ValuesAt(env, rank, fs, bound, level, m, pos);
      AdmitsAll(env, fs, vs) && StandsFor(m, pos, SerAll(env, fs, vs))
    decreases bound, level, |fs| + 1
  {
    hide StandsFor, Admits, AdmitsAll, Ser, SerAll, ValueAt, ValuesAt, Walkable, WalkableGraph, Level;
    if fs == [] {
      NothingStands(m, pos);
      NoValues(env, rank, bound, level, m, pos);
    } else {
      var n := |fs| - 1;
      var before := ValuesAt(env, rank, fs[..n], bound, level, m, pos);
      ValuesStand(env, rank, fs[..n], bound, level, m, pos);
      SerAllOfPrefix(env, fs, n, before);
      var p := pos + |SerAll(env, fs, before)|;
      var v := ValueAt(env, rank, fs[n], bound, m, p);
      ValueStands(env, rank, fs[n], bound, m, p);
      ValuesSnoc(env, rank, fs, bound, level, m, pos);
      AdmitsSnoc(env, fs, before, v);
      StandsConcat(m, pos, SerAll(env, fs, before), Ser(env, fs[n], v));
    }
  }

  lemma NoValues(env: Definitions, rank: Ranks, bound: nat, level: nat, m: seq<byte>, pos: nat)
    requires WalkableGraph(env, rank)
    ensures ValuesAt(env, rank, [], bound, level, m, pos) == [] && AdmitsAll(env, [], []) && SerAll(env, [], []) == []
  {
  }

  lemma ValuesSnoc(env: Definitions, rank: Ranks, fs: seq<FieldDef>, bound: nat, level: nat, m: seq<byte>, pos: nat)
    requires WalkableGraph(env, rank) && AllWalkable(env, rank, fs, bound) && AllLevel(fs, level) && fs != []
    ensures
      var n := |fs| - 1;
      var before := ValuesAt(env, rank, fs[..n], bound, level, m, pos);
      ValuesAt(env, rank, fs, bound, level, m, pos) ==
        before + [ValueAt(env, rank, fs[n], bound, m, pos + |SerAll(env, fs, before)|)]
  {
    hide ValueAt, SerAll, Walkable, WalkableGraph, Level;
  }

  lemma AdmitsSnoc(env: Definitions, fs: seq<FieldDef>, vs: seq<Value>, v: Value)
    requires fs != [] && AdmitsAll(env, fs[..|fs| - 1], vs) && Admits(env, fs[|fs| - 1], v)
    ensures AdmitsAll(env, fs, vs + [v])
    ensures SerAll(env, fs, vs + [v]) == SerAll(env, fs, vs) + Ser(env, fs[|fs| - 1], v)
  {
    hide Admits, Ser;
    assert (vs + [v])[..|vs|] == vs;
  }

  // ---------- The parser on any buffer ----------

  /** The message at an offset of a buffer with whatever lies behind it in memory. */
  ghost function MessageAt(env: Definitions, rank: Ranks, def: BaseDef, bound: nat, memory: seq<byte>, offset: nat):
    seq<Value>
    requires WalkableGraph(env, rank) && AllWalkable(env, rank, Fields(def.members), bound)
  {
    assert AllLevel(Fields(def.members), 1);
    ValuesAt(env, rank, Fields(def.members), bound, 1, memory, offset)
  }

  /** MessageParser on a buffer that may hold anything.  It ends; it throws iff some length of the message that the
      bytes stand for starts outside the buffer; and otherwise the arena is that of this message, and a tree. */
  method ParseBuffer(buffer: array<byte>, beyond: seq<byte>, offset: nat, def: BaseDef, env: Definitions,
        ghost rank: Ranks, ghost bound: nat)
    returns (arena: Option<Arena>)
    requires |beyond| == 3
    requires WalkableGraph(env, rank) && AllWalkable(env, rank, Fields(def.members), bound)
    ensures
      var vs := MessageAt(env, rank, def, bound, buffer[..] + beyond, offset);
      && (arena.Some? <==> AllLengthsInside(env, Fields(def.members), vs, offset, buffer.Length))
      && (arena.Some? ==> arena.value == MessageArena(env, def, vs, offset))
    ensures arena.Some? ==>
      var a := arena.value;
      && Forward(a, 0, |a|) && (forall i :: 0 <= i < |a| ==> !Owns(a[i], 0))
      && forall j :: 1 <= j < |a| ==> HasOneParent(a, j)
  {
    hide SerAll, AdmitsAll, Fields, MessageArena, AllLengthsInside, WalkableGraph, AllWalkable, ValuesAt, StandsFor,
      Forward, HasOneParent;
    ghost var fs := Fields(def.members);
    ghost var vs := MessageAt(env, rank, def, bound, buffer[..] + beyond, offset);
    MessageStands(env, rank, def, bound, buffer[..] + beyond, offset);
    ghost var size := |SerAll(env, fs, vs)|;
    ghost var memory := buffer[..] + beyond + Zeros(offset + size);
    StandsIsThere(buffer[..] + beyond, offset, SerAll(env, fs, vs));
    var parser := new MessageParser(buffer, beyond, offset, def, env, memory);
    var root := parser.Parse(vs);
    if root == None {
      return None;
    }
    ArenaIsATree(env, def, vs, offset);
    arena := Some(parser.rosValues);
  }

  lemma MessageStands(env: Definitions, rank: Ranks, def: BaseDef, bound: nat, memory: seq<byte>, offset: nat)
    requires WalkableGraph(env, rank) && AllWalkable(env, rank, Fields(def.members), bound)
    ensures
      var vs := MessageAt(env, rank, def, bound, memory, offset);
      AdmitsAll(env, Fields(def.members), vs) && StandsFor(memory, offset, SerAll(env, Fields(def.members), vs))
  {
    assert AllLevel(Fields(def.members), 1);
    ValuesStand(env, rank, Fields(def.members), bound, 1, memory, offset);
  }

  lemma StandsIsThere(m: seq<byte>, p: nat, b: seq<byte>)
    requires StandsFor(m, p, b)
    ensures Holds(m + Zeros(p + |b|), p, b) && Holds(m + Zeros(p + |b|), 0, m)
  {
    SliceIsThere(m, p, |b|, p + |b|);
  }
}
