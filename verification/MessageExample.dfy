/**
 * One message, written out: its resolved definition, its bytes, the value they stand for, and its text.
 *
 *   uint16 a, uint8[] b, string c, Inner[2] d       with       pkg/Inner: uint8 x
 */
module MessageExample {
  import opened Wrappers
  import opened Bytes
  import opened MsgTypes
  import opened Wire
  import opened Parser
  import opened Decoding
  import opened Printing
  import Framing

  const A := FieldDef(FieldInfo("uint16", 0, "a"), UInt16, None)
  const B := FieldDef(FieldInfo("uint8", -1, "b"), UInt8, None)
  const K := ConstantDef("uint8", "K", "1")
  const C := FieldDef(FieldInfo("string", 0, "c"), String, None)
  const D := FieldDef(FieldInfo("Inner", 2, "d"), Object, Some("pkg/Inner"))
  const X := FieldDef(FieldInfo("uint8", 0, "x"), UInt8, None)

  const ROOT := BaseDef("pkg/Outer", "pkg", [Field(A), Field(B), Constant(K), Field(C), Field(D)],
                        map["a" := 0, "b" := 1, "c" := 2, "d" := 3])

  const INNER := BaseDef("pkg/Inner", "pkg", [Field(X)], map["x" := 0])

  const GRAPH: Definitions := map["pkg/Inner" := INNER]

  const BYTES: seq<byte> := [1, 0] + ([2, 0, 0, 0] + [7, 8]) + ([1, 0, 0, 0] + [104]) + [5, 6]

  const INNERS := [Record([Scalar(UInt8, [5])]), Record([Scalar(UInt8, [6])])]

  const VALUE := [Scalar(UInt16, [1, 0]), Packed(UInt8, [[7], [8]]), Text([104]), Many(INNERS)]

  lemma FieldsSnoc(ms: seq<Member>, m: Member, all: seq<Member>)
    requires all == ms + [m]
    ensures Fields(all) == if m.Field? then Fields(ms) + [m.field] else Fields(ms)
    ensures Fields([]) == []
  {
    AppendMember(ms, m);
  }

  /** The constant takes no part. */
  lemma FieldsOfExample()
    ensures Fields(ROOT.members) == [A, B, C, D] && Fields(INNER.members) == [X]
  {
    hide Fields;
    FieldsSnoc([], Field(A), [Field(A)]);
    FieldsSnoc([Field(A)], Field(B), [Field(A), Field(B)]);
    FieldsSnoc([Field(A), Field(B)], Constant(K), [Field(A), Field(B), Constant(K)]);
    FieldsSnoc([Field(A), Field(B), Constant(K)], Field(C), [Field(A), Field(B), Constant(K), Field(C)]);
    FieldsSnoc([Field(A), Field(B), Constant(K), Field(C)], Field(D), ROOT.members);
    FieldsSnoc([], Field(X), INNER.members);
  }

  lemma SerSnoc(fs: seq<FieldDef>, vs: seq<Value>, v: Value, all: seq<Value>)
    requires all == vs + [v]
    ensures SerAll(GRAPH, fs, all) == SerAll(GRAPH, fs, vs) + Ser(GRAPH, Nth(fs, |vs|), v)
    ensures SerAll(GRAPH, fs, []) == []
  {
    hide Ser;
    assert all[..|vs|] == vs;
  }

  lemma InnersOfExample()
    ensures AdmitsAll(GRAPH, Copies(D, 2), INNERS) && SerAll(GRAPH, Copies(D, 2), INNERS) == [5, 6]
  {
    hide SerAll, Fields;
    FieldsOfExample();
    SerSnoc(Copies(D, 2), [], INNERS[0], [INNERS[0]]);
    SerSnoc(Copies(D, 2), [INNERS[0]], INNERS[1], INNERS);
    SerSnoc([X], [], Scalar(UInt8, [5]), [Scalar(UInt8, [5])]);
    SerSnoc([X], [], Scalar(UInt8, [6]), [Scalar(UInt8, [6])]);
    assert DefOf(GRAPH, Element(D)) == INNER;
  }

  /** The bytes are those of the value. */
  lemma BytesOfExample()
    ensures AdmitsAll(GRAPH, Fields(ROOT.members), VALUE)
    ensures SerAll(GRAPH, Fields(ROOT.members), VALUE) == BYTES
  {
    hide SerAll, Fields, AdmitsAll;
    FieldsOfExample();
    InnersOfExample();
    PartsOfExample();
    var fs := [A, B, C, D];
    SerSnoc(fs, [], VALUE[0], [VALUE[0]]);
    SerSnoc(fs, [VALUE[0]], VALUE[1], [VALUE[0], VALUE[1]]);
    SerSnoc(fs, [VALUE[0], VALUE[1]], VALUE[2], [VALUE[0], VALUE[1], VALUE[2]]);
    SerSnoc(fs, [VALUE[0], VALUE[1], VALUE[2]], VALUE[3], VALUE);
    AdmitsOfExample();
  }

  lemma AdmitsOfExample()
    ensures AdmitsAll(GRAPH, [A, B, C, D], VALUE)
  {
    InnersOfExample();
  }

  lemma PartsOfExample()
    ensures Ser(GRAPH, A, VALUE[0]) == [1, 0] && Ser(GRAPH, B, VALUE[1]) == [2, 0, 0, 0] + [7, 8]
    ensures Ser(GRAPH, C, VALUE[2]) == [1, 0, 0, 0] + [104] && Ser(GRAPH, D, VALUE[3]) == [5, 6]
  {
    hide SerAll, Fields;
    InnersOfExample();
    var items: seq<seq<byte>> := [[7], [8]];
    assert items[..1] == [[7]] && [[7]][..0] == [];
    assert Concat([[7]]) == [7] && Concat(items) == [7] + [8];
    assert U32(2) == [2, 0, 0, 0] && U32(1) == [1, 0, 0, 0];
  }

  /** Wherever the bytes lie, the arena for that place reads back as the value. */
  lemma ExampleReadsBack(buffer: seq<byte>, pos: nat)
    requires Holds(buffer, pos, BYTES)
    ensures ReadAt(MessageArena(GRAPH, ROOT, VALUE, pos), buffer, 0) == Ok(Record(VALUE))
  {
    hide MessageArena, AdmitsAll, SerAll, ReadAt;
    BytesOfExample();
    MessageReadsBack(GRAPH, ROOT, VALUE, pos, buffer);
  }

  // ---------- Its text ----------

  lemma FieldText(order: Order, show: Show, def: BaseDef, vs: seq<Value>, names: seq<string>, name: string,
        all: seq<string>, path: string)
    requires all == names + [name] && name in def.fieldIndexes && def.fieldIndexes[name] < |vs|
    ensures
      var k := def.fieldIndexes[name];
      PrintedFields(GRAPH, order, show, def, vs, all, path) ==
        PrintedFields(GRAPH, order, show, def, vs, names, path) +
        Printed(GRAPH, order, show, Nth(Fields(def.members), k), vs[k], FieldPath(path, name)) +
        if OwnLines(vs[k]) then "" else "\n"
    ensures PrintedFields(GRAPH, order, show, def, vs, [], path) == ""
  {
    hide Printed, FieldPath, OwnLines, Fields;
    PrintedFieldsStep(GRAPH, order, show, def, vs, all, path);
    assert all[..|names|] == names;
  }

  lemma InnerText(order: Order, show: Show, b: byte, path: string)
    requires order(INNER.fieldIndexes) == ["x"] && path != ""
    ensures Printed(GRAPH, order, show, Element(D), Record([Scalar(UInt8, [b])]), path) ==
      path + ".x -> " + show(UInt8, [b]) + "\n"
  {
    hide Fields, PrintedFields;
    FieldsOfExample();
    FieldText(order, show, INNER, [Scalar(UInt8, [b])], [], "x", ["x"], path);
    assert path + "." + "x" + " -> " == path + ".x -> ";
    assert DefOf(GRAPH, Element(D)) == INNER;
  }

  lemma ElementText(order: Order, show: Show, vs: seq<Value>, v: Value, all: seq<Value>)
    requires all == vs + [v]
    ensures PrintedElements(GRAPH, order, show, D, all, "d") ==
      PrintedElements(GRAPH, order, show, D, vs, "d") +
      Printed(GRAPH, order, show, Element(D), v, ElementPath("d", |vs|)) + "\n"
    ensures PrintedElements(GRAPH, order, show, D, [], "d") == ""
  {
    hide Printed, ElementPath;
    assert all[..|vs|] == vs;
  }

  lemma PathsOfExample()
    ensures ElementPath("d", 0) == "d[0]" && ElementPath("d", 1) == "d[1]"
  {
  }

  lemma InnersText(order: Order, show: Show)
    requires order(INNER.fieldIndexes) == ["x"]
    ensures PrintedElements(GRAPH, order, show, D, INNERS, "d") ==
      "d[0].x -> " + show(UInt8, [5]) + "\n" + "\n" + ("d[1].x -> " + show(UInt8, [6]) + "\n") + "\n"
  {
    hide PrintedFields, Printed, ElementPath, PrintedElements;
    InnerText(order, show, 5, "d[0]");
    InnerText(order, show, 6, "d[1]");
    PathsOfExample();
    ElementText(order, show, [], INNERS[0], [INNERS[0]]);
    ElementText(order, show, [INNERS[0]], INNERS[1], INNERS);
  }

  lemma PartsText(order: Order, show: Show)
    ensures Printed(GRAPH, order, show, A, VALUE[0], "a") == "a -> " + show(UInt16, [1, 0])
    ensures Printed(GRAPH, order, show, B, VALUE[1], "b") == "b -> unknown type"
    ensures Printed(GRAPH, order, show, C, VALUE[2], "c") == "c -> h"
    ensures Printed(GRAPH, order, show, D, VALUE[3], "d") == PrintedElements(GRAPH, order, show, D, INNERS, "d")
    ensures FieldPath("", "a") == "a" && FieldPath("", "b") == "b"
    ensures FieldPath("", "c") == "c" && FieldPath("", "d") == "d"
  {
    hide PrintedElements;
    assert Framing.Chars([104]) == "h";
    assert "a" + " -> " == "a -> " && "b" + " -> unknown type" == "b -> unknown type" && "c" + " -> " + "h" == "c -> h";
  }

  function Line(s: string): string {
    s + "\n"
  }

  /** The text, when the names are listed in the order of the definition. */
  lemma TextOfExample(order: Order, show: Show)
    requires order(ROOT.fieldIndexes) == ["a", "b", "c", "d"] && order(INNER.fieldIndexes) == ["x"]
    ensures PrintedFields(GRAPH, order, show, ROOT, VALUE, order(ROOT.fieldIndexes), "") ==
      Line("a -> " + show(UInt16, [1, 0])) + Line("b -> unknown type") + Line("c -> h") +
      Line(Line("d[0].x -> " + show(UInt8, [5]))) + Line(Line("d[1].x -> " + show(UInt8, [6])))
  {
    hide Fields, PrintedFields, Printed, PrintedElements, FieldPath;
    FieldsOfExample();
    InnersText(order, show);
    PartsText(order, show);
    FieldText(order, show, ROOT, VALUE, [], "a", ["a"], "");
    FieldText(order, show, ROOT, VALUE, ["a"], "b", ["a", "b"], "");
    FieldText(order, show, ROOT, VALUE, ["a", "b"], "c", ["a", "b", "c"], "");
    FieldText(order, show, ROOT, VALUE, ["a", "b", "c"], "d", ["a", "b", "c", "d"], "");
    JoinedText("a -> " + show(UInt16, [1, 0]), "b -> unknown type", "c -> h", "d[0].x -> " + show(UInt8, [5]),
      "d[1].x -> " + show(UInt8, [6]), "\n");
  }

  lemma JoinedText(a: string, b: string, c: string, d: string, e: string, n: string)
    ensures "" + a + n + b + n + c + n + (d + n + n + (e + n) + n) + "" ==
      (a + n) + (b + n) + (c + n) + ((d + n) + n) + ((e + n) + n)
  {
  }
}
