/**
 * RosValue::toString, the recursive reader.  It ends on every arena whose children lie after their parents, and on the
 * arena of a message it prints the message.
 */
module Printing {
  import opened Wrappers
  import opened Bytes
  import opened Numbers
  import opened MsgTypes
  import opened RosValues
  import opened Wire
  import opened Parser
  import opened Decoding
  import Framing

  /** How a fixed-size primitive is printed: std::to_string of what its bytes mean. */
  type Show = (Type, seq<byte>) -> string

  /** The order in which an unordered_map lists its keys. */
  type Order = map<string, nat> -> seq<string>

  function FieldPath(path: string, name: string): string {
    if path == "" then name else path + "." + name
  }

  function ElementPath(path: string, i: nat): string {
    path + "[" + Decimal(i) + "]"
  }

  /** Objects and arrays bring their own line ends. */
  function LineEnd(t: Type): string {
    if t == Object || t == Array then "" else "\n"
  }

  function Append(a: Result<string, AccessError>, b: Result<string, AccessError>, end: string):
    Result<string, AccessError>
  {
    match a
    case Err(e) => Err(e)
    case Ok(s) => match b case Err(e) => Err(e) case Ok(t) => Ok(s + t + end)
  }

  /** The text of a primitive cell. */
  function PrimitiveText(v: RosValue, buffer: seq<byte>, show: Show, path: string): Result<string, AccessError> {
    if v.GetType() == String then
      match AsString(v, buffer) case Err(e) => Err(e) case Ok(b) => Ok(path + " -> " + Framing.Chars(b))
    else
      match AsBytes(v, buffer) case Err(e) => Err(e) case Ok(b) => Ok(path + " -> " + show(v.GetType(), b))
  }

  /** What toString returns for cell i.  The recursion ends because children lie after their parents. */
  function TextOf(arena: Arena, buffer: seq<byte>, order: Order, show: Show, i: nat, path: string):
    Result<string, AccessError>
    requires Forward(arena, 0, |arena|) && i < |arena|
    decreases |arena| - i
  {
    match arena[i]
    case ObjectCell(indexes, Some(_)) => FieldTexts(arena, buffer, order, show, i, order(indexes), path)
    case ArrayCell(Some(c)) => ElementTexts(arena, buffer, order, show, i, c.length, path)
    case PrimitiveArrayCell(_, _) => Ok(path + " -> unknown type")
    case v => PrimitiveText(v, buffer, show, path)
  }

  /** The fields of object i with the given names. */
  function FieldTexts(arena: Arena, buffer: seq<byte>, order: Order, show: Show, i: nat, names: seq<string>,
        path: string): Result<string, AccessError>
    requires Forward(arena, 0, |arena|) && i < |arena| && arena[i].ObjectCell?
    decreases |arena| - i, |names| + 1
  {
    if names == [] then Ok("") else
      var n := |names| - 1;
      var before := FieldTexts(arena, buffer, order, show, i, names[..n], path);
      var child := Get(arena[i], names[n]);
      if child.Err? then Append(before, Err(child.error), "") else
        var k := child.value.index;
        Append(before, TextOf(arena, buffer, order, show, k, FieldPath(path, names[n])), LineEnd(arena[k].GetType()))
  }

  /** The first n elements of array i. */
  function ElementTexts(arena: Arena, buffer: seq<byte>, order: Order, show: Show, i: nat, n: nat, path: string):
    Result<string, AccessError>
    requires Forward(arena, 0, |arena|) && i < |arena| && arena[i].ArrayCell?
    decreases |arena| - i, n + 1
  {
    if n == 0 then Ok("") else
      var before := ElementTexts(arena, buffer, order, show, i, n - 1, path);
      var child := At(arena[i], n - 1);
      if child.Err? then Append(before, Err(child.error), "") else
        Append(before, TextOf(arena, buffer, order, show, child.value.index, ElementPath(path, n - 1)), "\n")
  }

  /** RosValue::toString on cell i: a recursive walk with a stream for each container. */
  method ToString(arena: Arena, buffer: seq<byte>, order: Order, show: Show, i: nat, path: string)
    returns (r: Result<string, AccessError>)
    requires Forward(arena, 0, |arena|) && i < |arena|
    ensures r == TextOf(arena, buffer, order, show, i, path)
    decreases |arena| - i
  {
    match arena[i]
    case ObjectCell(indexes, Some(_)) =>
      var names := order(indexes);
      var output := "";
      for j := 0 to |names|
        invariant FieldTexts(arena, buffer, order, show, i, names[..j], path) == Ok(output)
      {
        assert names[..j + 1][..j] == names[..j];
        var child := Get(arena[i], names[j]);
        if child.Err? {
          LaterFields(arena, buffer, order, show, i, names, j + 1, path);
          return Err(child.error);
        }
        var k := child.value.index;
        var text := ToString(arena, buffer, order, show, k, FieldPath(path, names[j]));
        if text.Err? {
          LaterFields(arena, buffer, order, show, i, names, j + 1, path);
          return text;
        }
        output := output + text.value + LineEnd(arena[k].GetType());
      }
      assert names[..|names|] == names;
      r := Ok(output);
    case ArrayCell(Some(c)) =>
      var output := "";
      for j := 0 to c.length
        invariant ElementTexts(arena, buffer, order, show, i, j, path) == Ok(output)
      {
        var child := At(arena[i], j);
        var text := ToString(arena, buffer, order, show, child.value.index, ElementPath(path, j));
        if text.Err? {
          LaterElements(arena, buffer, order, show, i, j + 1, c.length, path);
          return text;
        }
        output := output + text.value + "\n";
      }
      r := Ok(output);
    case PrimitiveArrayCell(_, _) =>
      r := Ok(path + " -> unknown type");
    case v =>
      r := PrimitiveText(v, buffer, show, path);
  }

  lemma {:induction false} LaterFields(arena: Arena, buffer: seq<byte>, order: Order, show: Show, i: nat,
        names: seq<string>, j: nat, path: string)
    requires Forward(arena, 0, |arena|) && i < |arena| && arena[i].ObjectCell? && j <= |names|
    requires FieldTexts(arena, buffer, order, show, i, names[..j], path).Err?
    ensures FieldTexts(arena, buffer, order, show, i, names, path) ==
      FieldTexts(arena, buffer, order, show, i, names[..j], path)
  {
    if j < |names| {
      var n := |names| - 1;
      assert names[..n][..j] == names[..j];
      LaterFields(arena, buffer, order, show, i, names[..n], j, path);
    } else {
      assert names[..j] == names;
    }
  }

  lemma {:induction false} LaterElements(arena: Arena, buffer: seq<byte>, order: Order, show: Show, i: nat, j: nat,
        n: nat, path: string)
    requires Forward(arena, 0, |arena|) && i < |arena| && arena[i].ArrayCell? && j <= n
    requires ElementTexts(arena, buffer, order, show, i, j, path).Err?
    ensures ElementTexts(arena, buffer, order, show, i, n, path) ==
      ElementTexts(arena, buffer, order, show, i, j, path)
  {
    if j < n {
      LaterElements(arena, buffer, order, show, i, j, n - 1, path);
    }
  }

  // ---------- The text of a value ----------

  predicate OwnLines(v: Value) {
    v.Record? || v.Many?
  }

  function Printed(env: Definitions, order: Order, show: Show, f: FieldDef, v: Value, path: string): string
    decreases v
  {
    match v
    case Scalar(t, bytes) => path + " -> " + show(t, bytes)
    case Text(bytes) => path + " -> " + Framing.Chars(bytes)
    case Packed(_, _) => path + " -> unknown type"
    case Record(fields) =>
      var def := DefOf(env, f);
      PrintedFields(env, order, show, def, fields, order(def.fieldIndexes), path)
    case Many(elements) => PrintedElements(env, order, show, f, elements, path)
  }

  /** Each name with the value at its index. */
  function PrintedFields(env: Definitions, order: Order, show: Show, def: BaseDef, vs: seq<Value>, names: seq<string>,
        path: string): string
    decreases vs, |names|
  {
    if names == [] then "" else
      var n := |names| - 1;
      var k := if names[n] in def.fieldIndexes then def.fieldIndexes[names[n]] else |vs|;
      PrintedFields(env, order, show, def, vs, names[..n], path) +
      if k >= |vs| then "" else
        Printed(env, order, show, Nth(Fields(def.members), k), vs[k], FieldPath(path, names[n])) +
        if OwnLines(vs[k]) then "" else "\n"
  }

  function PrintedElements(env: Definitions, order: Order, show: Show, f: FieldDef, vs: seq<Value>, path: string):
    string
    decreases vs
  {
    if vs == [] then "" else
      var n := |vs| - 1;
      PrintedElements(env, order, show, f, vs[..n], path) +
      Printed(env, order, show, Element(f), vs[n], ElementPath(path, n)) + "\n"
  }

  // ---------- The text of a decoded message ----------

  /** The order lists the keys of every map, each once. */
  ghost predicate Lists(order: Order) {
    forall m: map<string, nat> ::
      (forall n :: n in order(m) <==> n in m) && forall i, j :: 0 <= i < j < |order(m)| ==> order(m)[i] != order(m)[j]
  }

  /** Every name is indexed by the position of some field. */
  predicate IndexesInside(def: BaseDef) {
    forall n :: n in def.fieldIndexes ==> def.fieldIndexes[n] < |Fields(def.members)|
  }

  predicate AllIndexesInside(env: Definitions) {
    forall k :: k in env ==> IndexesInside(env[k])
  }

  lemma IndexedIsInside(def: BaseDef)
    requires def.fieldIndexes == IndexesOf(def.members)
    ensures IndexesInside(def)
  {
    IndexesPointAtFirstField(def.members);
  }

  lemma DefIsInside(env: Definitions, f: FieldDef)
    requires AllIndexesInside(env)
    ensures IndexesInside(DefOf(env, f))
  {
  }

  lemma ListsKeys(order: Order, m: map<string, nat>)
    requires Lists(order)
    ensures forall n :: n in order(m) ==> n in m
  {
  }

  /** One more field of an object whose children start at kids. */
  lemma FieldTextsStep(arena: Arena, buffer: seq<byte>, order: Order, show: Show, i: nat, names: seq<string>,
        path: string, indexes: map<string, nat>, kids: nat, length: nat)
    requires Forward(arena, 0, |arena|) && i < |arena| && arena[i] == ObjectCell(indexes, Some(Span(kids, length)))
    requires names != [] && names[|names| - 1] in indexes && indexes[names[|names| - 1]] < length
    ensures
      var n := |names| - 1;
      var k := kids + indexes[names[n]];
      && k < |arena|
      && FieldTexts(arena, buffer, order, show, i, names, path) ==
        Append(FieldTexts(arena, buffer, order, show, i, names[..n], path),
               TextOf(arena, buffer, order, show, k, FieldPath(path, names[n])), LineEnd(arena[k].GetType()))
  {
    hide TextOf, Append, FieldPath, LineEnd;
  }

  lemma PrintedFieldsStep(env: Definitions, order: Order, show: Show, def: BaseDef, vs: seq<Value>,
        names: seq<string>, path: string)
    requires names != [] && names[|names| - 1] in def.fieldIndexes && def.fieldIndexes[names[|names| - 1]] < |vs|
    ensures
      var n := |names| - 1;
      var k := def.fieldIndexes[names[n]];
      PrintedFields(env, order, show, def, vs, names, path) ==
        PrintedFields(env, order, show, def, vs, names[..n], path) +
        Printed(env, order, show, Nth(Fields(def.members), k), vs[k], FieldPath(path, names[n])) +
        if OwnLines(vs[k]) then "" else "\n"
  {
    hide Printed, FieldPath, OwnLines, Fields;
  }

  lemma PrimitivePrints(env: Definitions, order: Order, show: Show, f: FieldDef, v: Value, kids: nat, pos: nat,
        arena: Arena, buffer: seq<byte>, i: nat, path: string)
    requires Admits(env, f, v) && f.info.arraySize == 0 && f.fieldType != Object
    requires Forward(arena, 0, |arena|) && i < |arena| && arena[i] == Cell(env, f, v, kids, pos)
    requires Holds(buffer, pos, Ser(env, f, v))
    ensures TextOf(arena, buffer, order, show, i, path) == Ok(Printed(env, order, show, f, v, path))
  {
    hide Cell, Desc, Ser, Admits;
    PrimitiveFacts(env, f, v, kids, pos);
    if f.fieldType == String {
      TextReadBack(v.bytes, buffer, pos);
    }
  }

  /** The cell of a value, with what lies below it in place, prints as the value. */
  lemma {:induction false} CellPrints(env: Definitions, order: Order, show: Show, f: FieldDef, v: Value, kids: nat,
        pos: nat, arena: Arena, buffer: seq<byte>, i: nat, path: string)
    requires Lists(order) && AllIndexesInside(env) && Admits(env, f, v)
    requires Forward(arena, 0, |arena|) && i < kids && i < |arena| && arena[i] == Cell(env, f, v, kids, pos)
    requires Holds(arena, kids, Desc(env, f, v, kids, pos)) && Holds(buffer, pos, Ser(env, f, v))
    ensures TextOf(arena, buffer, order, show, i, path) == Ok(Printed(env, order, show, f, v, path))
    decreases v
  {
    hide Cell, Desc, Ser, SerAll, Block, Admits, Concat, Fields, Forward, DefOf, Lists, AllIndexesInside;
    if f.info.arraySize == 0 && f.fieldType == Object {
      ObjectFacts(env, f, v, kids, pos);
      var def := DefOf(env, f);
      DefIsInside(env, f);
      ListsKeys(order, def.fieldIndexes);
      FieldsPrint(env, order, show, def, v.fields, kids, pos, arena, buffer, i, order(def.fieldIndexes), path);
    } else if f.info.arraySize == 0 {
      PrimitivePrints(env, order, show, f, v, kids, pos, arena, buffer, i, path);
    } else if f.fieldType == Object || f.fieldType == String {
      ArrayFacts(env, f, v, kids, pos);
      var n := |v.elements|;
      HoldsConcat(buffer, pos, Prefix(f, n), SerAll(env, Copies(f, n), v.elements));
      ElementsPrint(env, order, show, f, v.elements, kids, pos + |Prefix(f, n)|, arena, buffer, i, n, path);
      assert v.elements[..n] == v.elements;
    } else {
      PackedFacts(env, f, v, kids, pos);
    }
  }

  lemma CellLines(env: Definitions, f: FieldDef, v: Value, kids: nat, pos: nat)
    requires Admits(env, f, v)
    ensures LineEnd(Cell(env, f, v, kids, pos).GetType()) == if OwnLines(v) then "" else "\n"
  {
    hide AdmitsAll, Fields, DefOf;
  }

  lemma {:induction false} FieldsPrint(env: Definitions, order: Order, show: Show, def: BaseDef, vs: seq<Value>,
        kids: nat, pos: nat, arena: Arena, buffer: seq<byte>, i: nat, names: seq<string>, path: string)
    requires Lists(order) && AllIndexesInside(env) && IndexesInside(def)
    requires AdmitsAll(env, Fields(def.members), vs)
    requires Forward(arena, 0, |arena|) && i < kids && i < |arena|
    requires arena[i] == ObjectCell(def.fieldIndexes, Some(Span(kids, |vs|)))
    requires Holds(arena, kids, Block(env, Fields(def.members), vs, kids, pos))
    requires Holds(buffer, pos, SerAll(env, Fields(def.members), vs))
    requires forall n :: n in names ==> n in def.fieldIndexes
    ensures FieldTexts(arena, buffer, order, show, i, names, path) ==
      Ok(PrintedFields(env, order, show, def, vs, names, path))
    decreases vs, |names|
  {
    hide Cell, Desc, Ser, SerAll, Block, Admits, Forward, TextOf, Printed, LineEnd, OwnLines, CountAll, Lists,
      AllIndexesInside, Fields, FieldPath;
    if names == [] {
    } else {
      var n := |names| - 1;
      FieldsPrint(env, order, show, def, vs, kids, pos, arena, buffer, i, names[..n], path);
      assert names[n] in names;
      var k, fs := def.fieldIndexes[names[n]], Fields(def.members);
      FieldTextsStep(arena, buffer, order, show, i, names, path, def.fieldIndexes, kids, |vs|);
      PrintedFieldsStep(env, order, show, def, vs, names, path);
      BlockAt(env, fs, vs, kids, pos, arena, k);
      SerAllAt(env, fs, vs, k, buffer, pos);
      assert Admits(env, fs[k], vs[k]);
      var below, p := kids + |vs| + CountAll(vs[..k]), pos + |SerAll(env, fs, vs[..k])|;
      CellPrints(env, order, show, fs[k], vs[k], below, p, arena, buffer, kids + k, FieldPath(path, names[n]));
      CellLines(env, fs[k], vs[k], below, p);
    }
  }

  lemma {:induction false} ElementsPrint(env: Definitions, order: Order, show: Show, f: FieldDef, vs: seq<Value>,
        kids: nat, pos: nat, arena: Arena, buffer: seq<byte>, i: nat, n: nat, path: string)
    requires Lists(order) && AllIndexesInside(env)
    requires AdmitsAll(env, Copies(f, |vs|), vs) && n <= |vs|
    requires Forward(arena, 0, |arena|) && i < kids && i < |arena|
    requires arena[i] == ArrayCell(Some(Span(kids, |vs|)))
    requires Holds(arena, kids, Block(env, Copies(f, |vs|), vs, kids, pos))
    requires Holds(buffer, pos, SerAll(env, Copies(f, |vs|), vs))
    ensures ElementTexts(arena, buffer, order, show, i, n, path) ==
      Ok(PrintedElements(env, order, show, f, vs[..n], path))
    decreases vs, n
  {
    hide Cell, Desc, Ser, SerAll, Block, Admits, Forward, TextOf, Printed, ElementPath, CountAll, Lists,
      AllIndexesInside;
    if n == 0 {
    } else {
      var k, fs := n - 1, Copies(f, |vs|);
      ElementsPrint(env, order, show, f, vs, kids, pos, arena, buffer, i, k, path);
      BlockAt(env, fs, vs, kids, pos, arena, k);
      SerAllAt(env, fs, vs, k, buffer, pos);
      assert Admits(env, fs[k], vs[k]) && fs[k] == Element(f);
      var below, p := kids + |vs| + CountAll(vs[..k]), pos + |SerAll(env, fs, vs[..k])|;
      CellPrints(env, order, show, fs[k], vs[k], below, p, arena, buffer, kids + k, ElementPath(path, k));
      assert vs[..n][..k] == vs[..k] && vs[..n][k] == vs[k];
    }
  }

  /** A decoded message prints as the message, wherever its bytes lie. */
  lemma MessagePrints(env: Definitions, order: Order, show: Show, def: BaseDef, vs: seq<Value>, pos: nat,
        buffer: seq<byte>, path: string)
    requires Lists(order) && AllIndexesInside(env) && IndexesInside(def)
    requires AdmitsAll(env, Fields(def.members), vs)
    requires Holds(buffer, pos, SerAll(env, Fields(def.members), vs))
    ensures
      var arena := MessageArena(env, def, vs, pos);
      && Forward(arena, 0, |arena|) && 0 < |arena|
      && TextOf(arena, buffer, order, show, 0, path) ==
        Ok(PrintedFields(env, order, show, def, vs, order(def.fieldIndexes), path))
  {
    hide Block, SerAll, AdmitsAll, Fields, Forward, FieldTexts, PrintedFields, HasOneParent, Owns, IndexesInside,
      AllIndexesInside;
    var arena := MessageArena(env, def, vs, pos);
    ArenaIsATree(env, def, vs, pos);
    assert Holds(arena, 1, Block(env, Fields(def.members), vs, 1, pos));
    FieldsPrint(env, order, show, def, vs, 1, pos, arena, buffer, 0, order(def.fieldIndexes), path);
  }
}
