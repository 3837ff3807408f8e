/**
 * The flat arena of decoded values and the accessors that read it.  A cell knows its type; containers know only the
 * range of their children, primitives only an offset into the message buffer.
 */
module RosValues {
  import opened Wrappers
  import opened Bytes
  import opened MsgTypes

  datatype Span = Span(offset: nat, length: nat)

  /** One arena cell.  None stands for the parts that emplacing a cell leaves unset. */
  datatype RosValue =
    | PrimitiveCell(fieldType: Type, offset: Option<nat>)
    | PrimitiveArrayCell(elementType: Type, elements: Option<Span>)
    | ArrayCell(children: Option<Span>)
    | ObjectCell(fieldIndexes: map<string, nat>, children: Option<Span>)
  {
    function GetType(): Type {
      match this
      case PrimitiveCell(t, _) => t
      case PrimitiveArrayCell(_, _) => PrimitiveArray
      case ArrayCell(_) => Array
      case ObjectCell(_, _) => Object
    }
  }

  /** A RosValue::Pointer: a cell of the arena, or a detached primitive inside the message buffer. */
  datatype Pointer = InArena(index: nat) | Detached(fieldType: Type, offset: nat)

  datatype AccessError =
    OutOfRange | NotAContainer | NotAnObject | NotAString | NotAPrimitive | NotAnArray | NoSuchField

  type Arena = seq<RosValue>

  function Deref(arena: Arena, p: Pointer): Result<RosValue, AccessError> {
    match p
    case Detached(t, offset) => Ok(PrimitiveCell(t, Some(offset)))
    case InArena(i) => if i < |arena| then Ok(arena[i]) else Err(OutOfRange)
  }

  /** ros_value_list_t::at */
  function ListAt(children: Option<Span>, i: nat): Result<Pointer, AccessError> {
    if children == None || i >= children.value.length then Err(OutOfRange)
    else Ok(InArena(children.value.offset + i))
  }

  /** RosValue::at(size_t).  The elements of a primitive array are not checked against its length. */
  function At(v: RosValue, i: nat): Result<Pointer, AccessError> {
    match v
    case ObjectCell(_, children) => ListAt(children, i)
    case ArrayCell(children) => ListAt(children, i)
    case PrimitiveArrayCell(t, Some(e)) =>
      if IsFixed(t) then Ok(Detached(t, e.offset + i * SizeOf(t))) else Err(NotAPrimitive)
    case _ => Err(NotAContainer)
  }

  /** RosValue::get(key) */
  function Get(v: RosValue, key: string): Result<Pointer, AccessError> {
    if !v.ObjectCell? then Err(NotAnObject)
    else if key !in v.fieldIndexes then Err(NoSuchField)
    else At(v, v.fieldIndexes[key])
  }

  /** RosValue::size */
  function Size(v: RosValue): Result<nat, AccessError> {
    match v
    case ObjectCell(_, Some(c)) => Ok(c.length)
    case ArrayCell(Some(c)) => Ok(c.length)
    case PrimitiveArrayCell(_, Some(e)) => Ok(e.length)
    case _ => Err(NotAContainer)
  }

  /** RosValue::as<T> for a fixed-size primitive, as the bytes of the result. */
  function AsBytes(v: RosValue, buffer: seq<byte>): Result<seq<byte>, AccessError> {
    match v
    case PrimitiveCell(t, Some(p)) =>
      if !IsFixed(t) then Err(NotAPrimitive)
      else if p + SizeOf(t) <= |buffer| then Ok(buffer[p..p + SizeOf(t)]) else Err(OutOfRange)
    case _ => Err(NotAPrimitive)
  }

  /** RosValue::as<std::string> */
  function AsString(v: RosValue, buffer: seq<byte>): Result<seq<byte>, AccessError> {
    match v
    case PrimitiveCell(String, Some(p)) =>
      if p + 4 <= |buffer| && p + 4 + ReadU32(buffer, p) <= |buffer|
      then Ok(buffer[p + 4..p + 4 + ReadU32(buffer, p)]) else Err(OutOfRange)
    case _ => Err(NotAString)
  }

  /** getPrimitiveArrayRosValueBuffer: the address of element 0, which must lie inside the buffer even when there is
      none. */
  function ArrayBuffer(v: RosValue, buffer: seq<byte>): Result<nat, AccessError> {
    if !v.PrimitiveArrayCell? then Err(NotAnArray)
    else
      match At(v, 0)
      case Ok(Detached(_, offset)) => if offset < |buffer| then Ok(offset) else Err(OutOfRange)
      case Ok(InArena(_)) => Err(NotAPrimitive)
      case Err(e) => Err(e)
  }

  /** getPrimitiveArrayRosValueBufferSize */
  function ArrayBufferSize(v: RosValue): Result<nat, AccessError> {
    match v
    case PrimitiveArrayCell(t, Some(e)) => if IsFixed(t) then Ok(e.length * SizeOf(t)) else Err(NotAPrimitive)
    case _ => Err(NotAnArray)
  }

  /** RosValue::getElementType: an array asks its element 0. */
  function GetElementType(arena: Arena, v: RosValue): Result<Type, AccessError> {
    match v
    case PrimitiveArrayCell(t, _) => Ok(t)
    case ArrayCell(children) =>
      (match ListAt(children, 0)
       case Err(e) => Err(e)
       case Ok(p) => match Deref(arena, p) case Err(e) => Err(e) case Ok(c) => Ok(c.GetType()))
    case _ => Err(NotAnArray)
  }

  /** RosValue::getValues: the pointers at every index below the size. */
  method GetValues(v: RosValue) returns (r: Result<seq<Pointer>, AccessError>)
    ensures r.Ok? ==> Size(v).Ok? && |r.value| == Size(v).value && forall i :: 0 <= i < |r.value| ==>
      At(v, i) == Ok(r.value[i])
    ensures r.Err? ==> Size(v).Err? || exists i :: 0 <= i < Size(v).value && At(v, i).Err?
  {
    var size := Size(v);
    if size.Err? {
      return Err(size.error);
    }
    var values: seq<Pointer> := [];
    for i := 0 to size.value
      invariant |values| == i
      invariant forall j :: 0 <= j < i ==> At(v, j) == Ok(values[j])
    {
      var p := At(v, i);
      if p.Err? {
        return Err(p.error);
      }
      values := values + [p.value];
    }
    r := Ok(values);
  }

  /** RosValue::getObjects: a walk over the field indexes in arbitrary order. */
  method GetObjects(v: RosValue) returns (r: Result<map<string, Pointer>, AccessError>)
    ensures r.Ok? ==> v.ObjectCell? && r.value.Keys == v.fieldIndexes.Keys && forall k :: k in r.value ==>
      Get(v, k) == Ok(r.value[k])
    ensures r.Err? ==> !v.ObjectCell? || exists k :: k in v.fieldIndexes && Get(v, k).Err?
  {
    if !v.ObjectCell? {
      return Err(NotAnObject);
    }
    var objects: map<string, Pointer> := map[];
    var todo := v.fieldIndexes.Keys;
    while todo != {}
      invariant todo <= v.fieldIndexes.Keys
      invariant objects.Keys == v.fieldIndexes.Keys - todo
      invariant forall k :: k in objects ==> Get(v, k) == Ok(objects[k])
    {
      var k :| k in todo;
      var p := At(v, v.fieldIndexes[k]);
      if p.Err? {
        assert Get(v, k).Err?;
        return Err(p.error);
      }
      objects := objects[k := p.value];
      todo := todo - {k};
    }
    r := Ok(objects);
  }

  /** The range of children that a container owns. */
  function ChildrenOf(v: RosValue): Option<Span> {
    match v
    case ObjectCell(_, c) => c
    case ArrayCell(c) => c
    case _ => None
  }

  predicate Owns(v: RosValue, j: nat) {
    var c := ChildrenOf(v);
    c.Some? && c.value.offset <= j < c.value.offset + c.value.length
  }

  /** How many cells of an arena claim index j as a child. */
  function Owners(cells: Arena, j: nat): nat {
    if cells == [] then 0 else Owners(cells[..|cells| - 1], j) + if Owns(cells[|cells| - 1], j) then 1 else 0
  }

  lemma {:induction false} OwnersConcat(a: Arena, b: Arena, j: nat)
    ensures Owners(a + b, j) == Owners(a, j) + Owners(b, j)
  {
    if b == [] {
      assert a + b == a;
    } else {
      assert (a + b)[..|a + b| - 1] == a + b[..|b| - 1];
      OwnersConcat(a, b[..|b| - 1], j);
    }
  }

  predicate Initialised(v: RosValue) {
    match v
    case PrimitiveCell(_, o) => o.Some?
    case PrimitiveArrayCell(_, e) => e.Some?
    case ArrayCell(c) => c.Some?
    case ObjectCell(_, c) => c.Some?
  }

  /** Cells placed from base on: each is initialised, and its children lie after it and before end. */
  predicate Forward(cells: Arena, base: nat, end: nat) {
    forall i :: 0 <= i < |cells| ==>
      Initialised(cells[i]) && (ChildrenOf(cells[i]).Some? ==>
        base + i < ChildrenOf(cells[i]).value.offset &&
          ChildrenOf(cells[i]).value.offset + ChildrenOf(cells[i]).value.length <= end)
  }
}
