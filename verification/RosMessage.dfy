/** A delivered message: a slice of a chunk buffer that is decoded on first use and then remembered. */
module Messages {
  import opened Wrappers
  import opened Bytes
  import opened RosTimes
  import opened MsgTypes
  import opened RosValues
  import opened Wire
  import opened Lengths
  import opened Parser
  import opened Decoding
  import opened Access
  import opened Printing

  class RosMessage {
    const topic: string
    const timestamp: Time
    const md5: string
    const rawBuffer: array<byte>
    const rawBufferOffset: nat
    const rawDataLen: nat
    const msgDef: MsgDef
    var parsed: bool
    var data: Pointer
    var arena: Arena

    constructor (topic: string, timestamp: Time, md5: string, rawBuffer: array<byte>, offset: nat, rawDataLen: nat,
          msgDef: MsgDef)
      ensures this.topic == topic && this.timestamp == timestamp && this.md5 == md5
      ensures this.rawBuffer == rawBuffer && rawBufferOffset == offset && this.rawDataLen == rawDataLen &&
        this.msgDef == msgDef
      ensures !parsed && Valid()
    {
      this.topic, this.timestamp, this.md5 := topic, timestamp, md5;
      this.rawBuffer, this.rawBufferOffset, this.rawDataLen, this.msgDef := rawBuffer, offset, rawDataLen, msgDef;
      parsed, data, arena := false, InArena(0), [];
    }

    ghost predicate InBounds()
    {
      rawBufferOffset + rawDataLen <= rawBuffer.Length
    }

    ghost function RawData(): seq<byte>
      requires InBounds()
      reads rawBuffer
    {
      rawBuffer[rawBufferOffset..rawBufferOffset + rawDataLen]
    }

    /** The slice starts with the serialization of vs. */
    ghost predicate Encodes(vs: seq<Value>)
      reads rawBuffer, msgDef
    {
      AdmitsAll(msgDef.definitions, Fields(msgDef.root.members), vs) &&
      Holds(rawBuffer[..], rawBufferOffset, SerAll(msgDef.definitions, Fields(msgDef.root.members), vs))
    }

    /** What has been decoded is what a fresh decode would give. */
    ghost predicate Valid()
      reads this, rawBuffer, msgDef
    {
      parsed ==>
        && data == InArena(0)
        && forall vs :: Encodes(vs) ==> arena == MessageArena(msgDef.definitions, msgDef.root, vs, rawBufferOffset)
    }

    /** RosMessage::data: the decoded message, which reads back as the value in the slice; decoded at most once. */
    method Data(ghost vs: seq<Value>) returns (p: Pointer)
      requires Valid() && Encodes(vs)
      modifies this`parsed, this`data, this`arena
      ensures Valid() && parsed && p == data == InArena(0)
      ensures arena == MessageArena(msgDef.definitions, msgDef.root, vs, rawBufferOffset)
      ensures ReadPointer(arena, rawBuffer[..], p) == Ok(Record(vs))
      ensures old(parsed) ==> arena == old(arena)
    {
      hide AdmitsAll, SerAll, MessageArena, ReadAt;
      if !parsed {
        Hydrate(vs);
      }
      p := data;
      MessageReadsBack(msgDef.definitions, msgDef.root, vs, rawBufferOffset, rawBuffer[..]);
      ArenaHasRoot(msgDef.definitions, msgDef.root, vs, rawBufferOffset);
    }

    /** RosMessage::toString: the text of the message in the slice. */
    method ToString(order: Order, show: Show, ghost vs: seq<Value>) returns (r: Result<string, AccessError>)
      requires Valid() && Encodes(vs)
      requires Lists(order) && AllIndexesInside(msgDef.definitions) && IndexesInside(msgDef.root)
      modifies this`parsed, this`data, this`arena
      ensures Valid() && parsed
      ensures r ==
        Ok(PrintedFields(msgDef.definitions, order, show, msgDef.root, vs, order(msgDef.root.fieldIndexes), ""))
    {
      hide AdmitsAll, SerAll, MessageArena, ReadPointer, TextOf, PrintedFields, Forward, Lists, AllIndexesInside,
        IndexesInside;
      var p := Data(vs);
      MessagePrints(msgDef.definitions, order, show, msgDef.root, vs, rawBufferOffset, rawBuffer[..], "");
      r := Printing.ToString(arena, rawBuffer[..], order, show, p.index, "");
    }

    method Hydrate(ghost vs: seq<Value>)
      requires !parsed && Encodes(vs)
      modifies this`parsed, this`data, this`arena
      ensures Valid() && parsed
      ensures arena == MessageArena(msgDef.definitions, msgDef.root, vs, rawBufferOffset)
    {
      hide AdmitsAll, SerAll, MessageArena, AllLengthsInside;
      var b0: byte, b1: byte, b2: byte := *, *, *;
      var beyond := [b0, b1, b2];
      ghost var memory := rawBuffer[..] + beyond;
      var msg := new MessageParser(rawBuffer, beyond, rawBufferOffset, msgDef.root, msgDef.definitions, memory);
      HoldsInFront(rawBuffer[..], beyond, rawBufferOffset,
        SerAll(msgDef.definitions, Fields(msgDef.root.members), vs));
      AllIsInside(msgDef.definitions, Fields(msgDef.root.members), vs, rawBufferOffset, rawBuffer.Length);
      var root := msg.Parse(vs);
      data := root.value;
      arena := msg.rosValues;
      parsed := true;
      forall ws | Encodes(ws)
        ensures ws == vs
      {
        MessageIsUnique(msgDef.definitions, msgDef.root, vs, ws, rawBuffer[..], rawBufferOffset);
      }
    }
  }

  lemma ArenaHasRoot(env: Definitions, def: BaseDef, vs: seq<Value>, pos: nat)
    ensures 0 < |MessageArena(env, def, vs, pos)|
  {
  }

  /** The bytes of a message determine the message. */
  lemma MessageIsUnique(env: Definitions, def: BaseDef, vs: seq<Value>, ws: seq<Value>, buffer: seq<byte>, pos: nat)
    requires AdmitsAll(env, Fields(def.members), vs) && AdmitsAll(env, Fields(def.members), ws)
    requires Holds(buffer, pos, SerAll(env, Fields(def.members), vs)) &&
      Holds(buffer, pos, SerAll(env, Fields(def.members), ws))
    ensures vs == ws
  {
    SiblingsAreUnique(env, Fields(def.members), vs, ws, buffer, pos, |vs|);
    assert vs[..|vs|] == vs && ws[..|ws|] == ws;
  }
}
