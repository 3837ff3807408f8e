/**
 * Messages are decoded with the definition of the first connection of their topic.  When that is the definition of
 * their own connection, and a file in which it is not.
 */
module TopicDefinitions {
  import opened Wrappers
  import opened Bytes
  import opened Framing
  import opened BagIndex
  import opened Bags
  import opened EndToEnd

  /** Connection c has the definition text and the type of the first connection of its topic. */
  ghost predicate LikeFirst(l: BagLayout, c: nat)
    requires Coherent(l) && c < |l.connections|
  {
    var table, topics := IndexTable(l), Topics(Entries(l));
    var topic := table[c].topic;
    && topic in topics && topics[topic] != [] && topics[topic][0] < |table|
    && table[topics[topic][0]].data.messageDefinition == table[c].data.messageDefinition
    && table[topics[topic][0]].data.msgType == table[c].data.msgType
  }

  /** Exactly when messages are decoded with the definition of their own connection, whatever the grammar is. */
  lemma DefinitionIsOwn(l: BagLayout, c: nat)
    requires Coherent(l) && c < |l.connections|
    ensures (forall g: Grammar :: DefinitionIn(l, g, c) == DefinitionUnder(g, IndexTable(l)[c].data)) <==>
      LikeFirst(l, c)
  {
    hide IdsInRange, AllInTable, Table, AddChunks, Topics, DefinitionUnder;
    var table, topics := IndexTable(l), Topics(Entries(l));
    var topic := table[c].topic;
    if topic in topics && topics[topic] != [] && topics[topic][0] < |table| {
      SameDefinitionIffSameText(table[topics[topic][0]].data, table[c].data);
      assert forall g: Grammar :: DefinitionIn(l, g, c) == DefinitionUnder(g, table[topics[topic][0]].data);
    } else {
      var g := SomeDefinition(table[c].data);
      assert DefinitionIn(l, g, c) == None;
    }
  }

  // ---------- Two connections of one topic ----------

  function ConnectionOn(topic: seq<byte>, id: seq<byte>, body: seq<Field>): Record {
    Record([Field("conn", id), Field("topic", topic)], Encode(body))
  }

  function BodyWith(definition: seq<byte>): seq<Field> {
    [Field("type", [84]), Field("md5sum", []), Field("message_definition", definition)]
  }

  /** A file with the connections 0 and 1 on the topic "a", with different definition texts. */
  function TwoDefinitions(header: Record): BagLayout {
    var a, b := BodyWith([49]), BodyWith([50]);
    BagLayout(header, [ConnectionOn([97], [0, 0, 0, 0], a), ConnectionOn([97], [1, 0, 0, 0], b)], [a, b], [], [])
  }

  lemma HeaderOn(topic: seq<byte>, id: seq<byte>, definition: seq<byte>)
    requires |id| == 4
    ensures
      var e := EntryOf(ConnectionOn(topic, id, BodyWith(definition)), BodyWith(definition));
      e.Topic() == Chars(topic) && e.Id() == ReadU32(id, 0) && e.Data().messageDefinition == Chars(definition)
  {
    hide ReadU32, LastWins;
    var fs, body := [Field("conn", id), Field("topic", topic)], BodyWith(definition);
    assert "conn" != "topic" by { assert "conn"[0] != "topic"[0]; }
    LastWinsMeaning(fs, "conn");
    LastWinsMeaning(fs, "topic");
    LastWinsMeaning(body, "message_definition");
    assert fs[0].name == "conn" && fs[1].name == "topic" && body[2].name == "message_definition";
  }

  lemma TwoEntries(es: seq<ConnectionEntry>, topic: string)
    requires |es| == 2 && es[0].Topic() == es[1].Topic() == topic != "" && es[0].Id() == 0 && es[1].Id() == 1
    ensures IdsInRange(es, 2) && topic in Topics(es) && Topics(es)[topic] == [0, 1]
    ensures Table(es, 2)[0].data == es[0].Data() && Table(es, 2)[1].data == es[1].Data()
    ensures Table(es, 2)[1].topic == topic
  {
    hide Table, Topics, ConnectionEntry.Id, ConnectionEntry.Topic, ConnectionEntry.Data;
    TopicsListIds(es, topic);
    assert es[..1][..0] == [] && es[..1][0] == es[0];
    assert IdsOf(es[..1], topic) == IdsOf(es[..1][..0], topic) + [0];
    assert IdsOf(es, topic) == IdsOf(es[..1], topic) + [1];
    assert NamesLast(es, 0, 0) && NamesLast(es, 1, 1);
    TableHoldsEntries(es, 2, 0);
    TableHoldsEntries(es, 2, 1);
  }

  /** In it the messages of connection 1 are not decoded with their own definition under every grammar. */
  lemma DefinitionOfAnother(header: Record)
    ensures
      var l := TwoDefinitions(header);
      Coherent(l) && exists g: Grammar :: DefinitionIn(l, g, 1) != DefinitionUnder(g, IndexTable(l)[1].data)
  {
    hide IdsInRange, Table, Topics, DefinitionIn, DefinitionUnder, EntryOf;
    var l := TwoDefinitions(header);
    var es := Entries(l);
    HeaderOn([97], [0, 0, 0, 0], [49]);
    HeaderOn([97], [1, 0, 0, 0], [50]);
    assert Chars([97]) == "a";
    assert Chars([49])[0] != Chars([50])[0];
    TwoEntries(es, "a");
    assert AllIndexes(l.chunks) == [] && IndexTable(l) == Table(es, 2);
    DefinitionIsOwn(l, 1);
  }
}
