/**
 * What the index of a bag is meant to be, as folds over the records of the file, and the properties of those folds.
 * The class Bag is proved to compute them from the bytes of the file.
 */
module BagIndex {
  import opened Wrappers
  import opened Bytes
  import opened RosTimes
  import opened MsgTypes
  import opened Framing
  import opened BagTypes

  // ---------- Typed header fields ----------

  predicate HasU32(m: FieldMap, name: string) { name in m && |m[name]| >= 4 }

  predicate HasU64(m: FieldMap, name: string) { name in m && |m[name]| >= 8 }

  function U32Field(m: FieldMap, name: string): (n: nat)
    ensures n < TWO_TO_32
  {
    if HasU32(m, name) then ReadU32(m[name], 0) else 0
  }

  function U64Field(m: FieldMap, name: string): nat {
    if HasU64(m, name) then ReadU64(m[name], 0) else 0
  }

  function TimeField(m: FieldMap, name: string): Time {
    if HasU64(m, name) then ReadTime(m[name], 0) else Time(0, 0)
  }

  function TextField(m: FieldMap, name: string): string {
    if name in m then Chars(m[name]) else ""
  }

  // ---------- Connections ----------

  /** A CONNECTION record: its header fields and the fields inside its data. */
  datatype ConnectionEntry = ConnectionEntry(header: FieldMap, body: FieldMap)
  {
    function Id(): nat { U32Field(header, "conn") }
    function Topic(): string { TextField(header, "topic") }
    function Data(): ConnectionData {
      ConnectionData(Topic(), TextField(body, "type"), ScopeOf(TextField(body, "type")), TextField(body, "md5sum"),
        TextField(body, "message_definition"), TextField(body, "callerid"), TextField(body, "latching") == "1", 0)
    }
  }

  type Connections = seq<ConnectionRecord>
  type TopicMap = map<string, seq<nat>>

  const NO_CONNECTION := ConnectionRecord(0, [], "", ConnectionData("", "", "", "", "", "", false, 0))

  function EmptyTable(n: nat): Connections {
    seq(n, _ => NO_CONNECTION)
  }

  function AddConnection(table: Connections, e: ConnectionEntry): Connections {
    if e.Topic() != "" && e.Id() < |table| then
      table[e.Id() := table[e.Id()].(id := e.Id(), topic := e.Topic(), data := e.Data())]
    else table
  }

  function AddTopic(topics: TopicMap, e: ConnectionEntry): TopicMap {
    if e.Topic() == "" then topics
    else topics[e.Topic() := (if e.Topic() in topics then topics[e.Topic()] else []) + [e.Id()]]
  }

  function Table(es: seq<ConnectionEntry>, n: nat): (t: Connections)
    ensures |t| == n
  {
    if es == [] then EmptyTable(n) else AddConnection(Table(es[..|es| - 1], n), es[|es| - 1])
  }

  function Topics(es: seq<ConnectionEntry>): TopicMap {
    if es == [] then map[] else AddTopic(Topics(es[..|es| - 1]), es[|es| - 1])
  }

  lemma TableStep(es: seq<ConnectionEntry>, i: nat, n: nat)
    requires i <= |es|
    ensures i == 0 ==> Table(es[..i], n) == EmptyTable(n) && Topics(es[..i]) == map[]
    ensures i < |es| ==>
      && Table(es[..i + 1], n) == AddConnection(Table(es[..i], n), es[i])
      && Topics(es[..i + 1]) == AddTopic(Topics(es[..i]), es[i])
  {
    if i < |es| {
      assert es[..i + 1][..i] == es[..i];
    }
  }

  /** Entry i is a named record of connection c. */
  predicate Names(es: seq<ConnectionEntry>, i: nat, c: nat) {
    i < |es| && es[i].Topic() != "" && es[i].Id() == c
  }

  predicate NamesLast(es: seq<ConnectionEntry>, i: nat, c: nat) {
    Names(es, i, c) && forall j :: i < j < |es| ==> !Names(es, j, c)
  }

  /** The ids of named connection records are below the connection count. */
  predicate IdsInRange(es: seq<ConnectionEntry>, n: nat) {
    forall i :: 0 <= i < |es| && es[i].Topic() != "" ==> es[i].Id() < n
  }

  function LastNamed(es: seq<ConnectionEntry>, c: nat): Option<ConnectionEntry> {
    if es == [] then None else
      var e := es[|es| - 1];
      if e.Topic() != "" && e.Id() == c then Some(e) else LastNamed(es[..|es| - 1], c)
  }

  lemma {:induction false} LastNamedAt(es: seq<ConnectionEntry>, i: nat, c: nat)
    requires NamesLast(es, i, c)
    ensures LastNamed(es, c) == Some(es[i])
  {
    hide ConnectionEntry.Id, ConnectionEntry.Topic;
    var k := |es| - 1;
    if i < k {
      assert !Names(es, k, c);
      assert forall j: nat :: j < k ==> (Names(es[..k], j, c) <==> Names(es, j, c));
      LastNamedAt(es[..k], i, c);
    }
  }

  lemma {:induction false} NoneNamed(es: seq<ConnectionEntry>, c: nat)
    requires forall i: nat :: !Names(es, i, c)
    ensures LastNamed(es, c) == None
  {
    hide ConnectionEntry.Id, ConnectionEntry.Topic;
    if es != [] {
      var k := |es| - 1;
      assert !Names(es, k, c);
      forall j: nat
        ensures !Names(es[..k], j, c)
      {
        assert !Names(es, j, c);
      }
      NoneNamed(es[..k], c);
    }
  }

  lemma {:induction false} TableEntry(es: seq<ConnectionEntry>, n: nat, c: nat)
    requires IdsInRange(es, n) && c < n
    ensures Table(es, n)[c] ==
      match LastNamed(es, c) case None => NO_CONNECTION case Some(e) => ConnectionRecord(c, [], e.Topic(), e.Data())
  {
    hide ConnectionEntry.Id, ConnectionEntry.Topic, ConnectionEntry.Data;
    if es != [] {
      TableEntry(es[..|es| - 1], n, c);
    }
  }

  /** A table entry holds the last named connection record of its id, an id without one has an empty entry, and no entry
      has blocks yet. */
  lemma TableHoldsEntries(es: seq<ConnectionEntry>, n: nat, c: nat)
    requires IdsInRange(es, n) && c < n
    ensures forall i: nat :: NamesLast(es, i, c) ==>
      i < |es| && Table(es, n)[c] == ConnectionRecord(c, [], es[i].Topic(), es[i].Data())
    ensures (forall i: nat :: !Names(es, i, c)) ==> Table(es, n)[c] == NO_CONNECTION
    ensures Table(es, n)[c].blocks == []
  {
    hide Table, LastNamed;
    TableEntry(es, n, c);
    forall i: nat | NamesLast(es, i, c)
      ensures i < |es| && LastNamed(es, c) == Some(es[i])
    {
      LastNamedAt(es, i, c);
    }
    if forall i: nat :: !Names(es, i, c) {
      NoneNamed(es, c);
    }
  }

  lemma {:induction false} SomeNamesLast(es: seq<ConnectionEntry>, i: nat, c: nat) returns (l: nat)
    requires Names(es, i, c)
    ensures NamesLast(es, l, c)
    decreases |es| - i
  {
    l := i;
    if j :| i < j < |es| && Names(es, j, c) {
      l := SomeNamesLast(es, j, c);
    }
  }

  /** The ids of the connection records on a topic, in file order. */
  function IdsOf(es: seq<ConnectionEntry>, topic: string): seq<nat> {
    if es == [] then [] else
      IdsOf(es[..|es| - 1], topic) + if es[|es| - 1].Topic() == topic then [es[|es| - 1].Id()] else []
  }

  predicate Carries(es: seq<ConnectionEntry>, i: nat, topic: string, c: nat) {
    i < |es| && es[i].Topic() == topic && es[i].Id() == c
  }

  /** A topic maps to the ids of its connection records, in file order. */
  lemma {:induction false} TopicsListIds(es: seq<ConnectionEntry>, topic: string)
    ensures topic in Topics(es) <==> topic != "" && IdsOf(es, topic) != []
    ensures topic in Topics(es) ==> Topics(es)[topic] == IdsOf(es, topic)
  {
    if es != [] {
      TopicsListIds(es[..|es| - 1], topic);
    }
  }

  lemma {:induction false} IdsOfMeaning(es: seq<ConnectionEntry>, topic: string, c: nat)
    ensures c in IdsOf(es, topic) <==> exists i: nat :: Carries(es, i, topic, c)
  {
    hide ConnectionEntry.Id, ConnectionEntry.Topic;
    if es != [] {
      var k := |es| - 1;
      var before := es[..k];
      IdsOfMeaning(before, topic, c);
      assert forall i :: 0 <= i < k ==> before[i] == es[i];
      if i: nat :| Carries(before, i, topic, c) {
        assert Carries(es, i, topic, c);
      }
      if i: nat :| Carries(es, i, topic, c) {
        assert i < k ==> Carries(before, i, topic, c);
      }
      if es[k].Topic() == topic && es[k].Id() == c {
        assert Carries(es, k, topic, c);
      }
    }
  }

  /** Entry i is the first on its topic. */
  predicate FirstOn(es: seq<ConnectionEntry>, i: nat, topic: string) {
    i < |es| && es[i].Topic() == topic && forall j :: 0 <= j < i ==> es[j].Topic() != topic
  }

  lemma {:induction false} NoneOn(es: seq<ConnectionEntry>, topic: string)
    requires forall j :: 0 <= j < |es| ==> es[j].Topic() != topic
    ensures IdsOf(es, topic) == []
  {
    hide ConnectionEntry.Id, ConnectionEntry.Topic;
    if es != [] {
      NoneOn(es[..|es| - 1], topic);
    }
  }

  /** The ids of a topic begin with that of its first record in the file. */
  lemma {:induction false} FirstIdIsFirst(es: seq<ConnectionEntry>, i: nat, topic: string)
    requires FirstOn(es, i, topic)
    ensures IdsOf(es, topic) != [] && IdsOf(es, topic)[0] == es[i].Id()
  {
    hide ConnectionEntry.Id, ConnectionEntry.Topic;
    var k := |es| - 1;
    if i < k {
      assert es[..k][i] == es[i] && forall j :: 0 <= j < i ==> es[..k][j] == es[j];
      FirstIdIsFirst(es[..k], i, topic);
    } else {
      NoneOn(es[..k], topic);
    }
  }

  /** Two different records of one topic with the same id. */
  predicate Repeats(es: seq<ConnectionEntry>, i: nat, j: nat, topic: string) {
    i < j < |es| && es[i].Topic() == topic == es[j].Topic() && es[i].Id() == es[j].Id()
  }

  predicate AllDifferent<T(==)>(s: seq<T>) {
    forall a, b :: 0 <= a < b < |s| ==> s[a] != s[b]
  }

  lemma DifferentSnoc<T>(s: seq<T>, x: T)
    ensures AllDifferent(s + [x]) <==> AllDifferent(s) && x !in s
  {
    if AllDifferent(s + [x]) {
      forall a, b | 0 <= a < b < |s|
        ensures s[a] != s[b]
      {
        assert (s + [x])[a] == s[a] && (s + [x])[b] == s[b];
      }
    }
    if x in s {
      var a :| 0 <= a < |s| && s[a] == x;
      assert (s + [x])[a] == (s + [x])[|s|];
    }
  }

  /** A topic lists no id twice iff no two of its records share one. */
  lemma {:induction false} IdsAreDistinct(es: seq<ConnectionEntry>, topic: string)
    ensures AllDifferent(IdsOf(es, topic)) <==> forall i: nat, j: nat :: !Repeats(es, i, j, topic)
  {
    hide ConnectionEntry.Id, ConnectionEntry.Topic, AllDifferent;
    if es == [] {
      assert AllDifferent(IdsOf(es, topic)) by { NoneDiffer(es, topic); }
    } else {
      var k := |es| - 1;
      var before := es[..k];
      assert forall i: nat :: i < k ==> before[i] == es[i];
      IdsAreDistinct(before, topic);
      assert forall i: nat, j: nat :: j < k ==> (Repeats(before, i, j, topic) <==> Repeats(es, i, j, topic));
      if es[k].Topic() == topic {
        IdsOfMeaning(before, topic, es[k].Id());
        DifferentSnoc(IdsOf(before, topic), es[k].Id());
        if i: nat :| Carries(before, i, topic, es[k].Id()) {
          assert Repeats(es, i, k, topic);
        }
        if i: nat :| Repeats(es, i, k, topic) {
          assert Carries(before, i, topic, es[k].Id());
        }
      } else {
        assert IdsOf(before, topic) + [] == IdsOf(before, topic);
        assert forall i: nat :: !Repeats(es, i, k, topic);
      }
      if i: nat, j: nat :| Repeats(es, i, j, topic) {
        assert j == k || Repeats(before, i, j, topic);
      }
      if i: nat, j: nat :| Repeats(before, i, j, topic) {
        assert Repeats(es, i, j, topic);
      }
    }
  }

  lemma NoneDiffer(es: seq<ConnectionEntry>, topic: string)
    requires es == []
    ensures AllDifferent(IdsOf(es, topic))
  {
  }

  predicate LeadsTo(es: seq<ConnectionEntry>, topic: string, c: nat) {
    topic in Topics(es) && c in Topics(es)[topic]
  }

  /** No connection id is carried under two different topics. */
  ghost predicate OneTopicPerId(es: seq<ConnectionEntry>) {
    forall i: nat, j: nat, c: nat :: Names(es, i, c) && Names(es, j, c) ==> es[i].Topic() == es[j].Topic()
  }

  lemma LeadsToMeaning(es: seq<ConnectionEntry>, topic: string, c: nat)
    ensures LeadsTo(es, topic, c) <==> topic != "" && exists i: nat :: Carries(es, i, topic, c)
  {
    hide ConnectionEntry.Id, ConnectionEntry.Topic, Topics, IdsOf;
    TopicsListIds(es, topic);
    IdsOfMeaning(es, topic, c);
    if c in IdsOf(es, topic) {
      assert IdsOf(es, topic) != [];
    }
  }

  /** The entry of a connection that some topic leads to is the one with its number. */
  lemma LeadsToEntry(es: seq<ConnectionEntry>, n: nat, topic: string, c: nat)
    requires IdsInRange(es, n) && LeadsTo(es, topic, c)
    ensures c < n && Table(es, n)[c].id == c && Table(es, n)[c].topic != ""
  {
    hide ConnectionEntry.Id, ConnectionEntry.Topic, Topics, Table;
    LeadsToMeaning(es, topic, c);
    var i: nat :| Carries(es, i, topic, c);
    var l := SomeNamesLast(es, i, c);
    TableHoldsEntries(es, n, c);
  }

  /** Every topic leads to the entries that carry it. */
  lemma CarriedIsLedTo(es: seq<ConnectionEntry>, n: nat, topic: string, c: nat)
    requires IdsInRange(es, n) && c < n && topic != "" && Table(es, n)[c].topic == topic
    ensures LeadsTo(es, topic, c)
  {
    hide ConnectionEntry.Id, ConnectionEntry.Topic, Topics, Table;
    LeadsToMeaning(es, topic, c);
    TableHoldsEntries(es, n, c);
    var i: nat :| Names(es, i, c);
    var l := SomeNamesLast(es, i, c);
    assert Carries(es, l, topic, c);
  }

  /** Topics lead to exactly the table entries that carry them, iff no id is carried under two different topics. */
  lemma TopicsLeadToEntries(es: seq<ConnectionEntry>, n: nat)
    requires IdsInRange(es, n)
    ensures
      (forall topic: string, c: nat :: topic != "" && c < n ==>
        (LeadsTo(es, topic, c) <==> Table(es, n)[c].topic == topic))
      <==> OneTopicPerId(es)
  {
    hide ConnectionEntry.Id, ConnectionEntry.Topic, Topics, Table, LeadsTo;
    if OneTopicPerId(es) {
      forall topic: string, c: nat | topic != "" && c < n
        ensures LeadsTo(es, topic, c) <==> Table(es, n)[c].topic == topic
      {
        if LeadsTo(es, topic, c) {
          LeadsToMeaning(es, topic, c);
          var i: nat :| Carries(es, i, topic, c);
          var l := SomeNamesLast(es, i, c);
          TableHoldsEntries(es, n, c);
        }
        if Table(es, n)[c].topic == topic {
          CarriedIsLedTo(es, n, topic, c);
        }
      }
    } else {
      var i: nat, j: nat, c: nat :| Names(es, i, c) && Names(es, j, c) && es[i].Topic() != es[j].Topic();
      assert Carries(es, i, es[i].Topic(), c) && Carries(es, j, es[j].Topic(), c);
      LeadsToMeaning(es, es[i].Topic(), c);
      LeadsToMeaning(es, es[j].Topic(), c);
    }
  }

  /** Two records under the topics "a" and "b" with connection id 0: topic "a" leads to the entry of topic "b". */
  lemma TopicLeadsElsewhere(first: FieldMap, second: FieldMap)
    ensures
      var es := [
        ConnectionEntry(map["conn" := [0, 0, 0, 0], "topic" := [97]], first),
        ConnectionEntry(map["conn" := [0, 0, 0, 0], "topic" := [98]], second)];
      IdsInRange(es, 1) && LeadsTo(es, "a", 0) && Table(es, 1)[0].topic == "b"
  {
    hide Topics, Table;
    var a := ConnectionEntry(map["conn" := [0, 0, 0, 0], "topic" := [97]], first);
    var b := ConnectionEntry(map["conn" := [0, 0, 0, 0], "topic" := [98]], second);
    var es := [a, b];
    assert a.Topic() == "a" && b.Topic() == "b" && a.Id() == b.Id() == 0;
    assert Carries(es, 0, "a", 0) && NamesLast(es, 1, 0);
    LeadsToMeaning(es, "a", 0);
    TableHoldsEntries(es, 1, 0);
  }

  // ---------- INDEX_DATA ----------

  /** An INDEX_DATA record: count messages on connection conn in the chunk it follows. */
  datatype IndexEntry = IndexEntry(conn: nat, count: nat)

  function IndexEntryOf(m: FieldMap): IndexEntry {
    IndexEntry(U32Field(m, "conn"), U32Field(m, "count"))
  }

  predicate InTable(es: seq<IndexEntry>, n: nat) {
    forall i :: 0 <= i < |es| ==> es[i].conn < n
  }

  predicate AllInTable(all: seq<seq<IndexEntry>>, n: nat) {
    forall i :: 0 <= i < |all| ==> InTable(all[i], n)
  }

  function AddIndex(table: Connections, e: IndexEntry, chunk: nat): Connections
    requires e.conn < |table|
  {
    var c := table[e.conn];
    table[e.conn := c.(blocks := c.blocks + [IndexBlock(chunk)],
                       data := c.data.(messageCount := c.data.messageCount + e.count))]
  }

  function AddIndexes(table: Connections, es: seq<IndexEntry>, chunk: nat): (t: Connections)
    requires InTable(es, |table|)
    ensures |t| == |table|
  {
    if es == [] then table else AddIndex(AddIndexes(table, es[..|es| - 1], chunk), es[|es| - 1], chunk)
  }

  lemma AddIndexesStep(table: Connections, es: seq<IndexEntry>, i: nat, chunk: nat)
    requires InTable(es, |table|) && i <= |es|
    ensures InTable(es[..i], |table|) && (i == 0 ==> AddIndexes(table, es[..i], chunk) == table && Total(es[..i]) == 0)
    ensures i < |es| ==>
      && es[i].conn < |table| && InTable(es[..i + 1], |table|)
      && AddIndexes(table, es[..i + 1], chunk) == AddIndex(AddIndexes(table, es[..i], chunk), es[i], chunk)
      && Total(es[..i + 1]) == Total(es[..i]) + es[i].count
  {
    if i < |es| {
      assert es[..i + 1][..i] == es[..i];
    }
  }

  /** The table after the INDEX_DATA records of all chunks, chunk by chunk. */
  function AddChunks(table: Connections, all: seq<seq<IndexEntry>>): (t: Connections)
    requires AllInTable(all, |table|)
    ensures |t| == |table|
  {
    if all == [] then table else AddIndexes(AddChunks(table, all[..|all| - 1]), all[|all| - 1], |all| - 1)
  }

  lemma AddChunksStep(table: Connections, all: seq<seq<IndexEntry>>, i: nat)
    requires AllInTable(all, |table|) && i <= |all|
    ensures AllInTable(all[..i], |table|) && (i == 0 ==> AddChunks(table, all[..i]) == table)
    ensures i < |all| ==>
      && InTable(all[i], |table|) && AllInTable(all[..i + 1], |table|)
      && AddChunks(table, all[..i + 1]) == AddIndexes(AddChunks(table, all[..i]), all[i], i)
  {
    if i < |all| {
      assert all[..i + 1][..i] == all[..i];
    }
  }

  /** One reference to the chunk for each INDEX_DATA record of connection c after it. */
  function BlocksIn(es: seq<IndexEntry>, chunk: nat, c: nat): seq<IndexBlock> {
    if es == [] then [] else
      BlocksIn(es[..|es| - 1], chunk, c) + if es[|es| - 1].conn == c then [IndexBlock(chunk)] else []
  }

  function BlocksFor(all: seq<seq<IndexEntry>>, c: nat): seq<IndexBlock> {
    if all == [] then [] else BlocksFor(all[..|all| - 1], c) + BlocksIn(all[|all| - 1], |all| - 1, c)
  }

  function CountIn(es: seq<IndexEntry>, c: nat): nat {
    if es == [] then 0 else CountIn(es[..|es| - 1], c) + if es[|es| - 1].conn == c then es[|es| - 1].count else 0
  }

  function CountFor(all: seq<seq<IndexEntry>>, c: nat): nat {
    if all == [] then 0 else CountFor(all[..|all| - 1], c) + CountIn(all[|all| - 1], c)
  }

  lemma {:induction false} IndexesOfConnection(table: Connections, es: seq<IndexEntry>, chunk: nat, c: nat)
    requires InTable(es, |table|) && c < |table|
    ensures
      var before, after := table[c], AddIndexes(table, es, chunk)[c];
      after == before.(blocks := before.blocks + BlocksIn(es, chunk, c),
                       data := before.data.(messageCount := before.data.messageCount + CountIn(es, c)))
  {
    if es != [] {
      IndexesOfConnection(table, es[..|es| - 1], chunk, c);
    }
  }

  /** Each connection's blocks are, in CHUNK_INFO order and once per INDEX_DATA record, references to the chunk that the
      record follows; its message count is the sum of the counts of those records; nothing else about it changes. */
  lemma {:induction false} ChunksOfConnection(table: Connections, all: seq<seq<IndexEntry>>, c: nat)
    requires AllInTable(all, |table|) && c < |table|
    ensures
      var before, after := table[c], AddChunks(table, all)[c];
      after == before.(blocks := before.blocks + BlocksFor(all, c),
                       data := before.data.(messageCount := before.data.messageCount + CountFor(all, c)))
  {
    if all != [] {
      var k := |all| - 1;
      ChunksOfConnection(table, all[..k], c);
      IndexesOfConnection(AddChunks(table, all[..k]), all[k], k, c);
    }
  }

  /** A chunk is referenced by a connection iff one of the INDEX_DATA records after it names the connection. */
  lemma {:induction false} BlocksForMeaning(all: seq<seq<IndexEntry>>, c: nat, chunk: nat)
    ensures IndexBlock(chunk) in BlocksFor(all, c) <==>
      chunk < |all| && exists j :: 0 <= j < |all[chunk]| && all[chunk][j].conn == c
    ensures forall b :: b in BlocksFor(all, c) ==> b.intoChunk < |all|
  {
    hide BlocksIn;
    if all != [] {
      var k := |all| - 1;
      BlocksForMeaning(all[..k], c, chunk);
      BlocksInMeaning(all[k], k, c);
    }
  }

  /** The references of a connection follow the order of the chunks. */
  lemma {:induction false} BlocksAreInOrder(all: seq<seq<IndexEntry>>, c: nat)
    ensures forall i, j :: 0 <= i < j < |BlocksFor(all, c)| ==>
      BlocksFor(all, c)[i].intoChunk <= BlocksFor(all, c)[j].intoChunk
    ensures forall i :: 0 <= i < |BlocksFor(all, c)| ==> BlocksFor(all, c)[i].intoChunk < |all|
  {
    hide BlocksIn;
    if all != [] {
      var k := |all| - 1;
      BlocksAreInOrder(all[..k], c);
      BlocksInAreEqual(all[k], k, c);
    }
  }

  lemma {:induction false} BlocksInAreEqual(es: seq<IndexEntry>, chunk: nat, c: nat)
    ensures forall i :: 0 <= i < |BlocksIn(es, chunk, c)| ==> BlocksIn(es, chunk, c)[i] == IndexBlock(chunk)
  {
    if es != [] {
      BlocksInAreEqual(es[..|es| - 1], chunk, c);
    }
  }

  lemma {:induction false} BlocksInMeaning(es: seq<IndexEntry>, chunk: nat, c: nat)
    ensures forall b :: b in BlocksIn(es, chunk, c) <==>
      b == IndexBlock(chunk) && exists j :: 0 <= j < |es| && es[j].conn == c
  {
    if es != [] {
      var k := |es| - 1;
      BlocksInMeaning(es[..k], chunk, c);
      if j :| 0 <= j < |es| && es[j].conn == c {
        if j < k { assert es[..k][j].conn == c; }
      }
      if j :| 0 <= j < |es[..k]| && es[..k][j].conn == c {
        assert es[j].conn == c;
      }
    }
  }

  // ---------- Message counts ----------

  function Total(es: seq<IndexEntry>): nat {
    if es == [] then 0 else Total(es[..|es| - 1]) + es[|es| - 1].count
  }

  function GrandTotal(all: seq<seq<IndexEntry>>): nat {
    if all == [] then 0 else GrandTotal(all[..|all| - 1]) + Total(all[|all| - 1])
  }

  function SumCounts(table: Connections): nat {
    if table == [] then 0 else SumCounts(table[..|table| - 1]) + table[|table| - 1].data.messageCount
  }

  /** The sum of the message counts in the chunk table. */
  function SumMessageCounts(cs: seq<Chunk>): nat {
    if cs == [] then 0 else SumMessageCounts(cs[..|cs| - 1]) + cs[|cs| - 1].info.messageCount
  }

  /** The same from the INDEX_DATA records behind the chunks, each chunk counted in 32 bits. */
  function SumChunkCounts(all: seq<seq<IndexEntry>>): nat {
    if all == [] then 0 else SumChunkCounts(all[..|all| - 1]) + Wrap32(Total(all[|all| - 1]))
  }

  lemma {:induction false} SumOfUpdate(table: Connections, c: nat, r: ConnectionRecord)
    requires c < |table|
    ensures SumCounts(table[c := r]) + table[c].data.messageCount == SumCounts(table) + r.data.messageCount
  {
    var k := |table| - 1;
    if c < k {
      SumOfUpdate(table[..k], c, r);
      assert table[c := r][..k] == table[..k][c := r];
    } else {
      assert table[c := r][..k] == table[..k];
    }
  }

  lemma {:induction false} IndexesSum(table: Connections, es: seq<IndexEntry>, chunk: nat)
    requires InTable(es, |table|)
    ensures SumCounts(AddIndexes(table, es, chunk)) == SumCounts(table) + Total(es)
  {
    if es != [] {
      var k := |es| - 1;
      IndexesSum(table, es[..k], chunk);
      var t := AddIndexes(table, es[..k], chunk);
      SumOfUpdate(t, es[k].conn, AddIndex(t, es[k], chunk)[es[k].conn]);
    }
  }

  lemma {:induction false} ChunksSum(table: Connections, all: seq<seq<IndexEntry>>)
    requires AllInTable(all, |table|)
    ensures SumCounts(AddChunks(table, all)) == SumCounts(table) + GrandTotal(all)
    ensures SumChunkCounts(all) <= GrandTotal(all)
    ensures SumChunkCounts(all) == GrandTotal(all) <==> forall i :: 0 <= i < |all| ==> Total(all[i]) < TWO_TO_32
  {
    hide Total, AddIndexes, SumCounts;
    if all != [] {
      var k := |all| - 1;
      ChunksSum(table, all[..k]);
      IndexesSum(AddChunks(table, all[..k]), all[k], k);
      assert forall i :: 0 <= i < k ==> all[..k][i] == all[i];
      Wraps(Total(all[k]));
    }
  }

  lemma Wraps(n: nat)
    ensures Wrap32(n) <= n && (Wrap32(n) == n <==> n < TWO_TO_32)
  {
  }

  lemma {:induction false} NoCounts(es: seq<ConnectionEntry>, n: nat)
    ensures SumCounts(Table(es, n)) == 0
  {
    if es == [] {
      EmptyTableCounts(n);
    } else {
      var k := |es| - 1;
      NoCounts(es[..k], n);
      var t := Table(es[..k], n);
      if es[k].Topic() != "" && es[k].Id() < n {
        SumOfUpdate(t, es[k].Id(), Table(es, n)[es[k].Id()]);
      }
    }
  }

  lemma {:induction false} EmptyTableCounts(n: nat)
    ensures SumCounts(EmptyTable(n)) == 0
  {
    if n > 0 {
      EmptyTableCounts(n - 1);
      assert EmptyTable(n)[..n - 1] == EmptyTable(n - 1);
    }
  }

  /** The connections together hold exactly the sum of all INDEX_DATA counts, and the 32-bit counts of the chunks add up
      to it iff no chunk has 2^32 messages or more. */
  lemma IndexCounts(es: seq<ConnectionEntry>, n: nat, all: seq<seq<IndexEntry>>)
    requires AllInTable(all, n)
    ensures SumCounts(AddChunks(Table(es, n), all)) == GrandTotal(all)
    ensures SumChunkCounts(all) == GrandTotal(all) <==> forall i :: 0 <= i < |all| ==> Total(all[i]) < TWO_TO_32
  {
    hide AddChunks, Table, SumCounts, SumChunkCounts, GrandTotal, Total, AllInTable;
    NoCounts(es, n);
    ChunksSum(Table(es, n), all);
  }

  lemma TwoCounts(a: IndexEntry, b: IndexEntry)
    ensures Total([a, b]) == a.count + b.count
  {
    assert [a, b][..1] == [a];
    assert [a][..0] == [];
    assert Total([]) == 0;
    assert Total([a]) == Total([]) + a.count;
  }

  lemma OneChunk(es: seq<IndexEntry>)
    ensures SumChunkCounts([es]) == Wrap32(Total(es)) && GrandTotal([es]) == Total(es)
  {
    hide Total, Wrap32;
    assert [es][..0] == [];
    assert SumChunkCounts([]) == 0 && GrandTotal([]) == 0;
  }

  /** Two INDEX_DATA records of 2^31 messages each make one chunk count wrap to nothing. */
  lemma ChunkCountWraps()
    ensures
      var all := [[IndexEntry(0, 0x8000_0000), IndexEntry(0, 0x8000_0000)]];
      AllInTable(all, 1) && SumChunkCounts(all) == 0 && SumCounts(AddChunks(Table([], 1), all)) == TWO_TO_32
  {
    hide SumCounts, SumChunkCounts, GrandTotal, AddChunks, Table, Total;
    var e := IndexEntry(0, 0x8000_0000);
    TwoCounts(e, e);
    OneChunk([e, e]);
    assert InTable([e, e], 1) && AllInTable([[e, e]], 1);
    IndexCounts([], 1, [[e, e]]);
  }
}
