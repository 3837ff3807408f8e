/**
 * The messages of a chunk as the map-based header reader would give them, and exactly when the scan, which reads
 * headers by the first letters of their fields, delivers those.
 */
module MapScan {
  import opened Bytes
  import opened RosTimes
  import opened Framing
  import opened Merge
  import opened Scan

  function MapHeaderOf(r: Record): Header {
    MapHeader(LastWins(r.fields))
  }

  function MapMsgOf(r: Record): Msg {
    Msg(MapHeaderOf(r).connectionId, MapHeaderOf(r).timestamp, r.data)
  }

  /** The message that a record is under the map-based reader, if it is one. */
  function Meant(r: Record): seq<Msg> {
    if MapHeaderOf(r).op == MESSAGE_DATA then [MapMsgOf(r)] else []
  }

  /** The message that it is to the scan. */
  function Seen(r: Record): seq<Msg> {
    if HeaderOf(r).op == MESSAGE_DATA then [MsgOf(r)] else []
  }

  function MeantOf(rs: seq<Record>): seq<Msg> {
    if rs == [] then [] else Meant(rs[0]) + MeantOf(rs[1..])
  }

  function FlatMeant(logs: seq<seq<Record>>): seq<Msg> {
    if logs == [] then [] else MeantOf(logs[0]) + FlatMeant(logs[1..])
  }

  // ---------- One record ----------

  /** There is an op field, but another field that starts with o comes behind it. */
  predicate OpHidden(fs: seq<Field>) {
    !LastIs(fs, 'o', "op") && exists i :: 0 <= i < |fs| && fs[i].name == "op"
  }

  /** In a message the last field of each letter is the one that is meant; in any other record the operation code is not
      hidden. */
  predicate ClearRecord(r: Record) {
    if HeaderOf(r).op == MESSAGE_DATA then Clear(r.fields) else !OpHidden(r.fields)
  }

  /** The same record to the scan, but for the values of its fields: same names, value lengths, data and operation
      code. */
  predicate SameKind(r: Record, q: Record) {
    q.data == r.data && SameShape(r.fields, q.fields) && HeaderOf(q).op == HeaderOf(r).op
  }

  predicate HaveCodes(fs: seq<Field>) {
    forall i :: 0 <= i < |fs| && StartsWith(fs[i], 'o') ==> |fs[i].value| >= 1
  }

  lemma GoodHasCodes(r: Record)
    requires GoodRecord(r)
    ensures HaveCodes(r.fields)
  {
    hide GlanceAll;
    forall i | 0 <= i < |r.fields| && StartsWith(r.fields[i], 'o')
      ensures |r.fields[i].value| >= 1
    {
      assert Legible(r.fields[i], 4 + |r.data|);
    }
  }

  lemma {:induction false} CodeAgrees(fs: seq<Field>)
    requires HaveCodes(fs) && LastIs(fs, 'o', "op")
    ensures GlanceAll(fs).op == MapHeader(LastWins(fs)).op
  {
    if fs != [] {
      var f := fs[|fs| - 1];
      if !StartsWith(f, 'o') {
        CodeAgrees(fs[..|fs| - 1]);
        assert f.name != "op";
      }
    }
  }

  lemma NoCode(fs: seq<Field>)
    requires forall i :: 0 <= i < |fs| ==> fs[i].name != "op"
    ensures MapHeader(LastWins(fs)).op == UNSET
  {
    hide LastWins, ReadU32, ReadTime;
    LastWinsMeaning(fs, "op");
  }

  lemma {:induction false} LastOp(fs: seq<Field>) returns (j: nat)
    requires exists i :: 0 <= i < |fs| && fs[i].name == "op"
    ensures j < |fs| && fs[j].name == "op" && forall k :: j < k < |fs| ==> fs[k].name != "op"
  {
    j := |fs| - 1;
    if fs[j].name != "op" {
      var i :| 0 <= i < |fs| && fs[i].name == "op";
      assert fs[..j][i].name == "op";
      j := LastOp(fs[..j]);
    }
  }

  /** With a hidden operation code the map-based reader can see any code, whatever the scan sees. */
  lemma HiddenCodeIsFree(r: Record, b: byte) returns (q: Record)
    requires GoodRecord(r) && OpHidden(r.fields)
    ensures SameKind(r, q) && MapHeaderOf(q).op == b
  {
    hide GlanceAll, LastWins, GoodRecord, LastIs, ReadU32, ReadTime;
    var fs := r.fields;
    GoodHasCodes(r);
    var i := LastStarting(fs, 'o', "op");
    var j := LastOp(fs);
    assert "op"[0] == 'o' && StartsWith(fs[j], 'o');
    var gs := Filled(fs, j, b);
    q := Record(gs, r.data);
    CodeIsLast(fs, i);
    CodeIsLast(gs, i);
    LastWinsMeaning(gs, "op");
    assert gs[j].name == "op" && gs[j].value[0] == b;
  }

  /** Exactly when the scan takes a record for what it is: whatever the values of its fields are, it sees the message
      that is meant, iff the record is clear. */
  lemma RecordIsExact(r: Record)
    requires GoodRecord(r)
    ensures ClearRecord(r) <==> forall q :: SameKind(r, q) ==> Seen(q) == Meant(q)
  {
    hide GoodRecord, LastWins, GlanceAll, MapHeader, LastIs, SameShape, OpHidden, Clear;
    if ClearRecord(r) {
      forall q | SameKind(r, q)
        ensures Seen(q) == Meant(q)
      {
        ClearIsSeen(r, q);
      }
    } else {
      var q := UnclearIsMissed(r);
    }
  }

  lemma ClearIsSeen(r: Record, q: Record)
    requires GoodRecord(r) && ClearRecord(r) && SameKind(r, q)
    ensures Seen(q) == Meant(q)
  {
    hide LastWins, GlanceAll, MapHeader;
    GoodHasCodes(r);
    SameLast(r.fields, q.fields, 'o', "op");
    if HeaderOf(r).op == MESSAGE_DATA {
      ShapeDecides(r.fields, q.fields);
      FastHeaderAgrees(q.fields);
    } else if LastIs(r.fields, 'o', "op") {
      CodeAgrees(q.fields);
    } else {
      NoCode(q.fields);
    }
  }

  lemma UnclearIsMissed(r: Record) returns (q: Record)
    requires GoodRecord(r) && !ClearRecord(r)
    ensures SameKind(r, q) && Seen(q) != Meant(q)
  {
    hide LastWins, GlanceAll, MapHeader, LastIs;
    q := r;
    if OpHidden(r.fields) {
      q := HiddenCodeIsFree(r, if HeaderOf(r).op == MESSAGE_DATA then UNSET else MESSAGE_DATA);
    } else if !LastIs(r.fields, 'o', "op") {
      NoCode(r.fields);
    } else {
      q := UnclearValueIsMissed(r);
    }
  }

  /** The operation code is read rightly, but another value is not. */
  lemma UnclearValueIsMissed(r: Record) returns (q: Record)
    requires GoodRecord(r) && HeaderOf(r).op == MESSAGE_DATA
    requires LastIs(r.fields, 'o', "op") && !(LastIs(r.fields, 'c', "conn") && LastIs(r.fields, 't', "time"))
    ensures SameKind(r, q) && Seen(q) != Meant(q)
  {
    hide LastWins, GlanceAll, MapHeader, LastIs, SmallRecord, Legible;
    var fs := r.fields;
    var i;
    if !LastIs(fs, 'c', "conn") {
      i := LastStarting(fs, 'c', "conn");
    } else {
      i := LastStarting(fs, 't', "time");
    }
    ReadersDiffer(fs, i);
    CodeStays(fs, i, 0);
    CodeStays(fs, i, 1);
    q := Record(Filled(fs, i, if Agree(Filled(fs, i, 0)) then 1 else 0), r.data);
    GoodHasCodes(r);
    SameLast(fs, q.fields, 'o', "op");
    CodeAgrees(q.fields);
  }

  lemma {:induction false} CodeStays(fs: seq<Field>, i: nat, b: byte)
    requires i < |fs| && !StartsWith(fs[i], 'o')
    ensures GlanceAll(Filled(fs, i, b)).op == GlanceAll(fs).op
  {
    hide ReadU32, ReadTime;
    var n := |fs| - 1;
    if i < n {
      CodeStays(fs[..n], i, b);
      assert Filled(fs, i, b)[..n] == Filled(fs[..n], i, b);
    } else {
      assert Filled(fs, i, b)[..n] == fs[..n];
    }
  }

  // ---------- Whole chunks ----------

  predicate ClearRecords(rs: seq<Record>) {
    forall i :: 0 <= i < |rs| ==> ClearRecord(rs[i])
  }

  predicate AllClear(logs: seq<seq<Record>>) {
    forall i :: 0 <= i < |logs| ==> ClearRecords(logs[i])
  }

  predicate SameKinds(rs: seq<Record>, qs: seq<Record>) {
    |rs| == |qs| && forall i :: 0 <= i < |rs| ==> SameKind(rs[i], qs[i])
  }

  predicate AllSameKinds(logs: seq<seq<Record>>, gs: seq<seq<Record>>) {
    |logs| == |gs| && forall i :: 0 <= i < |logs| ==> SameKinds(logs[i], gs[i])
  }

  predicate AllGood(logs: seq<seq<Record>>) {
    forall i :: 0 <= i < |logs| ==> GoodRecords(logs[i])
  }

  /** From record j of chunk i on, the scan brings the selected ones of the messages that are meant. */
  predicate GivesMeant(gs: seq<seq<Record>>, ids: set<nat>, i: nat, j: nat)
    requires i < |gs| && j <= |gs[i]|
  {
    Pending(gs[i][j..], gs[i + 1..], ids) == DeliverAll(Keep(MeantOf(gs[i][j..]) + FlatMeant(gs[i + 1..]), ids))
  }

  lemma SeenFirst(rs: seq<Record>)
    requires rs != []
    ensures MessagesOf(rs) == Seen(rs[0]) + MessagesOf(rs[1..])
  {
    hide HeaderOf, MsgOf;
  }

  lemma {:induction false} ClearIsMeant(rs: seq<Record>, qs: seq<Record>)
    requires GoodRecords(rs) && ClearRecords(rs) && SameKinds(rs, qs)
    ensures MessagesOf(qs) == MeantOf(qs)
  {
    hide GoodRecord, ClearRecord, SameKind, Seen, Meant, MessagesOf;
    if rs == [] {
      assert MessagesOf(qs) == [] by { NoMessages(); }
    } else {
      ClearIsMeant(rs[1..], qs[1..]);
      SeenFirst(qs);
      ClearIsSeen(rs[0], qs[0]);
    }
  }

  lemma NoMessages()
    ensures MessagesOf([]) == []
  {
  }

  /** Over clear records the flat filter of the scan is the one over map-based headers, scanned to the end or not. */
  lemma {:induction false} ClearFlatIsMeant(logs: seq<seq<Record>>, gs: seq<seq<Record>>)
    requires AllGood(logs) && AllClear(logs) && AllSameKinds(logs, gs)
    ensures Flat(gs) == FlatMeant(gs)
  {
    hide GoodRecords, ClearRecords, SameKinds, MessagesOf, MeantOf;
    if logs != [] {
      ClearFlatIsMeant(logs[1..], gs[1..]);
      ClearIsMeant(logs[0], gs[0]);
    }
  }

  lemma KindsDecideClean(rs: seq<Record>, qs: seq<Record>)
    requires SameKinds(rs, qs)
    ensures CleanTail(rs) <==> CleanTail(qs)
  {
    hide HeaderOf, SameShape;
  }

  lemma KindsStayClean(logs: seq<seq<Record>>, gs: seq<seq<Record>>)
    requires AllSameKinds(logs, gs) && Clean(logs)
    ensures Clean(gs)
  {
    hide CleanTail, SameKind;
    forall i | 0 <= i < |gs|
      ensures gs[i] != [] && CleanTail(gs[i])
    {
      assert SameKinds(logs[i], gs[i]);
      KindsDecideClean(logs[i], gs[i]);
    }
  }

  lemma SuffixIsClean(gs: seq<seq<Record>>, i: nat, j: nat)
    requires Clean(gs) && i < |gs| && j <= |gs[i]|
    ensures CleanTail(gs[i][j..]) && Clean(gs[i + 1..])
  {
    hide HeaderOf;
    assert forall k :: 0 <= k < |gs[i]| - j ==> gs[i][j..][k] == gs[i][j + k];
  }

  /** What the scan brings from a point on, when nothing is thrown. */
  lemma GivesSeen(gs: seq<seq<Record>>, ids: set<nat>, i: nat, j: nat)
    requires Clean(gs) && i < |gs| && j <= |gs[i]|
    ensures GivesMeant(gs, ids, i, j) <==>
      Keep(MessagesOf(gs[i][j..]) + Flat(gs[i + 1..]), ids) == Keep(MeantOf(gs[i][j..]) + FlatMeant(gs[i + 1..]), ids)
  {
    hide Clean, CleanTail, Keep, MessagesOf, Flat, MeantOf, FlatMeant, Pending, DeliverAll;
    SuffixIsClean(gs, i, j);
    PendingMeaning(gs[i][j..], gs[i + 1..], ids);
    SameDeliveries(Keep(MessagesOf(gs[i][j..]) + Flat(gs[i + 1..]), ids),
      Keep(MeantOf(gs[i][j..]) + FlatMeant(gs[i + 1..]), ids));
  }

  lemma SuffixIsMeant(logs: seq<seq<Record>>, gs: seq<seq<Record>>, i: nat, j: nat)
    requires AllGood(logs) && AllClear(logs) && AllSameKinds(logs, gs) && i < |gs| && j <= |gs[i]|
    ensures MessagesOf(gs[i][j..]) == MeantOf(gs[i][j..]) && Flat(gs[i + 1..]) == FlatMeant(gs[i + 1..])
  {
    hide GoodRecord, ClearRecord, SameKind, MessagesOf, MeantOf, Flat, FlatMeant;
    assert GoodRecords(logs[i]) && ClearRecords(logs[i]) && SameKinds(logs[i], gs[i]);
    ClearIsMeant(logs[i][j..], gs[i][j..]);
    ClearFlatIsMeant(logs[i + 1..], gs[i + 1..]);
  }

  lemma KeepOwn(m: Msg, ids: set<nat>)
    requires m.connectionId in ids
    ensures Keep([m], ids) == [m]
  {
    assert [m][1..] == [];
  }

  /** If the scan gives what is meant before and after a record, with the connections of both its headers selected, it
      sees in the record what is meant. */
  lemma OneIsSeen(gs: seq<seq<Record>>, i: nat, j: nat)
    requires Clean(gs) && i < |gs| && j < |gs[i]|
    requires
      var ids := {MsgOf(gs[i][j]).connectionId, MapMsgOf(gs[i][j]).connectionId};
      GivesMeant(gs, ids, i, j) && GivesMeant(gs, ids, i, j + 1)
    ensures Seen(gs[i][j]) == Meant(gs[i][j])
  {
    hide Clean, HeaderOf, MapHeaderOf, MsgOf, MapMsgOf, GivesMeant, Keep, MessagesOf, Flat, FlatMeant;
    var q, rs, tail := gs[i][j], gs[i][j..], gs[i][j + 1..];
    var ids := {MsgOf(q).connectionId, MapMsgOf(q).connectionId};
    var seen, meant := MessagesOf(tail) + Flat(gs[i + 1..]), MeantOf(tail) + FlatMeant(gs[i + 1..]);
    assert rs[0] == q && rs[1..] == tail;
    GivesSeen(gs, ids, i, j);
    GivesSeen(gs, ids, i, j + 1);
    SeenFirst(rs);
    Assoc(Seen(q), MessagesOf(tail), Flat(gs[i + 1..]));
    Assoc(Meant(q), MeantOf(tail), FlatMeant(gs[i + 1..]));
    KeepConcat(Seen(q), seen, ids);
    KeepConcat(Meant(q), meant, ids);
    CancelSuffix(Keep(Seen(q), ids), Keep(Meant(q), ids), Keep(seen, ids));
    KeepOwn(MsgOf(q), ids);
    KeepOwn(MapMsgOf(q), ids);
    NothingToKeep(ids);
  }

  lemma SwapOne(logs: seq<seq<Record>>, i: nat, j: nat, q: Record) returns (gs: seq<seq<Record>>)
    requires i < |logs| && j < |logs[i]| && SameKind(logs[i][j], q)
    ensures AllSameKinds(logs, gs) && gs[i][j] == q
  {
    hide GlanceAll;
    gs := logs[i := logs[i][j := q]];
  }

  /** Exactly when the scan delivers what is meant: over chunks that can be scanned to their end, whatever the values of
      the fields are, which connections are selected and where the scan stands, it brings the selected messages under
      map-based headers, iff every record is clear. */
  lemma ScanIsExact(logs: seq<seq<Record>>)
    requires Clean(logs) && AllGood(logs)
    ensures AllClear(logs) <==>
      forall gs, ids: set<nat>, i: nat, j: nat :: AllSameKinds(logs, gs) && i < |gs| && j <= |gs[i]| ==>
        GivesMeant(gs, ids, i, j)
  {
    hide Clean, AllGood, AllSameKinds, GivesMeant, ClearRecord, SameKind, MessagesOf, MeantOf, Flat, FlatMeant, Keep;
    if AllClear(logs) {
      forall gs, ids: set<nat>, i: nat, j: nat | AllSameKinds(logs, gs) && i < |gs| && j <= |gs[i]|
        ensures GivesMeant(gs, ids, i, j)
      {
        KindsStayClean(logs, gs);
        SuffixIsMeant(logs, gs, i, j);
        GivesSeen(gs, ids, i, j);
      }
    } else {
      var i: nat, j: nat :| i < |logs| && j < |logs[i]| && !ClearRecord(logs[i][j]);
      GoodAt(logs, i, j);
      var q := UnclearIsMissed(logs[i][j]);
      var gs := SwapOne(logs, i, j, q);
      SameSizes(logs, gs, i);
      KindsStayClean(logs, gs);
      var ids := {MsgOf(q).connectionId, MapMsgOf(q).connectionId};
      if GivesMeant(gs, ids, i, j) && GivesMeant(gs, ids, i, j + 1) {
        OneIsSeen(gs, i, j);
      }
    }
  }

  lemma GoodAt(logs: seq<seq<Record>>, i: nat, j: nat)
    requires AllGood(logs) && i < |logs| && j < |logs[i]|
    ensures GoodRecord(logs[i][j])
  {
    hide GoodRecord;
  }

  lemma SameSizes(logs: seq<seq<Record>>, gs: seq<seq<Record>>, i: nat)
    requires AllSameKinds(logs, gs) && i < |logs|
    ensures |gs| == |logs| && |gs[i]| == |logs[i]|
  {
    hide SameKind;
  }

  // ---------- A message with a wrong time ----------

  /** A message whose header also has a topic is delivered with the topic for its time. */
  lemma TopicIsDeliveredAsTime()
    ensures
      var op, conn := Field("op", [MESSAGE_DATA]), Field("conn", [0, 0, 0, 0]);
      var time, topic := Field("time", [5, 0, 0, 0, 0, 0, 0, 0]), Field("topic", [1, 1, 1, 1, 1, 1, 1, 1]);
      var r := Record([op, conn, time, topic], [7]);
      && GoodRecord(r) && !ClearRecord(r)
      && MeantOf([r]) == [Msg(0, Time(5, 0), [7])]
      && Pending([r], [], {0}) == [Deliver(Msg(0, Time(0x0101_0101, 0x0101_0101), [7]))]
  {
    hide GlanceAll, LastWins, MapHeader, GoodField, Frames, LastIs;
    var op, conn := Field("op", [MESSAGE_DATA]), Field("conn", [0, 0, 0, 0]);
    var time, topic := Field("time", [5, 0, 0, 0, 0, 0, 0, 0]), Field("topic", [1, 1, 1, 1, 1, 1, 1, 1]);
    var fs := [op, conn, time, topic];
    var r := Record(fs, [7]);
    FastHeaderMistakesTopic();
    FirstLetters(op, conn, time, topic);
    assert !LastIs(fs, 't', "time") by { TopicComesLast(fs); }
    FourFrames(fs);
    assert forall i :: 0 <= i < 4 ==> LongEnough(fs[i]) && Legible(fs[i], 5);
    assert [r][1..] == [];
    assert MeantOf([r]) == Meant(r) + MeantOf([]);
  }

  lemma TopicComesLast(fs: seq<Field>)
    requires fs != [] && StartsWith(fs[|fs| - 1], 't') && fs[|fs| - 1].name != "time"
    ensures !LastIs(fs, 't', "time")
  {
  }

  lemma FourFrames(fs: seq<Field>)
    requires |fs| == 4 && forall i :: 0 <= i < 4 ==> |Content(fs[i])| < 100
    ensures |Encode(fs)| < 2000
  {
    hide Content;
    var c := Contents(fs);
    assert Contents(fs)[1..] == Contents(fs[1..]);
    EncodedLength(fs[1..]);
    assert Frames(c) == Frame(c[0]) + Frames(c[1..]);
  }
}
