/**
 * The stream of messages that one bag contributes: what successive calls of readMessage publish, including the calls
 * that throw, and when that is the plain filter of all its messages.
 */
module Scan {
  import opened Bytes
  import opened RosTimes
  import opened Framing
  import opened BagTypes
  import opened Merge

  // ---------- Records of a chunk ----------

  /** What readHeader sees of a record: the last field of each first letter. */
  function HeaderOf(r: Record): Header {
    GlanceAll(r.fields)
  }

  function MsgOf(r: Record): Msg {
    Msg(HeaderOf(r).connectionId, HeaderOf(r).timestamp, r.data)
  }

  /** A record in a chunk that readHeader reads within bounds: every field has a separator, an operation code has a
      byte, and the values that it takes for the connection and the time of a message are long enough. */
  predicate GoodRecord(r: Record) {
    && SmallRecord(r)
    && (forall i :: 0 <= i < |r.fields| ==> Legible(r.fields[i], 4 + |r.data|))
    && (HeaderOf(r).op == MESSAGE_DATA ==> AllLongEnough(r.fields))
  }

  predicate GoodRecords(rs: seq<Record>) {
    forall i :: 0 <= i < |rs| ==> GoodRecord(rs[i])
  }

  lemma MessageIsSized(r: Record)
    requires GoodRecord(r) && HeaderOf(r).op == MESSAGE_DATA
    ensures forall i :: 0 <= i < |r.fields| ==> Sized(r.fields[i])
  {
    hide GlanceAll;
    forall i | 0 <= i < |r.fields|
      ensures Sized(r.fields[i])
    {
      LongEnoughIsSized(r.fields[i]);
    }
  }

  // ---------- What the scanner does ----------

  datatype Event = Deliver(msg: Msg) | Throw

  /** The events still to come when the records rs of the current chunk and the chunks after it are unread. The scanner
      throws on an unknown operation code, on an empty chunk, and on a record whose empty data would start at the very
      end of the chunk. */
  function Pending(rs: seq<Record>, rest: seq<seq<Record>>, ids: set<nat>): seq<Event>
    decreases |rest|, |rs| + 1
  {
    if rs == [] then NextChunk(rest, ids)
    else if |rs| == 1 && rs[0].data == [] then [Throw]
    else if HeaderOf(rs[0]).op == MESSAGE_DATA then
      if HeaderOf(rs[0]).connectionId in ids then [Deliver(MsgOf(rs[0]))] + Pending(rs[1..], rest, ids)
      else Pending(rs[1..], rest, ids)
    else if HeaderOf(rs[0]).op == CONNECTION then Pending(rs[1..], rest, ids)
    else [Throw]
  }

  function NextChunk(rest: seq<seq<Record>>, ids: set<nat>): seq<Event>
    decreases |rest|, 0
  {
    if rest == [] then [] else if rest[0] == [] then [Throw] else Pending(rest[0], rest[1..], ids)
  }

  // ---------- What it is meant to do ----------

  function MessagesOf(rs: seq<Record>): seq<Msg> {
    if rs == [] then [] else (if HeaderOf(rs[0]).op == MESSAGE_DATA then [MsgOf(rs[0])] else []) + MessagesOf(rs[1..])
  }

  function Flat(logs: seq<seq<Record>>): seq<Msg> {
    if logs == [] then [] else MessagesOf(logs[0]) + Flat(logs[1..])
  }

  function DeliverAll(ms: seq<Msg>): seq<Event> {
    seq(|ms|, i requires 0 <= i < |ms| => Deliver(ms[i]))
  }

  /** The unread part of a chunk that can be scanned to its end. */
  predicate CleanTail(rs: seq<Record>) {
    (rs != [] ==> rs[|rs| - 1].data != []) &&
    forall i :: 0 <= i < |rs| ==> HeaderOf(rs[i]).op in {MESSAGE_DATA, CONNECTION}
  }

  predicate Clean(logs: seq<seq<Record>>) {
    forall i :: 0 <= i < |logs| ==> logs[i] != [] && CleanTail(logs[i])
  }

  lemma NothingToKeep(ids: set<nat>)
    ensures Keep([], ids) == []
  {
  }

  lemma {:induction false} KeepConcat(a: seq<Msg>, b: seq<Msg>, ids: set<nat>)
    ensures Keep(a + b, ids) == Keep(a, ids) + Keep(b, ids)
  {
    hide Keep;
    if a == [] {
      NothingToKeep(ids);
      assert a + b == b;
    } else {
      var m, rest := a[0], a[1..];
      assert a == [m] + rest && a + b == [m] + (rest + b);
      KeepCons(m, rest, ids);
      KeepCons(m, rest + b, ids);
      KeepConcat(rest, b, ids);
    }
  }

  lemma DeliverCons(m: Msg, ms: seq<Msg>)
    ensures DeliverAll([m] + ms) == [Deliver(m)] + DeliverAll(ms)
    ensures Throw !in DeliverAll(ms)
  {
  }

  lemma CancelSuffix<T>(a: seq<T>, b: seq<T>, c: seq<T>)
    ensures a + c == b + c <==> a == b
  {
    if a + c == b + c {
      assert |a| == |b|;
      assert a == (a + c)[..|a|] && b == (b + c)[..|b|];
    }
  }

  lemma SameDeliveries(a: seq<Msg>, b: seq<Msg>)
    ensures DeliverAll(a) == DeliverAll(b) <==> a == b
  {
    if DeliverAll(a) == DeliverAll(b) {
      assert |a| == |DeliverAll(a)| == |b|;
      forall i | 0 <= i < |a|
        ensures a[i] == b[i]
      {
        assert DeliverAll(a)[i] == DeliverAll(b)[i];
      }
    }
  }

  lemma MessagesCons(r: Record, rs: seq<Record>)
    ensures MessagesOf([]) == []
    ensures MessagesOf([r] + rs) == (if HeaderOf(r).op == MESSAGE_DATA then [MsgOf(r)] else []) + MessagesOf(rs)
  {
    hide HeaderOf, MsgOf;
    assert ([r] + rs)[1..] == rs;
  }

  lemma {:induction false} MessagesConcat(a: seq<Record>, b: seq<Record>)
    ensures MessagesOf(a + b) == MessagesOf(a) + MessagesOf(b)
  {
    hide MessagesOf, HeaderOf, MsgOf;
    if a == [] {
      MessagesCons(Record([], []), []);
      assert a + b == b;
    } else {
      var r, rest := a[0], a[1..];
      assert a == [r] + rest && a + b == [r] + (rest + b);
      MessagesConcat(rest, b);
      MessagesCons(r, rest);
      MessagesCons(r, rest + b);
    }
  }

  lemma CleanTailStep(rs: seq<Record>)
    requires rs != []
    ensures CleanTail(rs) <==>
      CleanTail(rs[1..]) && HeaderOf(rs[0]).op in {MESSAGE_DATA, CONNECTION} && !(|rs| == 1 && rs[0].data == [])
  {
    assert forall i :: 0 <= i < |rs| - 1 ==> rs[1..][i] == rs[i + 1];
    if CleanTail(rs[1..]) && HeaderOf(rs[0]).op in {MESSAGE_DATA, CONNECTION} && !(|rs| == 1 && rs[0].data == []) {
      forall i | 0 <= i < |rs|
        ensures HeaderOf(rs[i]).op in {MESSAGE_DATA, CONNECTION}
      {
        if i > 0 { assert rs[i] == rs[1..][i - 1]; }
      }
    }
  }

  /** The resumable scan against the flat filter, from any point inside a chunk: nothing is thrown iff what is left is
      clean, and then exactly the selected messages of the unread records come, in order. */
  lemma {:induction false} PendingMeaning(rs: seq<Record>, rest: seq<seq<Record>>, ids: set<nat>)
    ensures Throw !in Pending(rs, rest, ids) <==> CleanTail(rs) && Clean(rest)
    ensures CleanTail(rs) && Clean(rest) ==>
      Pending(rs, rest, ids) == DeliverAll(Keep(MessagesOf(rs) + Flat(rest), ids))
    decreases |rest|, |rs| + 1
  {
    hide HeaderOf, MsgOf, Clean, CleanTail, Keep, MessagesOf, Flat, DeliverAll;
    if rs == [] {
      NextChunkMeaning(rest, ids);
      EmptyTail(rest);
    } else {
      var r, rs' := rs[0], rs[1..];
      PendingMeaning(rs', rest, ids);
      CleanTailStep(rs);
      MessagesStep(rs, rest);
      var later := MessagesOf(rs') + Flat(rest);
      KeepCons(MsgOf(r), later, ids);
      MsgOfConnection(r);
      DeliverCons(MsgOf(r), Keep(later, ids));
    }
  }

  lemma EmptyTail(rest: seq<seq<Record>>)
    ensures CleanTail([]) && MessagesOf([]) + Flat(rest) == Flat(rest)
  {
  }

  lemma MessagesStep(rs: seq<Record>, rest: seq<seq<Record>>)
    requires rs != []
    ensures HeaderOf(rs[0]).op == MESSAGE_DATA ==>
      MessagesOf(rs) + Flat(rest) == [MsgOf(rs[0])] + (MessagesOf(rs[1..]) + Flat(rest))
    ensures HeaderOf(rs[0]).op != MESSAGE_DATA ==> MessagesOf(rs) + Flat(rest) == MessagesOf(rs[1..]) + Flat(rest)
  {
    hide HeaderOf, MsgOf, Flat;
    var a := MessagesOf(rs[1..]);
    if HeaderOf(rs[0]).op == MESSAGE_DATA {
      assert MessagesOf(rs) == [MsgOf(rs[0])] + a;
      Assoc([MsgOf(rs[0])], a, Flat(rest));
    } else {
      assert MessagesOf(rs) == [] + a == a;
    }
  }

  lemma Assoc<T>(a: seq<T>, b: seq<T>, c: seq<T>)
    ensures (a + b) + c == a + (b + c)
  {
  }

  lemma MsgOfConnection(r: Record)
    ensures MsgOf(r).connectionId == HeaderOf(r).connectionId
  {
  }

  lemma {:induction false} NextChunkMeaning(rest: seq<seq<Record>>, ids: set<nat>)
    ensures Throw !in NextChunk(rest, ids) <==> Clean(rest)
    ensures Clean(rest) ==> NextChunk(rest, ids) == DeliverAll(Keep(Flat(rest), ids))
    decreases |rest|, 0
  {
    hide HeaderOf, MsgOf, CleanTail;
    if rest != [] {
      assert forall i :: 0 <= i < |rest| - 1 ==> rest[1..][i] == rest[i + 1];
      if rest[0] != [] {
        PendingMeaning(rest[0], rest[1..], ids);
      }
      if CleanTail(rest[0]) && rest[0] != [] && Clean(rest[1..]) {
        forall i | 0 <= i < |rest|
          ensures rest[i] != [] && CleanTail(rest[i])
        {
          if i > 0 { assert rest[i] == rest[1..][i - 1]; }
        }
      }
    }
  }

  // ---------- Parts of a scan ----------

  /** The scan has gone over the first k records of a chunk without an exception. */
  predicate PassedPart(rs: seq<Record>, k: nat) {
    && rs != [] && k <= |rs| && (k == |rs| ==> rs[k - 1].data != [])
    && forall i :: 0 <= i < k ==> HeaderOf(rs[i]).op in {MESSAGE_DATA, CONNECTION}
  }

  lemma PassedStep(rs: seq<Record>, k: nat)
    requires PassedPart(rs, k) && k < |rs| && !(k == |rs| - 1 && rs[k].data == [])
    requires HeaderOf(rs[k]).op in {MESSAGE_DATA, CONNECTION}
    ensures PassedPart(rs, k + 1)
  {
    hide HeaderOf;
  }

  lemma PassedAll(rs: seq<Record>, k: nat)
    requires PassedPart(rs, k)
    ensures CleanTail(rs) <==> CleanTail(rs[k..])
  {
    hide HeaderOf;
    if CleanTail(rs[k..]) {
      forall i | 0 <= i < |rs|
        ensures HeaderOf(rs[i]).op in {MESSAGE_DATA, CONNECTION}
      {
        if i >= k { assert rs[i] == rs[k..][i - k]; }
      }
    }
  }

  lemma DeliverConcat(a: seq<Msg>, b: seq<Msg>)
    ensures DeliverAll(a + b) == DeliverAll(a) + DeliverAll(b)
  {
  }

  lemma PendingFirst(rs: seq<Record>, rest: seq<seq<Record>>, ids: set<nat>)
    requires rs != [] && HeaderOf(rs[0]).op in {MESSAGE_DATA, CONNECTION} && !(|rs| == 1 && rs[0].data == [])
    ensures Pending(rs, rest, ids) == DeliverAll(Keep(MessagesOf(rs[..1]), ids)) + Pending(rs[1..], rest, ids)
  {
    hide HeaderOf, MsgOf;
    assert rs[..1][0] == rs[0] && rs[..1][1..] == [];
    var m := MsgOf(rs[0]);
    KeepCons(m, [], ids);
    MsgOfConnection(rs[0]);
    assert MessagesOf(rs[..1]) == if HeaderOf(rs[0]).op == MESSAGE_DATA then [m] else [];
    NothingToKeep(ids);
    assert DeliverAll([m]) == [Deliver(m)] && DeliverAll([]) == [];
  }

  /** A scan over records that pass brings their selected messages and then what comes after them. */
  lemma {:induction false} PendingPassed(rs: seq<Record>, k: nat, rest: seq<seq<Record>>, ids: set<nat>)
    requires PassedPart(rs, k)
    ensures Pending(rs, rest, ids) == DeliverAll(Keep(MessagesOf(rs[..k]), ids)) + Pending(rs[k..], rest, ids)
    decreases k
  {
    hide HeaderOf, Pending, MessagesOf, Keep, DeliverAll;
    if k == 0 {
      assert rs[..0] == [] && rs[0..] == rs;
      NothingPassed(ids);
      assert [] + Pending(rs, rest, ids) == Pending(rs, rest, ids);
    } else {
      var some, last := rs[..k - 1], rs[k - 1..];
      PendingPassed(rs, k - 1, rest, ids);
      assert last[0] == rs[k - 1] && last[1..] == rs[k..] && rs[..k] == some + last[..1];
      PendingFirst(last, rest, ids);
      MessagesConcat(some, last[..1]);
      KeepConcat(MessagesOf(some), MessagesOf(last[..1]), ids);
      var a, b := Keep(MessagesOf(some), ids), Keep(MessagesOf(last[..1]), ids);
      DeliverConcat(a, b);
      Assoc(DeliverAll(a), DeliverAll(b), Pending(rs[k..], rest, ids));
    }
  }

  lemma NothingPassed(ids: set<nat>)
    ensures DeliverAll(Keep(MessagesOf([]), ids)) == []
  {
  }

  lemma CleanIsPassed(rs: seq<Record>)
    requires CleanTail(rs) && rs != []
    ensures PassedPart(rs, |rs|)
  {
    hide HeaderOf;
  }

  /** A chunk that can be scanned to its end brings its selected messages. */
  lemma CleanChunk(rs: seq<Record>, rest: seq<seq<Record>>, ids: set<nat>)
    requires CleanTail(rs)
    ensures Pending(rs, rest, ids) == DeliverAll(Keep(MessagesOf(rs), ids)) + NextChunk(rest, ids)
  {
    hide CleanTail, MessagesOf, Keep, DeliverAll;
    if rs == [] {
      NothingPassed(ids);
    } else {
      CleanIsPassed(rs);
      PendingPassed(rs, |rs|, rest, ids);
      assert rs[..|rs|] == rs && rs[|rs|..] == [];
    }
  }

  /** A throw in a chunk is all there is to come, whatever the chunks after it. */
  lemma {:induction false} ThrowIsLast(rs: seq<Record>, rest: seq<seq<Record>>, other: seq<seq<Record>>, ids: set<nat>)
    requires !CleanTail(rs)
    ensures Pending(rs, rest, ids) == Pending(rs, other, ids)
    decreases |rs|
  {
    hide HeaderOf, MsgOf, CleanTail;
    if rs == [] {
      EmptyTail(rest);
    } else {
      CleanTailStep(rs);
      if !CleanTail(rs[1..]) {
        ThrowIsLast(rs[1..], rest, other, ids);
      }
    }
  }

  lemma FlatCons(rs: seq<Record>, logs: seq<seq<Record>>)
    ensures Flat([rs] + logs) == MessagesOf(rs) + Flat(logs) && Flat([]) == []
  {
    hide MessagesOf;
    assert ([rs] + logs)[1..] == logs;
  }

  lemma CleanCons(rs: seq<Record>, logs: seq<seq<Record>>)
    ensures Clean([rs] + logs) <==> rs != [] && CleanTail(rs) && Clean(logs)
    ensures Clean([])
  {
    hide CleanTail;
    var all := [rs] + logs;
    if Clean(all) {
      assert all[0] == rs;
      assert forall i :: 0 <= i < |logs| ==> logs[i] == all[i + 1];
    }
  }

  /** So do chunks that can all be scanned to their ends. */
  lemma {:induction false} CleanChunks(logs: seq<seq<Record>>, rest: seq<seq<Record>>, ids: set<nat>)
    requires Clean(logs)
    ensures NextChunk(logs + rest, ids) == DeliverAll(Keep(Flat(logs), ids)) + NextChunk(rest, ids)
  {
    hide Clean, CleanTail, MessagesOf, Flat, Keep, DeliverAll, Pending;
    if logs == [] {
      FlatCons([], []);
      NothingToKeep(ids);
      assert logs + rest == rest && DeliverAll([]) == [] by { NothingDelivered(); }
    } else {
      var rs, logs' := logs[0], logs[1..];
      assert logs == [rs] + logs' && logs + rest == [rs] + (logs' + rest);
      CleanCons(rs, logs');
      CleanChunks(logs', rest, ids);
      CleanChunk(rs, logs' + rest, ids);
      FlatCons(rs, logs');
      KeepConcat(MessagesOf(rs), Flat(logs'), ids);
      DeliverConcat(Keep(MessagesOf(rs), ids), Keep(Flat(logs'), ids));
      Assoc(DeliverAll(Keep(MessagesOf(rs), ids)), DeliverAll(Keep(Flat(logs'), ids)), NextChunk(rest, ids));
      assert NextChunk(logs + rest, ids) == Pending(rs, logs' + rest, ids) by { FirstChunk(rs, logs' + rest, ids); }
    }
  }

  lemma NothingDelivered()
    ensures DeliverAll([]) == []
  {
  }

  lemma FirstChunk(rs: seq<Record>, rest: seq<seq<Record>>, ids: set<nat>)
    requires rs != []
    ensures NextChunk([rs] + rest, ids) == Pending(rs, rest, ids)
  {
    assert ([rs] + rest)[1..] == rest;
  }

  // ---------- Scans that throw ----------

  /** The messages up to the first throw. */
  function BeforeThrow(es: seq<Event>): seq<Msg> {
    if es == [] || es[0].Throw? then [] else [es[0].msg] + BeforeThrow(es[1..])
  }

  lemma {:induction false} BeforeThrowMeaning(es: seq<Event>)
    ensures DeliverAll(BeforeThrow(es)) <= es
    ensures |BeforeThrow(es)| < |es| ==> es[|BeforeThrow(es)|] == Throw
    ensures Throw !in es <==> DeliverAll(BeforeThrow(es)) == es
  {
    if es != [] && es[0].Deliver? {
      BeforeThrowMeaning(es[1..]);
      DeliverCons(es[0].msg, BeforeThrow(es[1..]));
      assert es == [es[0]] + es[1..];
    }
  }

  lemma {:induction false} NothingThrown(ms: seq<Msg>)
    ensures BeforeThrow(DeliverAll(ms)) == ms
  {
    if ms != [] {
      NothingThrown(ms[1..]);
      assert DeliverAll(ms)[1..] == DeliverAll(ms[1..]);
    }
  }

  lemma BeforeThrowCons(m: Msg, es: seq<Event>)
    ensures BeforeThrow([Deliver(m)] + es) == [m] + BeforeThrow(es)
    ensures BeforeThrow([Throw]) == []
  {
    assert ([Deliver(m)] + es)[1..] == es;
  }

  /** Whatever is in the chunks, what the scan brings before it throws is the beginning of what the flat filter
      gives. */
  lemma {:induction false} PendingPrefix(rs: seq<Record>, rest: seq<seq<Record>>, ids: set<nat>)
    ensures BeforeThrow(Pending(rs, rest, ids)) <= Keep(MessagesOf(rs) + Flat(rest), ids)
    decreases |rest|, |rs| + 1
  {
    hide HeaderOf, MsgOf, Keep, MessagesOf, Flat, BeforeThrow;
    if rs == [] {
      NextChunkPrefix(rest, ids);
      EmptyTail(rest);
    } else {
      var r, rs' := rs[0], rs[1..];
      var later := MessagesOf(rs') + Flat(rest);
      PendingPrefix(rs', rest, ids);
      MessagesStep(rs, rest);
      KeepCons(MsgOf(r), later, ids);
      MsgOfConnection(r);
      BeforeThrowCons(MsgOf(r), Pending(rs', rest, ids));
    }
  }

  lemma {:induction false} NextChunkPrefix(rest: seq<seq<Record>>, ids: set<nat>)
    ensures BeforeThrow(NextChunk(rest, ids)) <= Keep(Flat(rest), ids)
    decreases |rest|, 0
  {
    hide HeaderOf, MsgOf, MessagesOf;
    if rest != [] && rest[0] != [] {
      PendingPrefix(rest[0], rest[1..], ids);
    }
  }

  // ---------- Records as the format has them ----------

  /** A MESSAGE_DATA record: operation code 2, the connection and the time. */
  function MessageRecord(m: Msg): Record {
    Record([Field("op", [2]), Field("conn", U32(m.connectionId % TWO_TO_32)), Field("time", TimeBytes(m.timestamp))],
      m.data)
  }

  lemma MessageRecordMeaning(m: Msg)
    requires m.connectionId < TWO_TO_32
    ensures
      var r := MessageRecord(m);
      HeaderOf(r).op == 2 && MsgOf(r) == m && r.data == m.data && (|m.data| < TWO_TO_32 ==> GoodRecord(r))
  {
    hide GlanceAll, ReadTime, U32, ReadU32;
    var fs := MessageRecord(m).fields;
    MessageHeader(fs[0], fs[1], fs[2]);
    U32RoundTrip(fs[1].value, 0, m.connectionId);
    TimeRoundTrip(fs[2].value, 0, m.timestamp);
    EncodedLength(fs);
    forall i | 0 <= i < 3
      ensures GoodField(fs[i]) && Legible(fs[i], 4)
    {
    }
  }

  /** It is delivered if its connection is selected, and passed over otherwise. */
  lemma MessageIsDelivered(m: Msg, ids: set<nat>)
    requires m.connectionId < TWO_TO_32 && m.data != []
    ensures Pending([MessageRecord(m)], [], ids) == if m.connectionId in ids then [Deliver(m)] else []
  {
    hide HeaderOf, MsgOf, MessageRecord;
    var r := MessageRecord(m);
    MessageRecordMeaning(m);
    MsgOfConnection(r);
    assert [r][1..] == [] && Pending([], [], ids) == [];
  }

  /** Field i carries the operation code. */
  predicate CodeAt(fs: seq<Field>, i: nat) {
    i < |fs| && StartsWith(fs[i], 'o') && |fs[i].value| >= 1 && forall j :: i < j < |fs| ==> !StartsWith(fs[j], 'o')
  }

  /** A record with operation code 7 is passed over, whatever else it has; one with a code that is neither 2 nor 7, or
      with none, stops the scan. */
  lemma OtherCodes(fs: seq<Field>, data: seq<byte>, ids: set<nat>)
    requires data != []
    ensures forall i: nat :: CodeAt(fs, i) && fs[i].value[0] == 7 ==> Pending([Record(fs, data)], [], ids) == []
    ensures forall i: nat :: CodeAt(fs, i) && fs[i].value[0] !in {2, 7} ==>
      Pending([Record(fs, data)], [], ids) == [Throw]
    ensures (forall i :: 0 <= i < |fs| ==> !StartsWith(fs[i], 'o')) ==> Pending([Record(fs, data)], [], ids) == [Throw]
  {
    hide GlanceAll;
    var r := Record(fs, data);
    assert [r][1..] == [] && Pending([], [], ids) == [];
    forall i: nat | CodeAt(fs, i)
      ensures GlanceAll(fs).op == fs[i].value[0]
    {
      CodeIsLast(fs, i);
    }
    if forall i :: 0 <= i < |fs| ==> !StartsWith(fs[i], 'o') {
      NoCodeIsUnset(fs);
    }
  }

  /** The format allows messages without data, and one at the end of a chunk stops the scan with an exception. */
  lemma EmptyLastMessageThrows(m: Msg)
    requires m.connectionId < TWO_TO_32 && m.data == []
    ensures
      var r := MessageRecord(m);
      GoodRecord(r) && Pending([r], [], {m.connectionId}) == [Throw] && Keep(MessagesOf([r]), {m.connectionId}) == [m]
  {
    hide HeaderOf, MsgOf, GoodRecord, MessageRecord;
    var r := MessageRecord(m);
    MessageRecordMeaning(m);
    assert [r][1..] == [];
    KeepCons(m, [], {m.connectionId});
    NothingToKeep({m.connectionId});
    assert MessagesOf([r]) == [MsgOf(r)] + MessagesOf([]);
  }

  lemma MessageHeader(op: Field, conn: Field, time: Field)
    requires op.name == "op" && conn.name == "conn" && time.name == "time"
    requires |op.value| == 1 && |conn.value| == 4 && |time.value| == 8
    ensures GlanceAll([op, conn, time]) == Header(op.value[0], ReadU32(conn.value, 0), ReadTime(time.value, 0))
    ensures AllLongEnough([op, conn, time])
  {
    hide GlanceAll, ReadU32, ReadTime;
    var fs := [op, conn, time];
    assert "op"[0] == 'o' && "conn"[0] == 'c' && "time"[0] == 't';
    assert AllLongEnough(fs);
    GlanceIsLast(fs, 0);
    GlanceIsLast(fs, 1);
    GlanceIsLast(fs, 2);
  }

  lemma EncodedLength(fs: seq<Field>)
    requires |fs| == 3 && forall i :: 0 <= i < 3 ==> |Content(fs[i])| < 100
    ensures |Encode(fs)| < 1000
  {
    var c := Contents(fs);
    assert c[0..] == c && c[1..][1..] == c[2..] && c[2..][1..] == c[3..] && |c[3..]| == 0;
    assert Frames(c[2..]) == Frame(c[2]) + Frames(c[3..]);
    assert Frames(c[1..]) == Frame(c[1]) + Frames(c[2..]);
  }

  // ---------- Pruning through the index ----------

  type Log = Chunk -> seq<Record>

  function Logs(cs: seq<Chunk>, log: Log): seq<seq<Record>> {
    seq(|cs|, i requires 0 <= i < |cs| => log(cs[i]))
  }

  /** The chunks of a set, in the order they have in cs. */
  function Restrict(cs: seq<Chunk>, selected: set<Chunk>): seq<Chunk> {
    if cs == [] then [] else (if cs[0] in selected then [cs[0]] else []) + Restrict(cs[1..], selected)
  }

  /** Skipping the chunks outside a set loses nothing iff none of them holds a selected message. */
  lemma {:induction false} PruningIsExact(cs: seq<Chunk>, selected: set<Chunk>, log: Log, ids: set<nat>)
    ensures Keep(Flat(Logs(Restrict(cs, selected), log)), ids) == Keep(Flat(Logs(cs, log)), ids) <==>
      forall i :: 0 <= i < |cs| && cs[i] !in selected ==> Keep(MessagesOf(log(cs[i])), ids) == []
    ensures |Keep(Flat(Logs(Restrict(cs, selected), log)), ids)| <= |Keep(Flat(Logs(cs, log)), ids)|
  {
    hide MessagesOf, Keep;
    if cs != [] {
      var tail := cs[1..];
      PruningIsExact(tail, selected, log, ids);
      assert forall i :: 0 <= i < |tail| ==> tail[i] == cs[i + 1];
      var first := MessagesOf(log(cs[0]));
      var all, some := Flat(Logs(tail, log)), Flat(Logs(Restrict(tail, selected), log));
      assert Logs(cs, log)[1..] == Logs(tail, log);
      assert Flat(Logs(cs, log)) == first + all;
      KeepConcat(first, all, ids);
      var kept, a, s := Keep(first, ids), Keep(all, ids), Keep(some, ids);
      if cs[0] in selected {
        assert Restrict(cs, selected) == [cs[0]] + Restrict(tail, selected);
        assert Logs(Restrict(cs, selected), log)[1..] == Logs(Restrict(tail, selected), log);
        KeepConcat(first, some, ids);
        if kept + s == kept + a {
          assert s == (kept + s)[|kept|..] == (kept + a)[|kept|..] == a;
        }
      } else {
        assert Restrict(cs, selected) == Restrict(tail, selected);
        if s == kept + a {
          assert |kept| == 0;
        }
      }
      if forall i :: 0 <= i < |tail| && tail[i] !in selected ==> Keep(MessagesOf(log(tail[i])), ids) == [] {
        forall i | 0 < i < |cs| && cs[i] !in selected
          ensures Keep(MessagesOf(log(cs[i])), ids) == []
        {
          assert cs[i] == tail[i - 1];
        }
      }
    }
  }
}
