/**
 * begin() resets the position in the chunks of a wrapper and nothing else.  What it brings when a loop has been left in
 * the middle of a chunk, and when that is everything again.
 */
module Restarts {
  import opened Bytes
  import opened RosTimes
  import opened Framing
  import opened BagTypes
  import opened Merge
  import opened Scan
  import opened Bags
  import opened Views

  /** The selected messages that the wrapper has gone over. */
  ghost function AlreadyRead(w: BagWrapper): seq<Msg>
    requires w.openChunk < |w.chunksToParse| && w.taken <= |w.Current()|
    reads w`openChunk, w`chunksToParse, w`taken, w`connectionIds
  {
    Keep(Flat(Logs(w.chunksToParse[..w.openChunk], w.log)) + MessagesOf(w.Current()[..w.taken]), w.connectionIds)
  }

  lemma LogsAround(cs: seq<Chunk>, o: nat, log: Log)
    requires o < |cs|
    ensures Logs(cs, log) == Logs(cs[..o], log) + ([log(cs[o])] + Logs(cs[o + 1..], log))
    ensures Logs(cs, log) == [log(cs[0])] + Logs(cs[1..], log)
    ensures o > 0 && Clean(Logs(cs[..o], log)) ==> log(cs[0]) != [] && CleanTail(log(cs[0]))
  {
    hide CleanTail;
    if o > 0 {
      assert Logs(cs[..o], log)[0] == log(cs[0]);
    }
  }

  /** The whole stream is what has been gone over and what is still ahead. */
  lemma WholeIsReadAndAhead(w: BagWrapper)
    requires w.Valid() && w.currentBuffer != null
    ensures WholeStream(w) == DeliverAll(AlreadyRead(w)) +
      Pending(w.Current()[w.taken..], Logs(w.chunksToParse[w.openChunk + 1..], w.log), w.connectionIds)
  {
    hide Pending, NextChunk, MessagesOf, Keep, DeliverAll, Flat, Clean, CleanTail, AllReadable, PassedPart, Logs;
    var cs, o, ids := w.chunksToParse, w.openChunk, w.connectionIds;
    var before, after := Logs(cs[..o], w.log), Logs(cs[o + 1..], w.log);
    LogsAround(cs, o, w.log);
    CleanChunks(before, [w.Current()] + after, ids);
    assert w.Current() != [] by { PassedMeaning(w.Current(), w.taken); }
    FirstChunk(w.Current(), after, ids);
    PendingPassed(w.Current(), w.taken, after, ids);
    var read := MessagesOf(w.Current()[..w.taken]);
    KeepConcat(Flat(before), read, ids);
    DeliverConcat(Keep(Flat(before), ids), Keep(read, ids));
    Assoc(DeliverAll(Keep(Flat(before), ids)), DeliverAll(Keep(read, ids)),
      Pending(w.Current()[w.taken..], after, ids));
  }

  lemma PassedMeaning(rs: seq<Record>, k: nat)
    requires PassedPart(rs, k)
    ensures rs != [] && k <= |rs|
  {
  }

  /** A begin() while a chunk is open reads on in that chunk and then goes to the second one.  When the rest of the open
      chunk can be scanned, it brings everything again iff that rest has just the selected messages of the first chunk;
      when it throws, iff no selected message has been gone over. */
  lemma RestartIsWhole(w: BagWrapper)
    requires w.Valid() && w.currentBuffer != null
    ensures w.Restarted() == WholeStream(w) <==>
      if CleanTail(w.Current()[w.taken..]) then
        Keep(MessagesOf(w.Current()[w.taken..]), w.connectionIds) ==
        Keep(MessagesOf(w.log(w.chunksToParse[0])), w.connectionIds)
      else AlreadyRead(w) == []
  {
    hide Pending, NextChunk, MessagesOf, Keep, DeliverAll, CleanTail, AllReadable, Clean, PassedPart, Logs, Flat;
    var cs, o, ids := w.chunksToParse, w.openChunk, w.connectionIds;
    var rest, later, first := w.Current()[w.taken..], Logs(cs[1..], w.log), w.log(cs[0]);
    LogsAround(cs, o, w.log);
    if CleanTail(rest) {
      PassedAll(w.Current(), w.taken);
      PassedMeaning(w.Current(), w.taken);
      CleanChunk(rest, later, ids);
      FirstChunk(first, later, ids);
      CleanChunk(first, later, ids);
      CancelSuffix(DeliverAll(Keep(MessagesOf(rest), ids)), DeliverAll(Keep(MessagesOf(first), ids)),
        NextChunk(later, ids));
      SameDeliveries(Keep(MessagesOf(rest), ids), Keep(MessagesOf(first), ids));
    } else {
      WholeIsReadAndAhead(w);
      ThrowIsLast(rest, later, Logs(cs[o + 1..], w.log), ids);
      EmptyPrefix(AlreadyRead(w), w.Restarted());
    }
  }

  lemma EmptyPrefix(ms: seq<Msg>, es: seq<Event>)
    ensures DeliverAll(ms) + es == es <==> ms == []
  {
    if DeliverAll(ms) + es == es {
      assert |DeliverAll(ms)| + |es| == |es|;
    }
  }

  /** So when a message of the first chunk has been delivered, a begin() before the chunk is finished never brings
      everything again. */
  lemma RestartLosesDelivered(w: BagWrapper)
    requires w.Valid() && w.currentBuffer != null
    requires w.openChunk == 0 && Keep(MessagesOf(w.Current()[..w.taken]), w.connectionIds) != []
    ensures w.Restarted() != WholeStream(w)
  {
    hide MessagesOf, Keep, Clean, AllReadable, Logs, PassedPart, CleanTail, Pending, NextChunk;
    var all, k := w.Current(), w.taken;
    PassedMeaning(all, k);
    RestartIsWhole(w);
    assert all == all[..k] + all[k..];
    MessagesConcat(all[..k], all[k..]);
    KeepConcat(MessagesOf(all[..k]), MessagesOf(all[k..]), w.connectionIds);
    NothingBefore(w.chunksToParse, w.log, MessagesOf(all[..k]));
  }

  lemma NothingBefore(cs: seq<Chunk>, log: Log, ms: seq<Msg>)
    ensures Flat(Logs(cs[..0], log)) + ms == ms
  {
    assert Logs(cs[..0], log) == [];
  }

  // ---------- A loop that is left after its first message ----------

  /** The second of two records lies behind the first. */
  lemma SecondRecord(a: Record, b: Record)
    ensures RecordsBytes([a, b]) == RecordBytes(a) + RecordsBytes([b])
    ensures Holds(RecordsBytes([a, b]), |RecordBytes(a)|, RecordsBytes([b]))
  {
    hide RecordBytes;
    assert [a, b][1..] == [b];
  }

  lemma OneChunk(c: Chunk, log: Log)
    ensures Logs([c], log) == [log(c)] && Logs([c][1..], log) == [] && Logs([c][..0], log) == []
  {
  }

  lemma OneMessage(r: Record, ids: set<nat>)
    requires HeaderOf(r).op == MESSAGE_DATA && r.data != [] && MsgOf(r).connectionId in ids
    ensures MessagesOf([r]) == [MsgOf(r)] && Keep([MsgOf(r)], ids) == [MsgOf(r)]
    ensures Pending([r], [], ids) == [Deliver(MsgOf(r))]
  {
    hide HeaderOf, MsgOf;
    MsgOfConnection(r);
    assert [r][1..] == [] && Pending([], [], ids) == [];
    assert MessagesOf([r]) == [MsgOf(r)] + MessagesOf([]);
    KeepCons(MsgOf(r), [], ids);
    NothingToKeep(ids);
  }

  lemma TwoMessages(a: Record, b: Record, ids: set<nat>)
    requires HeaderOf(a).op == HeaderOf(b).op == MESSAGE_DATA && a.data != [] && b.data != []
    requires MsgOf(a).connectionId in ids && MsgOf(b).connectionId in ids
    ensures NextChunk([[a, b]], ids) == [Deliver(MsgOf(a)), Deliver(MsgOf(b))] && PassedPart([a, b], 1)
  {
    hide HeaderOf, MsgOf;
    MsgOfConnection(a);
    OneMessage(b, ids);
    assert [a, b][1..] == [b] && [[a, b]][1..] == [];
    assert Pending([a, b], [], ids) == [Deliver(MsgOf(a))] + Pending([b], [], ids);
  }

  /** A wrapper with one chunk of two records, of which the first has been gone over. */
  ghost predicate AfterOne(w: BagWrapper, c: Chunk, a: Record, b: Record)
    reads w, w.currentBuffer
  {
    && w.chunksToParse == [c] && w.connectionIds == {0} && w.chunkIter == w.openChunk == 0 && w.taken == 1
    && w.log(c) == [a, b] && c.content == RecordsBytes([a, b]) && |c.content| == c.uncompressedSize
    && w.currentBuffer != null && w.currentBuffer[..] == c.content && w.uncompressedSize == |c.content|
    && w.processedBytes == |RecordBytes(a)|
  }

  lemma AfterOneMeaning(w: BagWrapper, c: Chunk, a: Record, b: Record)
    requires AfterOne(w, c, a, b) && GoodRecord(a) && GoodRecord(b)
    requires HeaderOf(a).op == HeaderOf(b).op == MESSAGE_DATA && a.data != [] && b.data != []
    requires MsgOf(a).connectionId == MsgOf(b).connectionId == 0
    ensures w.Valid() && w.currentBuffer != null && w.openChunk == 0 && w.connectionIds == {0}
    ensures w.taken <= |w.Current()| && w.Current()[..w.taken] == [a]
    ensures WholeStream(w) == [Deliver(MsgOf(a)), Deliver(MsgOf(b))] && w.Restarted() == [Deliver(MsgOf(b))]
  {
    hide HeaderOf, MsgOf, GoodRecord, RecordBytes, RecordsBytes, NextChunk, Pending, PassedPart, Logs, Clean, Keep;
    TwoMessages(a, b, {0});
    OneMessage(b, {0});
    SecondRecord(a, b);
    OneChunk(c, w.log);
    CleanCons([a, b], []);
    assert GoodRecords([a, b]) && Readable(c, [a, b]);
    assert [a, b][1..] == [b] && [a, b][..1] == [a];
  }

  /** The state that the scan of such a chunk is in after its first record. */
  method PlaceAfterOne(bag: Bag, a: Record, b: Record) returns (w: BagWrapper, ghost c: Chunk)
    ensures fresh(w) && fresh(w.currentBuffer) && AfterOne(w, c, a, b)
  {
    hide RecordBytes, RecordsBytes;
    var content := RecordsBytes([a, b]);
    var chunk := Chunk(0, ChunkInfo(0, Time(0, 0), Time(0, 0), 2, 1), "none", |content|, content);
    w := new BagWrapper(bag, _ => [a, b], 0);
    var buffer := new byte[|content|];
    DecompressInto(chunk, buffer);
    w.chunksToParse, w.connectionIds := [chunk], {0};
    w.currentBuffer, w.uncompressedSize, w.processedBytes := buffer, |content|, |RecordBytes(a)|;
    w.chunkIter, w.openChunk, w.taken := 0, 0, 1;
    c := chunk;
  }

  /** A loop that is left after the first of two messages: begin() brings only the second. */
  method LeaveAfterOne(bag: Bag) returns (w: BagWrapper)
    ensures fresh(w) && w.Valid() && w.currentBuffer != null && w.openChunk == 0
    ensures Keep(MessagesOf(w.Current()[..w.taken]), w.connectionIds) != []
    ensures WholeStream(w) == [Deliver(Msg(0, Time(1, 0), [7])), Deliver(Msg(0, Time(2, 0), [8]))]
    ensures w.Restarted() == [Deliver(Msg(0, Time(2, 0), [8]))]
  {
    hide HeaderOf, MsgOf, GoodRecord, MessageRecord, Keep, MessagesOf, AfterOne, BagWrapper.Valid,
      BagWrapper.Restarted, BagWrapper.Current, WholeStream;
    var m, n := Msg(0, Time(1, 0), [7]), Msg(0, Time(2, 0), [8]);
    var a, b := MessageRecord(m), MessageRecord(n);
    MessageRecordMeaning(m);
    MessageRecordMeaning(n);
    ghost var c;
    w, c := PlaceAfterOne(bag, a, b);
    AfterOneMeaning(w, c, a, b);
    OneMessage(a, {0});
  }
}
