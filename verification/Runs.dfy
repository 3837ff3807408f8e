/**
 * Runs of a loop over several event streams: always a head with minimal timestamp is taken, until nothing is left or
 * some stream is about to throw.  What a run delivers is a run of the merge over the streams up to their throws.
 */
module Runs {
  import opened RosTimes
  import opened Merge
  import opened Scan

  type EventStreams = seq<seq<Event>>

  predicate Deliverable(s: seq<Event>) {
    s == [] || s[0].Deliver?
  }

  /** No stream is about to throw. */
  predicate Quiet(es: EventStreams) {
    forall i :: 0 <= i < |es| ==> Deliverable(es[i])
  }

  predicate Finished(es: EventStreams) {
    forall i :: 0 <= i < |es| ==> es[i] == []
  }

  /** What the streams deliver before they throw. */
  function Deliveries(es: EventStreams): Streams {
    seq(|es|, i requires 0 <= i < |es| => BeforeThrow(es[i]))
  }

  function TakeEvent(es: EventStreams, k: nat): EventStreams
    requires k < |es| && es[k] != []
  {
    es[k := es[k][1..]]
  }

  lemma QuietStep(es: EventStreams, k: nat)
    requires Quiet(es) && k < |es| && es[k] != []
    ensures Quiet(TakeEvent(es, k)) <==> Deliverable(es[k][1..])
  {
    hide Deliverable;
    assert TakeEvent(es, k)[k] == es[k][1..];
  }

  lemma HeadIsDelivery(es: EventStreams, k: nat)
    requires CanTake(Deliveries(es), k)
    ensures k < |es| && es[k] != [] && es[k][0] == Deliver(Deliveries(es)[k][0])
    ensures Deliveries(TakeEvent(es, k)) == Take(Deliveries(es), k)
  {
    hide Later;
    var a, b := Deliveries(TakeEvent(es, k)), Take(Deliveries(es), k);
    forall i | 0 <= i < |es|
      ensures a[i] == b[i]
    {
      if i == k {
        assert a[i] == BeforeThrow(es[k][1..]);
      }
    }
  }

  /** picks are the deliveries of a loop over es, which leaves the streams left; it goes on only while nothing
      throws. */
  predicate Reaches(es: EventStreams, picks: seq<nat>, left: EventStreams)
    decreases |picks|
  {
    if picks == [] then left == es else
      && Quiet(es) && CanTake(Deliveries(es), picks[0])
      && picks[0] < |es| && es[picks[0]] != [] && Reaches(TakeEvent(es, picks[0]), picks[1..], left)
  }

  lemma {:induction false} ReachesExtends(es: EventStreams, picks: seq<nat>, cur: EventStreams, k: nat)
    requires Reaches(es, picks, cur) && Quiet(cur) && CanTake(Deliveries(cur), k)
    ensures k < |cur| && cur[k] != [] && Reaches(es, picks + [k], TakeEvent(cur, k))
    decreases |picks|
  {
    hide CanTake, Deliveries, Quiet;
    if picks == [] {
      HeadIsDelivery(cur, k);
      assert ([] + [k])[1..] == [];
      assert Reaches(TakeEvent(es, k), [], TakeEvent(cur, k));
    } else {
      ReachesExtends(TakeEvent(es, picks[0]), picks[1..], cur, k);
      assert (picks + [k])[1..] == picks[1..] + [k];
    }
  }

  /** The deliveries before a throw, or before the end, are a run of the streams up to their first throw. */
  lemma {:induction false} ReachesIsRun(es: EventStreams, picks: seq<nat>, left: EventStreams)
    requires Reaches(es, picks, left)
    ensures Run(Deliveries(es), picks, Deliveries(left))
    decreases |picks|
  {
    hide CanTake, Deliveries, Quiet;
    if picks != [] {
      HeadIsDelivery(es, picks[0]);
      ReachesIsRun(TakeEvent(es, picks[0]), picks[1..], left);
    }
  }

  /** A throw is never passed over: it is left exactly where it was to come. */
  lemma {:induction false} ThrowsAreLeft(es: EventStreams, picks: seq<nat>, left: EventStreams, j: nat)
    requires Reaches(es, picks, left) && j < |es|
    ensures |left| == |es| && (Throw in left[j] <==> Throw in es[j])
    decreases |picks|
  {
    hide CanTake, Deliveries;
    if picks != [] {
      var k := picks[0];
      ThrowsAreLeft(TakeEvent(es, k), picks[1..], left, j);
      assert es[k] == [es[k][0]] + es[k][1..];
    }
  }

  lemma FinishedIsExhausted(left: EventStreams)
    requires Finished(left)
    ensures Exhausted(Deliveries(left)) && forall j :: 0 <= j < |left| ==> Throw !in left[j]
  {
  }

  /** A loop that leaves nothing has met no throw, and has delivered all of every stream. */
  lemma FinishedIsFull(es: EventStreams, picks: seq<nat>, left: EventStreams)
    requires Reaches(es, picks, left) && Finished(left)
    ensures FullRun(Deliveries(es), picks)
    ensures forall j :: 0 <= j < |es| ==> es[j] == DeliverAll(Deliveries(es)[j])
  {
    hide Reaches, Finished, Run, Exhausted;
    ReachesIsRun(es, picks, left);
    FinishedIsExhausted(left);
    forall j | 0 <= j < |es|
      ensures es[j] == DeliverAll(Deliveries(es)[j])
    {
      ThrowsAreLeft(es, picks, left, j);
      BeforeThrowMeaning(es[j]);
    }
  }

  /** When something throws, it is the stream that was delivered from last, or some stream at its start. */
  lemma {:induction false} LastPickThrows(es: EventStreams, picks: seq<nat>, left: EventStreams)
    requires Reaches(es, picks, left) && !Quiet(left)
    ensures picks == [] ==> !Quiet(es)
    ensures picks != [] ==>
      var k := picks[|picks| - 1];
      k < |left| && left[k] != [] && left[k][0] == Throw && forall i :: 0 <= i < |left| && i != k ==>
        Deliverable(left[i])
    decreases |picks|
  {
    hide CanTake, Deliveries;
    if picks != [] {
      LastPickThrows(TakeEvent(es, picks[0]), picks[1..], left);
    }
  }
}
