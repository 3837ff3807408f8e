/**
 * The merge of several message streams by timestamp, as a relation on streams: what any sequence of deliveries that
 * always takes a head with minimal timestamp can produce.
 */
module Merge {
  import opened Bytes
  import opened RosTimes

  datatype Msg = Msg(connectionId: nat, timestamp: Time, data: seq<byte>)

  type Streams = seq<seq<Msg>>

  /** Stream k has a head, and no other head is earlier. */
  predicate CanTake(s: Streams, k: nat) {
    k < |s| && s[k] != [] && forall j :: 0 <= j < |s| && s[j] != [] ==> !Later(s[k][0].timestamp, s[j][0].timestamp)
  }

  function Take(s: Streams, k: nat): Streams
    requires k < |s| && s[k] != []
  {
    s[k := s[k][1..]]
  }

  predicate Exhausted(s: Streams) {
    forall j :: 0 <= j < |s| ==> s[j] == []
  }

  /** picks is the list of streams that a run up to the state t takes from, in order. */
  predicate Run(s: Streams, picks: seq<nat>, t: Streams)
    decreases |picks|
  {
    if picks == [] then s == t
    else CanTake(s, picks[0]) && Run(Take(s, picks[0]), picks[1..], t)
  }

  ghost predicate FullRun(s: Streams, picks: seq<nat>) {
    exists t :: Exhausted(t) && Run(s, picks, t)
  }

  function Output(s: Streams, picks: seq<nat>): seq<Msg>
    decreases |picks|
  {
    if picks == [] || !CanTake(s, picks[0]) then [] else [s[picks[0]][0]] + Output(Take(s, picks[0]), picks[1..])
  }

  /** The number of messages left. */
  function Left(s: Streams): nat {
    if s == [] then 0 else Left(s[..|s| - 1]) + |s[|s| - 1]|
  }

  lemma {:induction false} LeftDecreases(s: Streams, k: nat)
    requires k < |s| && s[k] != []
    ensures Left(Take(s, k)) == Left(s) - 1
  {
    var n := |s| - 1;
    if k < n {
      LeftDecreases(s[..n], k);
      assert Take(s, k)[..n] == Take(s[..n], k);
    } else {
      assert Take(s, k)[..n] == s[..n];
    }
  }

  /** The part of an output that came from stream j. */
  function From(out: seq<Msg>, picks: seq<nat>, j: nat): seq<Msg>
    requires |out| == |picks|
  {
    if picks == [] then [] else (if picks[0] == j then [out[0]] else []) + From(out[1..], picks[1..], j)
  }

  /** A run can be continued by one more delivery. */
  lemma {:induction false} RunExtends(s: Streams, picks: seq<nat>, t: Streams, k: nat)
    requires Run(s, picks, t) && CanTake(t, k)
    ensures Run(s, picks + [k], Take(t, k))
    ensures Output(s, picks + [k]) == Output(s, picks) + [t[k][0]]
    decreases |picks|
  {
    if picks == [] {
      assert (picks + [k])[1..] == [];
    } else {
      RunExtends(Take(s, picks[0]), picks[1..], t, k);
      assert (picks + [k])[1..] == picks[1..] + [k];
    }
  }

  lemma RunStep(s: Streams, picks: seq<nat>, t: Streams)
    requires Run(s, picks, t) && picks != []
    ensures picks[0] < |s| && s[picks[0]] != [] && Run(Take(s, picks[0]), picks[1..], t)
    ensures Output(s, picks) == [s[picks[0]][0]] + Output(Take(s, picks[0]), picks[1..])
  {
  }

  lemma FromCons(m: Msg, rest: seq<Msg>, picks: seq<nat>, j: nat)
    requires picks != [] && |rest| == |picks| - 1
    ensures From([m] + rest, picks, j) == (if picks[0] == j then [m] else []) + From(rest, picks[1..], j)
  {
    assert ([m] + rest)[1..] == rest;
  }

  lemma ConsSplit<T>(x: T, a: seq<T>, b: seq<T>, whole: seq<T>)
    requires whole != [] && whole[0] == x && a + b == whole[1..]
    ensures ([x] + a) + b == whole
  {
    assert ([x] + a) + b == [x] + (a + b);
  }

  /** Interleaving: from each stream exactly the taken prefix is delivered, in its order, each message once. */
  lemma {:induction false} RunInterleaves(s: Streams, picks: seq<nat>, t: Streams, j: nat)
    requires Run(s, picks, t) && j < |s|
    ensures |Output(s, picks)| == |picks| && |t| == |s|
    ensures From(Output(s, picks), picks, j) + t[j] == s[j]
    decreases |picks|
  {
    hide CanTake;
    if picks == [] {
      assert From([], picks, j) == [];
    } else {
      RunInterleavesStep(s, picks, t, j);
    }
  }

  lemma {:induction false} RunInterleavesStep(s: Streams, picks: seq<nat>, t: Streams, j: nat)
    requires Run(s, picks, t) && j < |s| && picks != []
    ensures |Output(s, picks)| == |picks| && |t| == |s|
    ensures From(Output(s, picks), picks, j) + t[j] == s[j]
    decreases |picks|, 0
  {
    hide Run, CanTake, Output, From;
    RunStep(s, picks, t);
    var k, s' := picks[0], Take(s, picks[0]);
    RunInterleaves(s', picks[1..], t, j);
    var rest := Output(s', picks[1..]);
    var from := From(rest, picks[1..], j);
    FromCons(s[k][0], rest, picks, j);
    assert from + t[j] == s'[j];
    if k == j {
      ConsSplit(s[k][0], from, t[j], s[j]);
    } else {
      assert [] + from == from;
    }
  }

  /** Every message of an output comes from the stream it was picked from. */
  lemma {:induction false} OutputIsPicked(s: Streams, picks: seq<nat>, t: Streams, i: nat)
    requires Run(s, picks, t) && i < |picks|
    ensures |Output(s, picks)| == |picks| && picks[i] < |s| && Output(s, picks)[i] in s[picks[i]]
    decreases |picks|
  {
    hide CanTake, Run, Output;
    RunStep(s, picks, t);
    var s' := Take(s, picks[0]);
    RunInterleaves(s, picks, t, picks[0]);
    if i > 0 {
      OutputIsPicked(s', picks[1..], t, i - 1);
      assert forall m :: m in s[picks[0]][1..] ==> m in s[picks[0]];
    }
  }

  /** A full run delivers all of every stream. */
  lemma FullRunDeliversAll(s: Streams, picks: seq<nat>, j: nat)
    requires FullRun(s, picks) && j < |s|
    ensures |Output(s, picks)| == |picks|
    ensures From(Output(s, picks), picks, j) == s[j]
  {
    var t :| Exhausted(t) && Run(s, picks, t);
    RunInterleaves(s, picks, t, j);
  }

  // ---------- Order of delivery ----------

  predicate Sorted(ms: seq<Msg>) {
    forall i, j :: 0 <= i < j < |ms| ==> !Later(ms[i].timestamp, ms[j].timestamp)
  }

  predicate AllSorted(s: Streams) {
    forall j :: 0 <= j < |s| ==> Sorted(s[j])
  }

  /** No message left in any stream is earlier than a given time. */
  predicate NothingBefore(s: Streams, time: Time) {
    forall j, i :: 0 <= j < |s| && 0 <= i < |s[j]| ==> !Later(time, s[j][i].timestamp)
  }

  /** With sorted streams a takeable head is earliest among everything that is left. */
  lemma HeadIsEarliest(s: Streams, k: nat)
    requires AllSorted(s) && CanTake(s, k)
    ensures NothingBefore(s, s[k][0].timestamp)
    ensures AllSorted(Take(s, k))
    ensures NothingBefore(Take(s, k), s[k][0].timestamp)
  {
    forall j, i | 0 <= j < |s| && 0 <= i < |s[j]|
      ensures !Later(s[k][0].timestamp, s[j][i].timestamp)
    {
      QueueOrder(s[k][0].timestamp, s[j][0].timestamp, s[j][i].timestamp);
    }
    assert forall i, j :: 0 <= i < j < |s[k][1..]| ==> s[k][1..][i] == s[k][i + 1] && s[k][1..][j] == s[k][j + 1];
  }

  /** The output of a run over sorted streams is sorted, and no message left over is earlier than any delivered one. */
  lemma {:induction false} SortedRun(s: Streams, picks: seq<nat>, t: Streams)
    requires AllSorted(s) && Run(s, picks, t)
    ensures Sorted(Output(s, picks)) && AllSorted(t)
    ensures forall time: Time :: NothingBefore(s, time) ==>
      NothingBefore(t, time) && forall i :: 0 <= i < |Output(s, picks)| ==> !Later(time, Output(s, picks)[i].timestamp)
    ensures forall i :: 0 <= i < |Output(s, picks)| ==> NothingBefore(t, Output(s, picks)[i].timestamp)
    decreases |picks|
  {
    if picks != [] {
      var s', head := Take(s, picks[0]), s[picks[0]][0];
      HeadIsEarliest(s, picks[0]);
      SortedRun(s', picks[1..], t);
      var rest := Output(s', picks[1..]);
      assert Output(s, picks) == [head] + rest;
      forall time: Time | NothingBefore(s, time)
        ensures NothingBefore(s', time)
      {
        forall j, i | 0 <= j < |s'| && 0 <= i < |s'[j]|
          ensures !Later(time, s'[j][i].timestamp)
        {
          if j == picks[0] {
            assert s'[j][i] == s[j][i + 1];
          }
        }
      }
    }
  }

  lemma {:induction false} FromIsSorted(out: seq<Msg>, picks: seq<nat>, j: nat)
    requires |out| == |picks| && Sorted(out)
    ensures Sorted(From(out, picks, j))
    ensures forall m :: m in From(out, picks, j) ==> m in out
    decreases |picks|
  {
    hide Later;
    if picks != [] {
      var rest := out[1..];
      assert out == [out[0]] + rest;
      assert forall a :: 0 <= a < |rest| ==> rest[a] == out[a + 1];
      FromIsSorted(rest, picks[1..], j);
      var tail := From(rest, picks[1..], j);
      if picks[0] == j {
        forall b | 0 <= b < |tail|
          ensures !Later(out[0].timestamp, tail[b].timestamp)
        {
          assert tail[b] in rest;
          var a :| 0 <= a < |rest| && rest[a] == tail[b];
          assert !Later(out[0].timestamp, out[a + 1].timestamp);
        }
      }
    }
  }

  /** A full run delivers in time order iff every stream is in time order. */
  lemma FullRunSorted(s: Streams, picks: seq<nat>)
    requires FullRun(s, picks)
    ensures Sorted(Output(s, picks)) <==> AllSorted(s)
  {
    hide Output, From, Run, Sorted;
    var t :| Exhausted(t) && Run(s, picks, t);
    if AllSorted(s) {
      SortedRun(s, picks, t);
    }
    if Sorted(Output(s, picks)) {
      forall j | 0 <= j < |s|
        ensures Sorted(s[j])
      {
        FullRunDeliversAll(s, picks, j);
        FromIsSorted(Output(s, picks), picks, j);
      }
    }
  }

  // ---------- Pruning ----------

  function Keep(ms: seq<Msg>, ids: set<nat>): seq<Msg> {
    if ms == [] then [] else (if ms[0].connectionId in ids then [ms[0]] else []) + Keep(ms[1..], ids)
  }

  lemma KeepCons(m: Msg, ms: seq<Msg>, ids: set<nat>)
    ensures Keep([m] + ms, ids) == if m.connectionId in ids then [m] + Keep(ms, ids) else Keep(ms, ids)
  {
    assert ([m] + ms)[1..] == ms;
  }

  /** Each stream with only the messages on its own selected connections. */
  function KeepAll(s: Streams, ids: seq<set<nat>>): Streams
    requires |ids| == |s|
  {
    seq(|s|, j requires 0 <= j < |s| => Keep(s[j], ids[j]))
  }

  /** The picks of those deliveries that are kept. */
  function KeepPicks(s: Streams, picks: seq<nat>, ids: seq<set<nat>>): seq<nat>
    requires |ids| == |s|
    decreases |picks|
  {
    if picks == [] || !CanTake(s, picks[0]) then [] else
      (if s[picks[0]][0].connectionId in ids[picks[0]] then [picks[0]] else []) +
      KeepPicks(Take(s, picks[0]), picks[1..], ids)
  }

  /** The messages of an output that are on the selected connections of the stream they came from. */
  function KeepOutput(s: Streams, picks: seq<nat>, ids: seq<set<nat>>): seq<Msg>
    requires |ids| == |s|
    decreases |picks|
  {
    if picks == [] || !CanTake(s, picks[0]) then [] else
      (if s[picks[0]][0].connectionId in ids[picks[0]] then [s[picks[0]][0]] else []) +
      KeepOutput(Take(s, picks[0]), picks[1..], ids)
  }

  lemma {:induction false} KeepFirstIsNotEarlier(ms: seq<Msg>, ids: set<nat>)
    requires Sorted(ms) && Keep(ms, ids) != []
    ensures ms != [] && !Later(ms[0].timestamp, Keep(ms, ids)[0].timestamp)
  {
    if ms[0].connectionId in ids {
      QueueOrder(ms[0].timestamp, ms[0].timestamp, ms[0].timestamp);
    } else {
      assert forall i :: 0 <= i < |ms[1..]| ==> ms[1..][i] == ms[i + 1];
      KeepFirstIsNotEarlier(ms[1..], ids);
      QueueOrder(ms[0].timestamp, ms[1].timestamp, Keep(ms, ids)[0].timestamp);
    }
  }

  /** A delivery that is kept can also be made from the pruned streams; one that is dropped changes nothing there. */
  lemma KeepStep(s: Streams, k: nat, ids: seq<set<nat>>)
    requires |ids| == |s| && AllSorted(s) && CanTake(s, k)
    ensures s[k][0].connectionId in ids[k] ==>
      CanTake(KeepAll(s, ids), k) && KeepAll(s, ids)[k][0] == s[k][0] &&
        Take(KeepAll(s, ids), k) == KeepAll(Take(s, k), ids)
    ensures s[k][0].connectionId !in ids[k] ==> KeepAll(Take(s, k), ids) == KeepAll(s, ids)
  {
    var p := KeepAll(s, ids);
    if s[k][0].connectionId in ids[k] {
      assert p[k] == [s[k][0]] + Keep(s[k][1..], ids[k]);
      forall j | 0 <= j < |p| && p[j] != []
        ensures !Later(p[k][0].timestamp, p[j][0].timestamp)
      {
        KeepFirstIsNotEarlier(s[j], ids[j]);
        QueueOrder(s[k][0].timestamp, s[j][0].timestamp, p[j][0].timestamp);
      }
      assert p[k][1..] == Keep(s[k][1..], ids[k]);
    } else {
      var q := KeepAll(Take(s, k), ids);
      assert p[k] == [] + Keep(s[k][1..], ids[k]) == q[k];
      assert forall j :: 0 <= j < |s| && j != k ==> q[j] == p[j];
      assert q == p;
    }
  }

  /** Filtering any merge of sorted streams gives a merge of the filtered streams. */
  lemma {:induction false} FilteredRunIsRun(s: Streams, picks: seq<nat>, t: Streams, ids: seq<set<nat>>)
    requires |ids| == |s| && AllSorted(s) && Run(s, picks, t)
    ensures |t| == |s| && Run(KeepAll(s, ids), KeepPicks(s, picks, ids), KeepAll(t, ids))
    ensures Output(KeepAll(s, ids), KeepPicks(s, picks, ids)) == KeepOutput(s, picks, ids)
    decreases |picks|
  {
    if picks != [] {
      var k := picks[0];
      HeadIsEarliest(s, k);
      KeepStep(s, k, ids);
      FilteredRunIsRun(Take(s, k), picks[1..], t, ids);
      var rest := KeepPicks(Take(s, k), picks[1..], ids);
      if s[k][0].connectionId in ids[k] {
        assert ([k] + rest)[1..] == rest;
      } else {
        assert [] + rest == rest;
      }
    }
  }

  /** Some head of unexhausted streams is earliest. */
  lemma SomeHead(s: Streams) returns (k: nat)
    requires !Exhausted(s)
    ensures CanTake(s, k)
  {
    var j :| 0 <= j < |s| && s[j] != [];
    k := j;
    for n := 0 to |s|
      invariant k < |s| && s[k] != []
      invariant forall i :: 0 <= i < n && s[i] != [] ==> !Later(s[k][0].timestamp, s[i][0].timestamp)
    {
      if s[n] != [] && Later(s[k][0].timestamp, s[n][0].timestamp) {
        forall i | 0 <= i < n && s[i] != []
          ensures !Later(s[n][0].timestamp, s[i][0].timestamp)
        {
          QueueOrder(s[n][0].timestamp, s[k][0].timestamp, s[i][0].timestamp);
        }
        k := n;
      } else if s[n] != [] {
        QueueOrder(s[k][0].timestamp, s[k][0].timestamp, s[n][0].timestamp);
      }
    }
  }

  /** If the earliest head is kept and the filtered streams may deliver from stream k, then so may the unfiltered ones:
      the head of stream k is just as early. */
  lemma FilteredHeadIsHead(s: Streams, j: nat, k: nat, ids: seq<set<nat>>)
    requires |ids| == |s| && AllSorted(s) && CanTake(s, j) && s[j][0].connectionId in ids[j]
    requires CanTake(KeepAll(s, ids), k)
    ensures CanTake(s, k)
  {
    hide Later;
    var p := KeepAll(s, ids);
    KeepFirstIsNotEarlier(s[k], ids[k]);
    assert p[j] == [s[j][0]] + Keep(s[j][1..], ids[j]);
    assert !Later(p[k][0].timestamp, s[j][0].timestamp);
    QueueOrder(s[k][0].timestamp, p[k][0].timestamp, s[j][0].timestamp);
    forall i | 0 <= i < |s| && s[i] != []
      ensures !Later(s[k][0].timestamp, s[i][0].timestamp)
    {
      QueueOrder(s[k][0].timestamp, s[j][0].timestamp, s[i][0].timestamp);
    }
  }

  lemma KeepPicksStep(s: Streams, picks: seq<nat>, ids: seq<set<nat>>, k: nat)
    requires |ids| == |s| && CanTake(s, k)
    ensures KeepPicks(s, [k] + picks, ids) ==
      (if s[k][0].connectionId in ids[k] then [k] else []) + KeepPicks(Take(s, k), picks, ids)
  {
    assert ([k] + picks)[1..] == picks;
  }

  lemma RunCons(s: Streams, k: nat, picks: seq<nat>)
    requires CanTake(s, k) && FullRun(Take(s, k), picks)
    ensures FullRun(s, [k] + picks)
  {
    assert ([k] + picks)[1..] == picks;
    var t :| Exhausted(t) && Run(Take(s, k), picks, t);
    assert Run(s, [k] + picks, t);
  }

  lemma FullRunTail(s: Streams, picks: seq<nat>)
    requires FullRun(s, picks)
    ensures picks == [] <==> Exhausted(s)
    ensures picks != [] ==> CanTake(s, picks[0]) && FullRun(Take(s, picks[0]), picks[1..])
  {
    var t :| Exhausted(t) && Run(s, picks, t);
  }

  /** Every full run of the filtered streams is what some full run of the unfiltered streams leaves after filtering:
      deliver unselected heads whenever one is earliest. */
  lemma {:induction false} FilteredRunLifts(s: Streams, filtered: seq<nat>, ids: seq<set<nat>>)
    returns (picks: seq<nat>)
    requires |ids| == |s| && AllSorted(s) && FullRun(KeepAll(s, ids), filtered)
    ensures FullRun(s, picks) && KeepPicks(s, picks, ids) == filtered
    decreases Left(s)
  {
    hide Run, Left, Later, FullRun, KeepPicks, Keep, AllSorted, CanTake, Exhausted;
    FullRunTail(KeepAll(s, ids), filtered);
    if Exhausted(s) {
      picks := [];
      NothingKept(s, ids);
      EmptyRun(s, ids);
    } else {
      var k := SomeHead(s);
      HeadIsThere(s, k);
      if s[k][0].connectionId in ids[k] {
        SelectedHeadIsKept(s, k, ids);
        FilteredHeadIsHead(s, k, filtered[0], ids);
        k := filtered[0];
        HeadIsThere(s, k);
      }
      HeadIsEarliest(s, k);
      KeepStep(s, k, ids);
      LeftDecreases(s, k);
      var kept := s[k][0].connectionId in ids[k];
      var rest := FilteredRunLifts(Take(s, k), if kept then filtered[1..] else filtered, ids);
      picks := [k] + rest;
      RunCons(s, k, rest);
      KeepPicksStep(s, rest, ids, k);
    }
  }

  lemma HeadIsThere(s: Streams, k: nat)
    requires CanTake(s, k)
    ensures k < |s| && s[k] != []
  {
  }

  lemma SelectedHeadIsKept(s: Streams, k: nat, ids: seq<set<nat>>)
    requires |ids| == |s| && k < |s| && s[k] != [] && s[k][0].connectionId in ids[k]
    ensures !Exhausted(KeepAll(s, ids))
  {
    assert KeepAll(s, ids)[k] != [];
  }

  lemma NothingKept(s: Streams, ids: seq<set<nat>>)
    requires Exhausted(s) && |ids| == |s|
    ensures Exhausted(KeepAll(s, ids))
  {
  }

  lemma EmptyRun(s: Streams, ids: seq<set<nat>>)
    requires Exhausted(s) && |ids| == |s|
    ensures FullRun(s, []) && KeepPicks(s, [], ids) == []
  {
    assert Run(s, [], s);
  }

  /** For sorted streams, filtering the full runs gives exactly the full runs of the filtered streams. */
  lemma FilteredRunsAreRuns(s: Streams, ids: seq<set<nat>>, filtered: seq<nat>)
    requires |ids| == |s| && AllSorted(s)
    ensures FullRun(KeepAll(s, ids), filtered) <==>
      exists picks :: FullRun(s, picks) && KeepPicks(s, picks, ids) == filtered
  {
    hide Run, AllSorted, KeepPicks, KeepAll, Exhausted;
    if FullRun(KeepAll(s, ids), filtered) {
      var picks := FilteredRunLifts(s, filtered, ids);
    }
    if picks :| FullRun(s, picks) && KeepPicks(s, picks, ids) == filtered {
      var t :| Exhausted(t) && Run(s, picks, t);
      FilteredRunIsRun(s, picks, t, ids);
      NothingKept(t, ids);
    }
  }

  /** A late message before an early one in one stream, and one between them in time in the other. */
  lemma UnsortedExample(late: Msg, early: Msg, middle: Msg, ids: set<nat>)
    requires late.timestamp == Time(9, 0) && early.timestamp == Time(1, 0) && middle.timestamp == Time(5, 0)
    requires late.connectionId !in ids && early.connectionId in ids && middle.connectionId in ids
    ensures FullRun([[late, early], [middle]], [1, 0, 0])
    ensures KeepAll([[late, early], [middle]], [ids, ids]) == [[early], [middle]]
    ensures exists rest: seq<nat> :: KeepPicks([[late, early], [middle]], [1, 0, 0], [ids, ids]) == [1] + rest
  {
    var s: Streams := [[late, early], [middle]];
    var s1: Streams := [[late, early], []];
    var s2: Streams := [[early], []];
    var s3: Streams := [[], []];
    var picks: seq<nat> := [1, 0, 0];
    assert [middle][1..] == [] && [late, early][1..] == [early] && [early][1..] == [];
    assert Take(s, 1) == s1 && Take(s1, 0) == s2 && Take(s2, 0) == s3;
    assert CanTake(s, 1) && CanTake(s1, 0) && CanTake(s2, 0);
    assert picks[1..] == [0, 0] && [0, 0][1..] == [0] && [0][1..] == [];
    assert Run(s3, [], s3) && Run(s2, [0], s3) && Run(s1, [0, 0], s3);
    assert Exhausted(s3) && Run(s, picks, s3);
    KeepCons(early, [], ids);
    KeepCons(middle, [], ids);
    KeepCons(late, [early], ids);
    assert [early] + [] == [early] && [middle] + [] == [middle] && [late] + [early] == [late, early];
    assert KeepAll(s, [ids, ids]) == [[early], [middle]];
    assert KeepPicks(s, picks, [ids, ids]) == [1] + KeepPicks(s1, [0, 0], [ids, ids]);
  }

  /** Sortedness is needed: a late head that is dropped can hide an earlier message behind it. */
  lemma FilterNeedsSorted()
    ensures exists s: Streams, picks: seq<nat>, ids: seq<set<nat>> ::
      |ids| == |s| && FullRun(s, picks) && !FullRun(KeepAll(s, ids), KeepPicks(s, picks, ids))
  {
    hide KeepAll, KeepPicks, Keep, Exhausted;
    var late, early, middle := Msg(0, Time(9, 0), []), Msg(1, Time(1, 0), []), Msg(1, Time(5, 0), []);
    var s: Streams := [[late, early], [middle]];
    var picks: seq<nat> := [1, 0, 0];
    UnsortedExample(late, early, middle, {1});
    var p := KeepAll(s, [{1}, {1}]);
    assert p[0] == [early] && p[1] == [middle];
    assert Later(p[1][0].timestamp, p[0][0].timestamp) && !CanTake(p, 1);
  }
}
