/** connectionsByTopicMap: the connections of one bag by topic, and equal connections of several bags grouped. */
module ConnectionGroups {
  import opened BagTypes
  import opened BagIndex

  type TopicConnections = map<string, seq<ConnectionData>>

  function DataOf(table: Connections, cs: seq<nat>): seq<ConnectionData> {
    seq(|cs|, i requires 0 <= i < |cs| => if cs[i] < |table| then table[cs[i]].data else NO_CONNECTION.data)
  }

  /** Bag::connectionsByTopicMap: the data behind the connections of each topic; the topic map is visited in any
      order. */
  method BagConnectionsByTopic(table: Connections, topics: TopicMap) returns (r: TopicConnections)
    requires forall t, i :: t in topics && 0 <= i < |topics[t]| ==> topics[t][i] < |table|
    ensures r == map t | t in topics :: DataOf(table, topics[t])
  {
    r := map[];
    var todo := topics.Keys;
    while todo != {}
      invariant todo <= topics.Keys && r.Keys == topics.Keys - todo
      invariant forall t :: t in r ==> r[t] == DataOf(table, topics[t])
    {
      var t :| t in todo;
      var conns: seq<ConnectionData> := [];
      for i := 0 to |topics[t]|
        invariant conns == DataOf(table, topics[t])[..i]
      {
        conns := conns + [table[topics[t][i]].data];
      }
      r := r[t := conns];
      todo := todo - {t};
    }
  }

  // ---------- Grouping ----------

  /** The position of the first entry equal to c, or the length. */
  function FirstSame(es: seq<ConnectionData>, c: ConnectionData): (n: nat)
    ensures n <= |es| && (n < |es| ==> es[n].Same(c))
    ensures forall i :: 0 <= i < n ==> !es[i].Same(c)
  {
    if es == [] || es[0].Same(c) then 0 else
      var n := FirstSame(es[1..], c);
      assert forall i :: 1 <= i <= n ==> es[i] == es[1..][i - 1];
      1 + n
  }

  function AddOne(es: seq<ConnectionData>, c: ConnectionData): seq<ConnectionData> {
    var n := FirstSame(es, c);
    if n < |es| then es[n := es[n].(messageCount := es[n].messageCount + c.messageCount)] else es + [c]
  }

  function Group(es: seq<ConnectionData>, cs: seq<ConnectionData>): seq<ConnectionData> {
    if cs == [] then es else AddOne(Group(es, cs[..|cs| - 1]), cs[|cs| - 1])
  }

  lemma {:induction false} GroupConcat(es: seq<ConnectionData>, a: seq<ConnectionData>, b: seq<ConnectionData>)
    ensures Group(es, a + b) == Group(Group(es, a), b)
  {
    if b == [] {
      assert a + b == a;
    } else {
      assert (a + b)[..|a + b| - 1] == a + b[..|b| - 1];
      GroupConcat(es, a, b[..|b| - 1]);
    }
  }

  /** The total count of the entries equal to key. */
  function ClassTotal(cs: seq<ConnectionData>, key: ConnectionData): nat {
    if cs == [] then 0 else
      ClassTotal(cs[..|cs| - 1], key) + if cs[|cs| - 1].Same(key) then cs[|cs| - 1].messageCount else 0
  }

  function Total(cs: seq<ConnectionData>): nat {
    if cs == [] then 0 else Total(cs[..|cs| - 1]) + cs[|cs| - 1].messageCount
  }

  predicate PairwiseDifferent(cs: seq<ConnectionData>) {
    forall i, j :: 0 <= i < j < |cs| ==> !cs[i].Same(cs[j])
  }

  predicate Has(cs: seq<ConnectionData>, key: ConnectionData) {
    exists i :: 0 <= i < |cs| && cs[i].Same(key)
  }

  lemma SameIsEquivalence(a: ConnectionData, b: ConnectionData, c: ConnectionData)
    ensures a.Same(a) && (a.Same(b) <==> b.Same(a)) && (a.Same(b) && b.Same(c) ==> a.Same(c))
  {
  }

  lemma {:induction false} RaiseCount(es: seq<ConnectionData>, n: nat, more: nat, key: ConnectionData)
    requires n < |es|
    ensures
      var raised := es[n := es[n].(messageCount := es[n].messageCount + more)];
      && ClassTotal(raised, key) == ClassTotal(es, key) + (if es[n].Same(key) then more else 0)
      && Total(raised) == Total(es) + more
  {
    var k := |es| - 1;
    var raised := es[n := es[n].(messageCount := es[n].messageCount + more)];
    if n < k {
      RaiseCount(es[..k], n, more, key);
      assert raised[..k] == es[..k][n := es[n].(messageCount := es[n].messageCount + more)];
    } else {
      assert raised[..k] == es[..k];
    }
  }

  lemma AddOneGroups(es: seq<ConnectionData>, c: ConnectionData, key: ConnectionData)
    requires PairwiseDifferent(es)
    ensures PairwiseDifferent(AddOne(es, c))
    ensures ClassTotal(AddOne(es, c), key) == ClassTotal(es, key) + if c.Same(key) then c.messageCount else 0
    ensures Total(AddOne(es, c)) == Total(es) + c.messageCount
    ensures Has(AddOne(es, c), key) <==> Has(es, key) || c.Same(key)
  {
    hide ConnectionData.Same;
    var n := FirstSame(es, c);
    if n < |es| {
      RaiseCount(es, n, c.messageCount, key);
      SameIgnoresCount(es[n], es[n].messageCount + c.messageCount);
      SameIsEquivalence(es[n], c, key);
      SameIsEquivalence(c, es[n], key);
      var r := AddOne(es, c);
      if i :| 0 <= i < |es| && es[i].Same(key) {
        assert r[i].Same(key);
      }
    } else {
      var r := es + [c];
      assert r[..|es|] == es;
      forall i | 0 <= i < |es|
        ensures !es[i].Same(c)
      {
      }
      if i :| 0 <= i < |es| && es[i].Same(key) {
        assert r[i].Same(key);
      }
      if c.Same(key) {
        assert r[|es|].Same(key);
      }
    }
  }

  lemma SameIgnoresCount(c: ConnectionData, n: nat)
    ensures forall x: ConnectionData :: c.(messageCount := n).Same(x) <==> c.Same(x)
    ensures forall x: ConnectionData :: x.Same(c.(messageCount := n)) <==> x.Same(c)
  {
  }

  /** Grouping is a group-by: the entries are pairwise different, each class occurs iff a connection of it was there,
      its total is the sum of that class, and the grand total is kept. */
  lemma {:induction false} GroupMeaning(cs: seq<ConnectionData>, key: ConnectionData)
    ensures PairwiseDifferent(Group([], cs))
    ensures ClassTotal(Group([], cs), key) == ClassTotal(cs, key)
    ensures Total(Group([], cs)) == Total(cs)
    ensures Has(Group([], cs), key) <==> Has(cs, key)
  {
    hide ConnectionData.Same, AddOne;
    if cs != [] {
      var k := |cs| - 1;
      GroupMeaning(cs[..k], key);
      AddOneGroups(Group([], cs[..k]), cs[k], key);
      if i :| 0 <= i < k && cs[i].Same(key) {
        assert cs[..k][i].Same(key);
      }
      if i :| 0 <= i < |cs[..k]| && cs[..k][i].Same(key) {
        assert cs[i].Same(key);
      }
    }
  }

  /** In a list of pairwise different entries each entry's count is the total of its class. */
  lemma {:induction false} EntryIsClassTotal(cs: seq<ConnectionData>, i: nat)
    requires PairwiseDifferent(cs) && i < |cs|
    ensures ClassTotal(cs, cs[i]) == cs[i].messageCount
  {
    hide ConnectionData.Same;
    var k := |cs| - 1;
    SameIsEquivalence(cs[i], cs[k], cs[k]);
    if i < k {
      EntryIsClassTotal(cs[..k], i);
    } else {
      NoClassTotal(cs[..k], cs[k]);
    }
  }

  lemma {:induction false} NoClassTotal(cs: seq<ConnectionData>, key: ConnectionData)
    requires forall i :: 0 <= i < |cs| ==> !cs[i].Same(key)
    ensures ClassTotal(cs, key) == 0
  {
    if cs != [] {
      NoClassTotal(cs[..|cs| - 1], key);
    }
  }

  lemma {:induction false} ClassTotalConcat(a: seq<ConnectionData>, b: seq<ConnectionData>, key: ConnectionData)
    ensures ClassTotal(a + b, key) == ClassTotal(a, key) + ClassTotal(b, key)
    ensures Total(a + b) == Total(a) + Total(b)
  {
    if b == [] {
      assert a + b == a;
    } else {
      assert (a + b)[..|a + b| - 1] == a + b[..|b| - 1];
      ClassTotalConcat(a, b[..|b| - 1], key);
    }
  }

  function Part(bag: TopicConnections, t: string): seq<ConnectionData> {
    if t in bag then bag[t] else []
  }

  /** The connections of topic t over all bags, in the order of the bags. */
  function Gather(bags: seq<TopicConnections>, t: string): seq<ConnectionData> {
    if bags == [] then [] else
      Gather(bags[..|bags| - 1], t) + Part(bags[|bags| - 1], t)
  }

  function AllTopics(bags: seq<TopicConnections>): set<string> {
    if bags == [] then {} else AllTopics(bags[..|bags| - 1]) + bags[|bags| - 1].Keys
  }

  function Without(bags: seq<TopicConnections>, i: nat): seq<TopicConnections>
    requires i < |bags|
  {
    bags[..i] + bags[i + 1..]
  }

  /** Taking one bag away takes exactly its part of every total away. */
  lemma {:induction false} GatherWithout(bags: seq<TopicConnections>, i: nat, t: string, key: ConnectionData)
    requires i < |bags|
    ensures ClassTotal(Gather(bags, t), key) ==
      ClassTotal(Gather(Without(bags, i), t), key) + ClassTotal(Part(bags[i], t), key)
    ensures Total(Gather(bags, t)) == Total(Gather(Without(bags, i), t)) + Total(Part(bags[i], t))
  {
    hide ClassTotal, Total;
    var n := |bags| - 1;
    ClassTotalConcat(Gather(bags[..n], t), Part(bags[n], t), key);
    if i < n {
      var rest := Without(bags, i);
      GatherWithout(bags[..n], i, t, key);
      assert rest[..n - 1] == Without(bags[..n], i) && rest[n - 1] == bags[n];
      ClassTotalConcat(Gather(rest[..n - 1], t), Part(bags[n], t), key);
    } else {
      assert Without(bags, i) == bags[..n];
    }
  }

  lemma WithoutRemovesOne(bags: seq<TopicConnections>, i: nat)
    requires i < |bags|
    ensures multiset(Without(bags, i)) == multiset(bags) - multiset{bags[i]}
  {
    assert bags == bags[..i] + [bags[i]] + bags[i + 1..];
  }

  lemma {:induction false} TotalsIgnoreBagOrder(a: seq<TopicConnections>, b: seq<TopicConnections>, t: string,
        key: ConnectionData)
    requires multiset(a) == multiset(b)
    ensures ClassTotal(Gather(a, t), key) == ClassTotal(Gather(b, t), key) && Total(Gather(a, t)) == Total(Gather(b, t))
    decreases |a|
  {
    hide ClassTotal, Total, Gather, Without;
    assert |multiset(a)| == |a| && |multiset(b)| == |b|;
    if a == [] {
      assert b == [];
    } else {
      assert a[0] in multiset(b);
      var i :| 0 <= i < |b| && b[i] == a[0];
      WithoutRemovesOne(a, 0);
      WithoutRemovesOne(b, i);
      assert |multiset(Without(a, 0))| == |Without(a, 0)|;
      TotalsIgnoreBagOrder(Without(a, 0), Without(b, i), t, key);
      GatherWithout(a, 0, t, key);
      GatherWithout(b, i, t, key);
    }
  }

  /** Adding the same bags in another order gives every topic the same total for every class of connections. */
  lemma GroupsIgnoreBagOrder(a: seq<TopicConnections>, b: seq<TopicConnections>, t: string, key: ConnectionData)
    requires multiset(a) == multiset(b)
    ensures ClassTotal(Group([], Gather(a, t)), key) == ClassTotal(Group([], Gather(b, t)), key)
    ensures Total(Group([], Gather(a, t))) == Total(Group([], Gather(b, t)))
  {
    TotalsIgnoreBagOrder(a, b, t, key);
    GroupMeaning(Gather(a, t), key);
    GroupMeaning(Gather(b, t), key);
  }

  /** std::find on connection data. */
  method Find(es: seq<ConnectionData>, c: ConnectionData) returns (n: nat)
    ensures n == FirstSame(es, c)
  {
    n := 0;
    while n < |es| && !es[n].Same(c)
      invariant n <= |es| && forall i :: 0 <= i < n ==> !es[i].Same(c)
    {
      n := n + 1;
    }
  }

  /** The innermost loop of View::connectionsByTopicMap. */
  method MergeInto(existing: seq<ConnectionData>, conns: seq<ConnectionData>) returns (r: seq<ConnectionData>)
    ensures r == Group(existing, conns)
  {
    r := existing;
    for i := 0 to |conns|
      invariant r == Group(existing, conns[..i])
    {
      assert conns[..i + 1][..i] == conns[..i];
      var n := Find(r, conns[i]);
      if n == |r| {
        r := r + [conns[i]];
      } else {
        r := r[n := r[n].(messageCount := r[n].messageCount + conns[i].messageCount)];
      }
    }
    assert conns[..|conns|] == conns;
  }

  /** The connections of one topic after one more bag. */
  function AfterBag(r: TopicConnections, bag: TopicConnections, t: string): seq<ConnectionData> {
    var existing := if t in r then r[t] else [];
    if t in bag then Group(existing, bag[t]) else existing
  }

  /** The loop over the topics of one bag, in any order. */
  method MergeBag(start: TopicConnections, bag: TopicConnections) returns (r: TopicConnections)
    ensures r == map t | t in start.Keys + bag.Keys :: AfterBag(start, bag, t)
  {
    hide Group;
    r := start;
    var todo := bag.Keys;
    while todo != {}
      invariant todo <= bag.Keys && r.Keys == start.Keys + (bag.Keys - todo)
      invariant forall t :: t in bag.Keys - todo ==> r[t] == AfterBag(start, bag, t)
      invariant forall t :: t in start && t !in bag.Keys - todo ==> r[t] == start[t]
    {
      var t :| t in todo;
      var merged := MergeInto(if t in r then r[t] else [], bag[t]);
      r := r[t := merged];
      todo := todo - {t};
    }
  }

  /** View::connectionsByTopicMap: the bags in order. */
  method ConnectionsByTopic(bags: seq<TopicConnections>) returns (r: TopicConnections)
    ensures r == map t | t in AllTopics(bags) :: Group([], Gather(bags, t))
  {
    r := map[];
    for b := 0 to |bags|
      invariant r == map t | t in AllTopics(bags[..b]) :: Group([], Gather(bags[..b], t))
    {
      assert bags[..b + 1][..b] == bags[..b];
      ghost var before := r;
      r := MergeBag(r, bags[b]);
      forall t | t in r
        ensures r[t] == Group([], Gather(bags[..b + 1], t))
      {
        AfterBagGroups(bags, b, before, t);
      }
    }
    assert bags[..|bags|] == bags;
  }

  lemma AfterBagGroups(bags: seq<TopicConnections>, b: nat, before: TopicConnections, t: string)
    requires b < |bags| && before == map t | t in AllTopics(bags[..b]) :: Group([], Gather(bags[..b], t))
    ensures AfterBag(before, bags[b], t) == Group([], Gather(bags[..b + 1], t))
  {
    assert bags[..b + 1][..b] == bags[..b];
    NothingGathered(bags[..b], t);
    var earlier := Gather(bags[..b], t);
    if t in bags[b] {
      GroupConcat([], earlier, bags[b][t]);
    } else {
      assert earlier + [] == earlier;
    }
  }

  lemma {:induction false} NothingGathered(bags: seq<TopicConnections>, t: string)
    ensures t !in AllTopics(bags) ==> Gather(bags, t) == []
  {
    if bags != [] {
      NothingGathered(bags[..|bags| - 1], t);
    }
  }
}
