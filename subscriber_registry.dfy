/** The (topic, consumer) pairs a client is subscribed with
    (`SubscriberRegistry`). */
module Subscribers {
  import opened Wrappers
  import opened Listeners
  import opened Seqs
  import opened Configurations

  datatype Subscription = Subscription(topic: string, consumer: Listener)

  /** The exception `unsubscribe` raises as written. */
  datatype RegistryError = TypeError

  /** The topic of every pair, in order (`map(it => it.topic)`). */
  function Topics(h: seq<Subscription>): (r: seq<string>)
    ensures |r| == |h| && forall i :: 0 <= i < |h| ==> r[i] == h[i].topic
  {
    if h == [] then [] else [h[0].topic] + Topics(h[1..])
  }

  /** The consumers registered for `topic`, in registration order
      (`filter` then `map`). */
  function ConsumersFor(h: seq<Subscription>, topic: string): (r: seq<Listener>)
    ensures forall c :: c in r <==> Subscription(topic, c) in h
  {
    if h == [] then []
    else (if h[0].topic == topic then [h[0].consumer] else []) + ConsumersFor(h[1..], topic)
  }

  /** A later registration comes later in the list of consumers. */
  lemma {:induction false} ConsumersForAppend(h: seq<Subscription>, s: Subscription, topic: string)
    ensures ConsumersFor(h + [s], topic) == ConsumersFor(h, topic) + (if s.topic == topic then [s.consumer] else [])
  {
    if h == [] {
      assert h + [s] == [s];
    } else {
      assert (h + [s])[0] == h[0];
      assert (h + [s])[1..] == h[1..] + [s];
      ConsumersForAppend(h[1..], s, topic);
    }
  }

  /** What `getKnownTopics` is meant to return: each topic once, in order of
      its first registration. */
  function KnownTopics(h: seq<Subscription>): (r: seq<string>)
    ensures Distinct(r)
    ensures forall t :: t in r <==> t in Topics(h)
  {
    if h == [] then []
    else
      var prefix := h[..|h| - 1];
      TopicsSnoc(h);
      AppendNewProperties(KnownTopics(prefix), h[|h| - 1].topic);
      AppendNew(KnownTopics(prefix), h[|h| - 1].topic)
  }

  /** Each element of `r` first occurs in `t` before the next one does. */
  ghost predicate InFirstOccurrenceOrder(r: seq<string>, t: seq<string>)
  {
    forall i, j :: 0 <= i < j < |r| ==> IndexOf(t, r[i]) < IndexOf(t, r[j])
  }

  /** The known topics are ordered by first registration. */
  lemma {:induction false} KnownTopicsInFirstRegistrationOrder(h: seq<Subscription>)
    ensures InFirstOccurrenceOrder(KnownTopics(h), Topics(h))
  {
    if h != [] {
      var prefix := h[..|h| - 1];
      var last := h[|h| - 1].topic;
      KnownTopicsInFirstRegistrationOrder(prefix);
      TopicsSnoc(h);
      OrderStep(KnownTopics(prefix), Topics(prefix), last, KnownTopics(h), Topics(h));
    }
  }

  lemma TopicsSnoc(h: seq<Subscription>)
    requires h != []
    ensures Topics(h) == Topics(h[..|h| - 1]) + [h[|h| - 1].topic]
  {
    var prefix := h[..|h| - 1];
    var t := Topics(prefix) + [h[|h| - 1].topic];
    forall i | 0 <= i < |h|
      ensures Topics(h)[i] == t[i]
    {
      if i < |prefix| {
        assert t[i] == Topics(prefix)[i] == prefix[i].topic;
        assert prefix[i] == h[i];
      } else {
        assert i == |Topics(prefix)|;
        assert t[i] == h[|h| - 1].topic;
      }
    }
    assert |t| == |h|;
  }

  lemma OrderStep(k: seq<string>, tp: seq<string>, last: string, r: seq<string>, t: seq<string>)
    requires forall x :: x in k <==> x in tp
    requires InFirstOccurrenceOrder(k, tp)
    requires r == AppendNew(k, last) && t == tp + [last]
    ensures InFirstOccurrenceOrder(r, t)
  {
    forall i, j | 0 <= i < j < |r|
      ensures IndexOf(tp + [last], r[i]) < IndexOf(tp + [last], r[j])
    {
      assert r[i] == k[i] && k[i] in tp;
      IndexOfAppend(tp, last, r[i]);
      if j < |k| {
        assert r[j] == k[j] && k[j] in tp;
        IndexOfAppend(tp, last, r[j]);
      } else {
        assert r[j] == last && last !in tp;
        IndexOfAppend(tp, last, last);
      }
    }
  }

  lemma IndexOfAppend<T>(s: seq<T>, x: T, y: T)
    ensures y in s ==> IndexOf(s + [x], y) == IndexOf(s, y)
    ensures y !in s && y == x ==> IndexOf(s + [x], y) == |s|
  {
    var i := IndexOf(s + [x], y);
    if y in s {
      var j := IndexOf(s, y);
      assert (s + [x])[j] == y;
    }
  }

  /** Subscribing every pair in turn, each only once. */
  function SubscribeAll(h: seq<Subscription>, subs: seq<Subscription>): seq<Subscription>
  {
    if subs == [] then h else AppendNew(SubscribeAll(h, subs[..|subs| - 1]), subs[|subs| - 1])
  }

  lemma {:induction false} SubscribeAllProperties(h: seq<Subscription>, subs: seq<Subscription>)
    requires Distinct(h)
    ensures Distinct(SubscribeAll(h, subs))
    ensures forall s :: s in SubscribeAll(h, subs) <==> s in h || s in subs
  {
    if subs != [] {
      var prefix := subs[..|subs| - 1];
      SubscribeAllProperties(h, prefix);
      AppendNewProperties(SubscribeAll(h, prefix), subs[|subs| - 1]);
      assert subs == prefix + [subs[|subs| - 1]];
    }
  }

  /** Subscribing `a` and then `b` is subscribing `a + b`. */
  lemma {:induction false} SubscribeAllAppend(h: seq<Subscription>, a: seq<Subscription>, b: seq<Subscription>)
    ensures SubscribeAll(SubscribeAll(h, a), b) == SubscribeAll(h, a + b)
    decreases |b|
  {
    if b == [] {
      assert a + b == a;
    } else {
      var prefix := b[..|b| - 1];
      SubscribeAllAppend(h, a, prefix);
      assert (a + b)[..|a + b| - 1] == a + prefix;
    }
  }

  /** The pairs of a table of subscribers by topic, in table order. */
  function Pairs(table: SubscriberTable): seq<Subscription>
  {
    if table == [] then [] else PairsOf(table[0].0, table[0].1) + Pairs(table[1..])
  }

  function PairsOf(topic: string, consumers: seq<Listener>): (r: seq<Subscription>)
    ensures |r| == |consumers| && forall i :: 0 <= i < |consumers| ==> r[i] == Subscription(topic, consumers[i])
  {
    if consumers == [] then [] else [Subscription(topic, consumers[0])] + PairsOf(topic, consumers[1..])
  }

  /** Subscribing one more consumer of a topic appends its pair unless it
      is already there. */
  lemma SubscribeNext(h: seq<Subscription>, topic: string, consumers: seq<Listener>, j: nat)
    requires j < |consumers|
    ensures SubscribeAll(h, PairsOf(topic, consumers[..j + 1]))
      == AppendNew(SubscribeAll(h, PairsOf(topic, consumers[..j])), Subscription(topic, consumers[j]))
  {
    var done := PairsOf(topic, consumers[..j]);
    var next := PairsOf(topic, consumers[..j + 1]);
    assert next[..|next| - 1] == done;
  }

  lemma {:induction false} PairsAppend(table: SubscriberTable, entry: (string, seq<Listener>))
    ensures Pairs(table + [entry]) == Pairs(table) + PairsOf(entry.0, entry.1)
  {
    if table == [] {
      assert table + [entry] == [entry];
    } else {
      assert (table + [entry])[0] == table[0];
      assert (table + [entry])[1..] == table[1..] + [entry];
      PairsAppend(table[1..], entry);
    }
  }

  /** Seeding one more table entry subscribes each of its pairs in turn. */
  lemma SeedNext(table: SubscriberTable, i: nat)
    requires i < |table|
    ensures SubscribeAll([], Pairs(table[..i + 1]))
      == SubscribeAll(SubscribeAll([], Pairs(table[..i])), PairsOf(table[i].0, table[i].1))
  {
    assert table[..i + 1] == table[..i] + [table[i]];
    PairsAppend(table[..i], table[i]);
    SubscribeAllAppend([], Pairs(table[..i]), PairsOf(table[i].0, table[i].1));
  }

  /** Every pair of a configured table is registered, nothing else is, and
      no pair is registered twice. */
  lemma SeedingRegistersEveryPair(table: SubscriberTable)
    ensures Distinct(SubscribeAll([], Pairs(table)))
    ensures forall topic, c :: Subscription(topic, c) in SubscribeAll([], Pairs(table)) <==>
      exists k :: 0 <= k < |table| && table[k].0 == topic && c in table[k].1
  {
    SubscribeAllProperties([], Pairs(table));
    PairsMembership(table);
  }

  lemma {:induction false} PairsMembership(table: SubscriberTable)
    ensures forall topic, c :: Subscription(topic, c) in Pairs(table) <==>
      exists k :: 0 <= k < |table| && table[k].0 == topic && c in table[k].1
  {
    if table != [] {
      PairsMembership(table[1..]);
      forall topic, c
        ensures Subscription(topic, c) in Pairs(table) <==>
          exists k :: 0 <= k < |table| && table[k].0 == topic && c in table[k].1
      {
        var head := PairsOf(table[0].0, table[0].1);
        assert Subscription(topic, c) in head <==> table[0].0 == topic && c in table[0].1 by {
          if Subscription(topic, c) in head {
            var i :| 0 <= i < |head| && head[i] == Subscription(topic, c);
          }
          if table[0].0 == topic && c in table[0].1 {
            var i :| 0 <= i < |table[0].1| && table[0].1[i] == c;
            assert head[i] == Subscription(topic, c);
          }
        }
        if exists k :: 0 <= k < |table| && table[k].0 == topic && c in table[k].1 {
          var k :| 0 <= k < |table| && table[k].0 == topic && c in table[k].1;
          if k > 0 {
            assert table[1..][k - 1] == table[k];
          }
        }
        if exists k :: 0 <= k < |table[1..]| && table[1..][k].0 == topic && c in table[1..][k].1 {
          var k :| 0 <= k < |table[1..]| && table[1..][k].0 == topic && c in table[1..][k].1;
          assert table[k + 1] == table[1..][k];
        }
      }
    }
  }

  class SubscriberRegistry {
    var holder: seq<Subscription>

    /** No pair is registered twice. */
    ghost predicate Valid()
      reads this
    {
      Distinct(holder)
    }

    /** Registers every configured pair through `Subscribe`. */
    constructor(configuration: Configuration)
      ensures holder == SubscribeAll([], Pairs(configuration.subscribers))
      ensures Valid()
    {
      holder := [];
      new;
      var table := configuration.subscribers;
      var i := 0;
      while i < |table|
        invariant 0 <= i <= |table|
        invariant holder == SubscribeAll([], Pairs(table[..i]))
        invariant Valid()
      {
        SeedNext(table, i);
        SubscribeEach(table[i].0, table[i].1);
        i := i + 1;
      }
      assert table[..i] == table;
    }

    /** The inner loop of the constructor: every consumer of one topic, in
        order. */
    method SubscribeEach(topic: string, consumers: seq<Listener>)
      requires Valid()
      modifies this
      ensures holder == SubscribeAll(old(holder), PairsOf(topic, consumers))
      ensures Valid()
    {
      var j := 0;
      while j < |consumers|
        invariant 0 <= j <= |consumers|
        invariant holder == SubscribeAll(old(holder), PairsOf(topic, consumers[..j]))
        invariant Valid()
      {
        SubscribeNext(old(holder), topic, consumers, j);
        Subscribe(topic, consumers[j]);
        j := j + 1;
      }
      assert consumers[..j] == consumers;
    }

    /** `indexOf`: the position of the pair, or -1. */
    function IndexOf(topic: string, consumer: Listener): (i: int)
      reads this
      ensures -1 <= i < |holder|
      ensures i == -1 <==> Subscription(topic, consumer) !in holder
      ensures 0 <= i ==> holder[i] == Subscription(topic, consumer)
    {
      Seqs.IndexOf(holder, Subscription(topic, consumer))
    }

    /** `subscribersFor`: the consumers of `topic`, in registration order. */
    function SubscribersFor(topic: string): (r: seq<Listener>)
      reads this
      ensures forall c :: c in r <==> Subscription(topic, c) in holder
    {
      ConsumersFor(holder, topic)
    }

    /** `subscribe`: appends the pair unless it is already registered. */
    method Subscribe(topic: string, consumer: Listener)
      requires Valid()
      modifies this
      ensures holder == AppendNew(old(holder), Subscription(topic, consumer))
      ensures Valid()
    {
      AppendNewProperties(holder, Subscription(topic, consumer));
      if -1 < IndexOf(topic, consumer) {
        return;
      }
      holder := holder + [Subscription(topic, consumer)];
    }

    /** `unsubscribe` as written: it calls a `_indexOf` method the registry
        does not have, so it raises a `TypeError` before changing anything. */
    method UnsubscribeAsWritten(topic: string, consumer: Listener) returns (r: Result<(), RegistryError>)
      ensures r == Failure(TypeError)
    {
      r := Failure(TypeError);
    }

    /** `unsubscribe` with its lookup through `indexOf`: removes the pair
        when it is registered and nothing else. */
    method Unsubscribe(topic: string, consumer: Listener)
      requires Valid()
      modifies this
      ensures holder == RemoveFirst(old(holder), Subscription(topic, consumer))
      ensures Valid()
    {
      RemoveFirstProperties(holder, Subscription(topic, consumer));
      var index := IndexOf(topic, consumer);
      if -1 == index {
        return;
      }
      holder := RemoveAt(holder, index);
    }

    /** `getKnownTopics` as written: the `filter` runs to completion before
        `forEach` pushes anything, so its `indexOf` test always sees an empty
        list and every pair's topic is returned, duplicates included. */
    method GetKnownTopicsAsWritten() returns (knownTopics: seq<string>)
      ensures knownTopics == Topics(holder)
    {
      knownTopics := [];
      var mapped := Topics(holder);
      var unseen := (topic: string) => Seqs.IndexOf(knownTopics, topic) == -1;
      var filtered := Filter(mapped, unseen);
      FilterAllKept(mapped, unseen);
      var i := 0;
      while i < |filtered|
        invariant 0 <= i <= |filtered| && knownTopics == filtered[..i]
      {
        knownTopics := knownTopics + [filtered[i]];
        i := i + 1;
      }
      assert filtered[..i] == filtered;
    }

    /** `getKnownTopics` with the membership test made as each topic is
        pushed: each registered topic once, in first-registration order. */
    method GetKnownTopics() returns (knownTopics: seq<string>)
      ensures knownTopics == KnownTopics(holder)
    {
      knownTopics := [];
      var i := 0;
      while i < |holder|
        invariant 0 <= i <= |holder|
        invariant knownTopics == KnownTopics(holder[..i])
      {
        assert holder[..i + 1][..i] == holder[..i];
        if -1 == Seqs.IndexOf(knownTopics, holder[i].topic) {
          knownTopics := knownTopics + [holder[i].topic];
        }
        i := i + 1;
      }
      assert holder[..i] == holder;
    }
  }

  /** Counterexample: two consumers on topic "a" make the source report
      ["a", "a"], where each topic once is ["a"]. */
  lemma TopicsRepeatedAsWritten()
    ensures var h := [Subscription("a", Listener(1, false)), Subscription("a", Listener(2, false))];
      Topics(h) == ["a", "a"] && KnownTopics(h) == ["a"]
  {
    var h := [Subscription("a", Listener(1, false)), Subscription("a", Listener(2, false))];
    assert h[..1] == [h[0]];
    assert KnownTopics(h[..1]) == ["a"];
  }
}
