/** A deduplicated, ordered list of listeners invoked together
    (`MultiConsumer`). */
module MultiConsumers {
  import opened Listeners
  import opened Seqs

  class MultiConsumer {
    var consumers: seq<Listener>

    /** No listener is registered twice. */
    ghost predicate Valid()
      reads this
    {
      Distinct(consumers)
    }

    constructor()
      ensures consumers == [] && Valid()
    {
      consumers := [];
    }

    /** `consume`: every registered listener in registration order, stopping
        at the first one that throws. */
    method Consume(args: seq<Value>) returns (calls: seq<Call>, thrown: bool)
      ensures Outcome(calls, thrown) == Run(consumers, args)
    {
      calls, thrown := Invoke(consumers, args);
    }

    /** `add`: appends a listener that is not yet registered. */
    method Add(consumer: Listener)
      requires Valid()
      modifies this
      ensures consumers == AppendNew(old(consumers), consumer)
      ensures Valid()
    {
      AppendNewProperties(consumers, consumer);
      if IndexOf(consumers, consumer) != -1 {
        return;
      }
      consumers := consumers + [consumer];
    }

    /** `remove`: splices out the listener when it is registered. */
    method Remove(consumer: Listener)
      requires Valid()
      modifies this
      ensures consumers == RemoveFirst(old(consumers), consumer)
      ensures Valid()
    {
      RemoveFirstProperties(consumers, consumer);
      var index := IndexOf(consumers, consumer);
      if index == -1 {
        return;
      }
      consumers := RemoveAt(consumers, index);
    }
  }

  /** When no registered listener throws, `consume` invokes each of them
      exactly once, in registration order, with the same arguments. */
  lemma {:induction false} ConsumeInvokesEachOnce(consumers: seq<Listener>, args: seq<Value>)
    requires Distinct(consumers)
    ensures NoneFail(consumers) ==> !Run(consumers, args).thrown && Run(consumers, args).calls == Calls(consumers, args)
    ensures NoneFail(consumers) ==> forall i, j :: 0 <= i < j < |consumers| ==>
      Run(consumers, args).calls[i] != Run(consumers, args).calls[j]
  {
    RunWithoutFailure(consumers, args);
    if NoneFail(consumers) {
      var calls := Run(consumers, args).calls;
      forall i, j | 0 <= i < j < |consumers|
        ensures calls[i] != calls[j]
      {
        assert calls[i].listener == consumers[i] && calls[j].listener == consumers[j];
      }
    }
  }

  /** Adding the same listener twice is adding it once; after `remove` the
      listener is gone and every other listener keeps its place. */
  lemma AddRemoveProperties(consumers: seq<Listener>, c: Listener)
    requires Distinct(consumers)
    ensures AppendNew(AppendNew(consumers, c), c) == AppendNew(consumers, c)
    ensures c !in RemoveFirst(consumers, c)
    ensures RemoveFirst(consumers, c) == Without(consumers, [c])
    ensures c !in consumers ==> RemoveFirst(AppendNew(consumers, c), c) == consumers
  {
    AppendNewProperties(consumers, c);
    RemoveFirstProperties(consumers, c);
    if c !in consumers {
      var added := consumers + [c];
      assert IndexOf(added, c) == |consumers|;
      assert RemoveAt(added, |consumers|) == consumers;
    }
  }
}
