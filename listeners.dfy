/** Values passed around by the client, and listeners modelled as recorded
    invocations. A listener is a handle plus whether invoking it throws. */
module Listeners {

  /** An octet of binary data. */
  newtype Byte = b: int | 0 <= b < 256

  /** A JavaScript value as far as the engine inspects it. `Binary` stands for
      an `ArrayBuffer`, `DataView` or `Blob`; `Structured` for any other
      object, identified by an opaque handle; `FrameRef` for a message frame
      passed to a handler, identified by its id. */
  datatype Value =
    | Undefined
    | Null
    | Bool(b: bool)
    | Num(n: int)
    | Str(s: string)
    | Structured(handle: nat)
    | Binary(bytes: seq<Byte>)
    | FrameRef(frameId: string)

  /** A registered callback. Two listeners are the same callback exactly when
      they are equal values (JavaScript's `===` on functions). */
  datatype Listener = Listener(handle: nat, fails: bool)

  /** One invocation of a listener with its arguments. */
  datatype Call = Call(listener: Listener, args: seq<Value>)

  /** What running a list of listeners did: the invocations, and whether an
      exception escaped. */
  datatype Outcome = Outcome(calls: seq<Call>, thrown: bool)

  /** Invoking listeners one after another with no exception handling: the
      first listener that throws ends the run and the exception propagates. */
  function Run(listeners: seq<Listener>, args: seq<Value>): Outcome
  {
    if listeners == [] then Outcome([], false)
    else if listeners[0].fails then Outcome([Call(listeners[0], args)], true)
    else
      var rest := Run(listeners[1..], args);
      Outcome([Call(listeners[0], args)] + rest.calls, rest.thrown)
  }

  /** A run invokes the listeners in order up to and including the first one
      that throws, and throws exactly when some listener throws. */
  lemma RunStopsAtFirstFailure(listeners: seq<Listener>, args: seq<Value>)
    ensures var r := Run(listeners, args);
      && |r.calls| <= |listeners|
      && (forall i :: 0 <= i < |r.calls| ==> r.calls[i] == Call(listeners[i], args))
      && (r.thrown <==> exists i :: 0 <= i < |listeners| && listeners[i].fails)
      && (!r.thrown ==> |r.calls| == |listeners|)
      && (r.thrown ==> 0 < |r.calls| && listeners[|r.calls| - 1].fails)
      && (forall i :: 0 <= i < |r.calls| - 1 ==> !listeners[i].fails)
  {
    RunCallsInOrder(listeners, args);
    RunThrowsIffSomeFails(listeners, args);
  }

  lemma {:induction false} RunCallsInOrder(listeners: seq<Listener>, args: seq<Value>)
    ensures var r := Run(listeners, args);
      && |r.calls| <= |listeners|
      && (forall i :: 0 <= i < |r.calls| ==> r.calls[i] == Call(listeners[i], args))
      && (!r.thrown ==> |r.calls| == |listeners|)
      && (r.thrown ==> 0 < |r.calls| && listeners[|r.calls| - 1].fails)
      && (forall i :: 0 <= i < |r.calls| - 1 ==> !listeners[i].fails)
  {
    if listeners != [] && !listeners[0].fails {
      var tail := listeners[1..];
      RunCallsInOrder(tail, args);
      var rest := Run(tail, args);
      var r := Run(listeners, args);
      assert r.calls == [Call(listeners[0], args)] + rest.calls && r.thrown == rest.thrown;
      forall i | 0 < i < |r.calls|
        ensures r.calls[i] == Call(listeners[i], args) && (i < |r.calls| - 1 ==> !listeners[i].fails)
      {
        assert r.calls[i] == rest.calls[i - 1] && tail[i - 1] == listeners[i];
      }
      if rest.thrown {
        assert listeners[|r.calls| - 1] == tail[|rest.calls| - 1];
      }
    }
  }

  lemma {:induction false} RunThrowsIffSomeFails(listeners: seq<Listener>, args: seq<Value>)
    ensures Run(listeners, args).thrown <==> exists i :: 0 <= i < |listeners| && listeners[i].fails
  {
    if listeners != [] && !listeners[0].fails {
      var tail := listeners[1..];
      RunThrowsIffSomeFails(tail, args);
      assert Run(listeners, args).thrown == Run(tail, args).thrown;
      if Run(tail, args).thrown {
        var i :| 0 <= i < |tail| && tail[i].fails;
        assert listeners[i + 1].fails;
      }
      forall i | 0 < i < |listeners| && listeners[i].fails
        ensures Run(tail, args).thrown
      {
        assert tail[i - 1].fails;
      }
    }
  }

  predicate NoneFail(ls: seq<Listener>)
  {
    forall i :: 0 <= i < |ls| ==> !ls[i].fails
  }

  /** The invocations of every listener of `ls`, in order. */
  function Calls(ls: seq<Listener>, args: seq<Value>): (r: seq<Call>)
    ensures |r| == |ls| && forall i :: 0 <= i < |ls| ==> r[i] == Call(ls[i], args)
  {
    if ls == [] then [] else [Call(ls[0], args)] + Calls(ls[1..], args)
  }

  /** A run throws exactly when some listener throws, and a run where none
      throws invokes every listener in order. */
  lemma {:induction false} RunWithoutFailure(ls: seq<Listener>, args: seq<Value>)
    ensures Run(ls, args).thrown <==> !NoneFail(ls)
    ensures NoneFail(ls) ==> Run(ls, args).calls == Calls(ls, args)
  {
    RunStopsAtFirstFailure(ls, args);
    if NoneFail(ls) {
      assert Run(ls, args).calls == Calls(ls, args);
    }
  }

  /** The invocations of a concatenation are the concatenated invocations. */
  lemma CallsAppend(a: seq<Listener>, b: seq<Listener>, args: seq<Value>)
    ensures Calls(a + b, args) == Calls(a, args) + Calls(b, args)
  {
    assert |Calls(a + b, args)| == |Calls(a, args) + Calls(b, args)|;
    forall i | 0 <= i < |a + b|
      ensures Calls(a + b, args)[i] == (Calls(a, args) + Calls(b, args))[i]
    {
      if i < |a| {
        assert (a + b)[i] == a[i];
      } else {
        assert (a + b)[i] == b[i - |a|];
      }
    }
  }

  /** Running `m` and then, as a `finally`, `fin`: every listener of `fin`
      is invoked when none of them throws, whatever `m` did; when nothing
      throws, `m` and then `fin` are invoked in full; the pair throws exactly
      when some listener of either list throws. */
  lemma {:induction false} SequentialRunsFinally(m: seq<Listener>, fin: seq<Listener>, args: seq<Value>)
    ensures NoneFail(fin) ==> forall i :: 0 <= i < |fin| ==> Call(fin[i], args) in Run(m, args).calls + Run(fin, args).calls
    ensures NoneFail(m) && NoneFail(fin) ==> Run(m, args).calls + Run(fin, args).calls == Calls(m + fin, args)
    ensures Run(m, args).thrown || Run(fin, args).thrown <==> !NoneFail(m) || !NoneFail(fin)
  {
    RunWithoutFailure(m, args);
    RunWithoutFailure(fin, args);
    var first := Run(m, args).calls;
    var calls := first + Run(fin, args).calls;
    if NoneFail(fin) {
      forall i | 0 <= i < |fin|
        ensures Call(fin[i], args) in calls
      {
        assert calls[|first| + i] == Calls(fin, args)[i];
      }
    }
    if NoneFail(m) && NoneFail(fin) {
      CallsAppend(m, fin, args);
    }
  }

  /** Running the concatenation of two lists: the second list only runs when
      the first did not throw. */
  lemma {:induction false} RunAppend(a: seq<Listener>, b: seq<Listener>, args: seq<Value>)
    ensures Run(a + b, args) ==
      if Run(a, args).thrown then Run(a, args)
      else Outcome(Run(a, args).calls + Run(b, args).calls, Run(b, args).thrown)
  {
    if a == [] {
      assert a + b == b;
    } else {
      assert (a + b)[0] == a[0];
      assert (a + b)[1..] == a[1..] + b;
      if !a[0].fails {
        RunAppend(a[1..], b, args);
      }
    }
  }

  /** The loop that invokes each listener in order (the body of
      `MessageFrame._handle` and of `MultiConsumer.consume`). */
  method Invoke(listeners: seq<Listener>, args: seq<Value>) returns (calls: seq<Call>, thrown: bool)
    ensures Outcome(calls, thrown) == Run(listeners, args)
  {
    calls, thrown := [], false;
    var i := 0;
    while i < |listeners|
      invariant 0 <= i <= |listeners|
      invariant Run(listeners, args).calls == calls + Run(listeners[i..], args).calls
      invariant Run(listeners, args).thrown == Run(listeners[i..], args).thrown
    {
      var rest := listeners[i..];
      assert rest[0] == listeners[i] && rest[1..] == listeners[i + 1..];
      calls := calls + [Call(listeners[i], args)];
      if listeners[i].fails {
        thrown := true;
        return;
      }
      i := i + 1;
    }
    assert listeners[i..] == [];
  }
}
