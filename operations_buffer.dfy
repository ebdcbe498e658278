/** An ordered list of pending operations (`OperationsBuffer`). Operations
    are compared by identity, as `indexOf` does. */
module Operations {
  import opened Listeners
  import opened Seqs

  /** `Array.prototype.splice(start, 1)`: a negative start counts from the
      end (clamped at 0), a start past the end removes nothing. */
  function SpliceOne<T>(s: seq<T>, start: int): seq<T>
  {
    var k := if start < 0 then (if |s| + start < 0 then 0 else |s| + start) else start;
    if k < |s| then RemoveAt(s, k) else s
  }

  /** Visiting each operation in order with one listener, stopping at the
      first invocation that throws. */
  function Visit(ops: seq<Value>, consumer: Listener): Outcome
  {
    if ops == [] then Outcome([], false)
    else if consumer.fails then Outcome([Call(consumer, [ops[0]])], true)
    else
      var rest := Visit(ops[1..], consumer);
      Outcome([Call(consumer, [ops[0]])] + rest.calls, rest.thrown)
  }

  class OperationsBuffer {
    var pending: seq<Value>

    constructor()
      ensures pending == []
    {
      pending := [];
    }

    /** `append`: the operation goes at the end. */
    method Append(operation: Value)
      modifies this
      ensures pending == old(pending) + [operation]
    {
      pending := pending + [operation];
    }

    /** `forEach`: the consumer is invoked on each operation in order. */
    method ForEach(consumer: Listener) returns (calls: seq<Call>, thrown: bool)
      ensures Outcome(calls, thrown) == Visit(pending, consumer)
    {
      calls, thrown := [], false;
      var i := 0;
      while i < |pending|
        invariant 0 <= i <= |pending|
        invariant Visit(pending, consumer).calls == calls + Visit(pending[i..], consumer).calls
        invariant Visit(pending, consumer).thrown == Visit(pending[i..], consumer).thrown
      {
        var rest := pending[i..];
        assert rest[0] == pending[i] && rest[1..] == pending[i + 1..];
        calls := calls + [Call(consumer, [pending[i]])];
        if consumer.fails {
          thrown := true;
          return;
        }
        i := i + 1;
      }
      assert pending[i..] == [];
    }

    /** `remove`: splices at whatever `indexOf` returns, including -1. */
    method Remove(operation: Value)
      modifies this
      ensures pending == SpliceOne(old(pending), IndexOf(old(pending), operation))
    {
      var index := IndexOf(pending, operation);
      pending := SpliceOne(pending, index);
    }

    /** `remove` with the guard the other registries use: an operation that
        is not buffered leaves the buffer as it was. */
    method RemoveGuarded(operation: Value)
      modifies this
      ensures pending == RemoveFirst(old(pending), operation)
    {
      var index := IndexOf(pending, operation);
      if index == -1 {
        return;
      }
      pending := RemoveAt(pending, index);
    }

    /** `clear`. */
    method Clear()
      modifies this
      ensures pending == []
    {
      pending := [];
    }
  }

  /** A consumer that does not throw sees every operation once, in order;
      one that throws sees only the first. */
  lemma {:induction false} VisitInOrder(ops: seq<Value>, consumer: Listener)
    ensures !consumer.fails ==> !Visit(ops, consumer).thrown && |Visit(ops, consumer).calls| == |ops|
    ensures !consumer.fails ==> forall i :: 0 <= i < |ops| ==> Visit(ops, consumer).calls[i] == Call(consumer, [ops[i]])
    ensures consumer.fails && ops != [] ==> Visit(ops, consumer) == Outcome([Call(consumer, [ops[0]])], true)
  {
    if ops != [] && !consumer.fails {
      VisitInOrder(ops[1..], consumer);
    }
  }

  /** `remove` of a present operation deletes its first occurrence only;
      of an absent one it deletes the last operation (`splice(-1, 1)`), and
      on an empty buffer it does nothing. */
  lemma RemoveCases(ops: seq<Value>, operation: Value)
    ensures operation in ops ==>
      var i := IndexOf(ops, operation);
      SpliceOne(ops, i) == ops[..i] + ops[i + 1..] && forall j :: 0 <= j < i ==> ops[j] != operation
    ensures operation !in ops && ops != [] ==> SpliceOne(ops, IndexOf(ops, operation)) == ops[..|ops| - 1]
    ensures ops == [] ==> SpliceOne(ops, IndexOf(ops, operation)) == []
  {
    if operation !in ops && ops != [] {
      assert ops[|ops| - 1 + 1..] == [];
    }
  }

  /** Counterexample: removing an operation that was never appended from
      the buffer [1, 2] drops 2. */
  lemma RemoveAbsentDropsLast()
    ensures SpliceOne([Num(1), Num(2)], IndexOf([Num(1), Num(2)], Num(3))) == [Num(1)]
  {
    RemoveCases([Num(1), Num(2)], Num(3));
  }

  /** The guarded removal deletes the first occurrence of a present
      operation, exactly as `remove` does, and leaves the buffer unchanged
      when the operation is absent. */
  lemma GuardedRemoveAgrees(ops: seq<Value>, operation: Value)
    ensures operation in ops ==> RemoveFirst(ops, operation) == SpliceOne(ops, IndexOf(ops, operation))
    ensures operation !in ops ==> RemoveFirst(ops, operation) == ops
  {
  }
}
