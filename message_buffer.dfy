/** The ordered collection of frames one client owns (`MessageBuffer`):
    filtered views over it, lookups by id and topic, removal policies and the
    deduplicating enqueue. */
module MessageBuffers {
  import opened Wrappers
  import opened Listeners
  import opened Seqs
  import opened MessageFrames

  // ---------------------------------------------------------------------------
  // Selection predicates on one frame
  // ---------------------------------------------------------------------------

  /** Selected by `forEachNotSent` and `allUnsent`: ready and not yet sent. */
  predicate Unsent(f: Frame)
  {
    f.sentAt.None? && f.isReady
  }

  /** Selected by `forEachWithLostTransport`: sent by a transport other than
      the current one, ready, and still handleable. */
  predicate LostTransport(f: Frame, transportId: string)
  {
    f.sentAt.Some? && f.transport != Some(transportId) && f.isReady && CanHandle(f)
  }

  predicate IsFinalizedFrame(f: Frame)
  {
    f.isFinalized
  }

  predicate IsCancelledFrame(f: Frame)
  {
    f.isCancelled
  }

  /** `removeOnlineOnly` tests a `_discardIfOffline` field that no frame ever
      receives; `true === undefined` is false, so no frame is selected. */
  predicate DiscardIfOffline(f: Frame)
  {
    false
  }

  predicate AcknowledgedNotification(f: Frame)
  {
    f.isNotification && f.acknowledgedAt.Some?
  }

  // ---------------------------------------------------------------------------
  // Sequences of frame objects
  // ---------------------------------------------------------------------------

  /** The snapshots of a sequence of frames. */
  function StatesOf(h: seq<MessageFrame>): (r: seq<Frame>)
    reads h
    ensures |r| == |h| && forall i :: 0 <= i < |h| ==> r[i] == h[i].State()
  {
    if h == [] then [] else [h[0].State()] + StatesOf(h[1..])
  }

  lemma StatesOfAppend(a: seq<MessageFrame>, b: seq<MessageFrame>)
    ensures StatesOf(a + b) == StatesOf(a) + StatesOf(b)
  {
    assert |StatesOf(a + b)| == |StatesOf(a) + StatesOf(b)|;
    forall i | 0 <= i < |a + b|
      ensures StatesOf(a + b)[i] == (StatesOf(a) + StatesOf(b))[i]
    {
      if i < |a| {
        assert (a + b)[i] == a[i];
      } else {
        assert (a + b)[i] == b[i - |a|];
      }
    }
  }

  predicate DistinctIds(h: seq<MessageFrame>)
  {
    forall i, j :: 0 <= i < j < |h| ==> h[i].id != h[j].id
  }

  /** The position of the first state with this id, or -1 (`find` by
      id). */
  function PositionOf(fs: seq<Frame>, id: string): (i: int)
    ensures -1 <= i < |fs|
    ensures i == -1 <==> forall k :: 0 <= k < |fs| ==> fs[k].id != id
    ensures 0 <= i ==> fs[i].id == id && forall k :: 0 <= k < i ==> fs[k].id != id
  {
    if fs == [] then -1
    else if fs[0].id == id then 0
    else
      var j := PositionOf(fs[1..], id);
      if j == -1 then -1 else j + 1
  }

  /** The first frame with an id sits where the first state with that id
      does. */
  lemma PositionOfFirst(h: seq<MessageFrame>, id: string, k: int)
    requires -1 <= k < |h|
    requires k == -1 ==> forall j :: 0 <= j < |h| ==> h[j].id != id
    requires 0 <= k ==> h[k].id == id && forall j :: 0 <= j < k ==> h[j].id != id
    ensures PositionOf(StatesOf(h), id) == k
  {
    var fs := StatesOf(h);
    assert forall j :: 0 <= j < |h| ==> fs[j].id == h[j].id;
  }

  /** The states of a list of frames of which only frame `i` may differ
      from `states`. */
  lemma StatesAgree(h: seq<MessageFrame>, states: seq<Frame>, i: nat)
    requires i < |h| == |states|
    requires forall k :: 0 <= k < |h| && k != i ==> h[k].State() == states[k]
    ensures StatesOf(h) == states[i := h[i].State()]
  {
    var l := StatesOf(h);
    assert forall k :: 0 <= k < |h| ==> l[k] == states[i := h[i].State()][k];
  }

  /** The frames of `h` whose state satisfies `keep`, in order (`filter`). */
  function Retain(h: seq<MessageFrame>, keep: Frame -> bool): (r: seq<MessageFrame>)
    reads h
    ensures |r| <= |h|
    ensures forall i :: 0 <= i < |r| ==> r[i] in h && keep(r[i].State())
    ensures forall i :: 0 <= i < |h| && keep(h[i].State()) ==> h[i] in r
  {
    if h == [] then []
    else (if keep(h[0].State()) then [h[0]] else []) + Retain(h[1..], keep)
  }

  /** The frames of `h` whose state does not satisfy `p`, in order. */
  function Drop(h: seq<MessageFrame>, p: Frame -> bool): (r: seq<MessageFrame>)
    reads h
    ensures |r| <= |h|
    ensures forall i :: 0 <= i < |r| ==> r[i] in h && !p(r[i].State())
    ensures forall i :: 0 <= i < |h| && !p(h[i].State()) ==> h[i] in r
  {
    if h == [] then []
    else (if p(h[0].State()) then [] else [h[0]]) + Drop(h[1..], p)
  }

  /** Selecting frame objects selects their snapshots, in the same order. */
  lemma {:induction false} RetainStates(h: seq<MessageFrame>, keep: Frame -> bool)
    ensures StatesOf(Retain(h, keep)) == Filter(StatesOf(h), keep)
  {
    if h != [] {
      RetainStates(h[1..], keep);
      StatesOfAppend(if keep(h[0].State()) then [h[0]] else [], Retain(h[1..], keep));
      assert StatesOf(h)[1..] == StatesOf(h[1..]);
    }
  }

  /** Frames that no step touched keep their snapshots. */
  twostate lemma StatesKept(h: seq<MessageFrame>)
    requires forall k :: 0 <= k < |h| ==> unchanged(h[k])
    ensures StatesOf(h) == old(StatesOf(h))
  {
    assert forall k :: 0 <= k < |h| ==> h[k].State() == old(h[k].State());
  }

  /** Dropping frame objects drops their snapshots, in the same order. */
  lemma {:induction false} DropStates(h: seq<MessageFrame>, p: Frame -> bool)
    ensures StatesOf(Drop(h, p)) == Reject(StatesOf(h), p)
  {
    if h != [] {
      DropStates(h[1..], p);
      StatesOfAppend(if p(h[0].State()) then [] else [h[0]], Drop(h[1..], p));
      assert StatesOf(h)[1..] == StatesOf(h[1..]);
    }
  }

  lemma {:induction false} RetainDistinctIds(h: seq<MessageFrame>, keep: Frame -> bool)
    requires DistinctIds(h)
    ensures DistinctIds(Retain(h, keep))
  {
    if h != [] {
      RetainDistinctIds(h[1..], keep);
      var rest := Retain(h[1..], keep);
      forall j | 0 <= j < |rest|
        ensures rest[j].id != h[0].id
      {
        var k :| 0 <= k < |h[1..]| && h[1..][k] == rest[j];
        assert h[k + 1] == rest[j];
      }
    }
  }

  lemma {:induction false} WithoutDistinctIds(h: seq<MessageFrame>, xs: seq<MessageFrame>)
    requires DistinctIds(h)
    ensures DistinctIds(Without(h, xs))
  {
    if h != [] {
      WithoutDistinctIds(h[1..], xs);
      var rest := Without(h[1..], xs);
      forall j | 0 <= j < |rest|
        ensures rest[j].id != h[0].id
      {
        var k :| 0 <= k < |h[1..]| && h[1..][k] == rest[j];
        assert h[k + 1] == rest[j];
      }
    }
  }

  /** Removing the frames a filter selected (the body of every `remove*`
      policy) leaves exactly the frames the filter rejects, in order. */
  lemma {:induction false} WithoutRetained(h: seq<MessageFrame>, p: Frame -> bool)
    requires Distinct(h)
    ensures Without(h, Retain(h, p)) == Drop(h, p)
  {
    if h != [] {
      var t := h[1..];
      assert h[0] !in t;
      WithoutRetained(t, p);
      var r := Retain(h, p);
      assert r == (if p(h[0].State()) then [h[0]] else []) + Retain(t, p);
      forall i | 0 <= i < |t|
        ensures t[i] in r <==> t[i] in Retain(t, p)
      {
        assert t[i] != h[0];
      }
      WithoutIrrelevant(t, r, Retain(t, p));
      assert h[0] in r <==> p(h[0].State());
    }
  }

  /** What the `remove*` policies leave: the frames the filter rejects, in
      order, with their snapshots. */
  lemma RemovalOutcome(h: seq<MessageFrame>, p: Frame -> bool)
    requires DistinctIds(h)
    ensures Without(h, Retain(h, p)) == Drop(h, p)
    ensures StatesOf(Without(h, Retain(h, p))) == Reject(StatesOf(h), p)
  {
    assert Distinct(h) by {
      forall i, j | 0 <= i < j < |h|
        ensures h[i] != h[j]
      {
        assert h[i].id != h[j].id;
      }
    }
    WithoutRetained(h, p);
    DropStates(h, p);
  }

  /** The offline policy selects no frame. */
  lemma {:induction false} RejectNothing(fs: seq<Frame>)
    ensures Reject(fs, DiscardIfOffline) == fs
  {
    if fs != [] {
      RejectNothing(fs[1..]);
    }
  }

  // ---------------------------------------------------------------------------
  // The buffer object
  // ---------------------------------------------------------------------------

  class MessageBuffer {
    var holder: seq<MessageFrame>

    /** Buffered frames have distinct ids (hence are distinct objects) and
        each satisfies the frame invariant. */
    ghost predicate Valid()
      reads this, holder
    {
      && DistinctIds(holder)
      && forall i :: 0 <= i < |holder| ==> holder[i].Valid()
    }

    constructor()
      ensures holder == [] && Valid()
    {
      holder := [];
    }

    function Size(): (n: nat)
      reads this
      ensures n == |holder|
    {
      |holder|
    }

    /** `allUnsent`, and the frames `forEachNotSent` visits: exactly the
        ready, unsent frames, in buffer order. */
    function AllUnsent(): (r: seq<MessageFrame>)
      reads this, holder
      ensures forall i :: 0 <= i < |r| ==> r[i] in holder
      ensures StatesOf(r) == Filter(StatesOf(holder), Unsent)
    {
      RetainStates(holder, Unsent);
      Retain(holder, Unsent)
    }

    /** The frames `forEachTimed` visits, with the response-timeout check
        `IsTimed`. */
    function Timed(now: int): (r: seq<MessageFrame>)
      reads this, holder
      ensures forall i :: 0 <= i < |r| ==> r[i] in holder
      ensures StatesOf(r) == Filter(StatesOf(holder), (f: Frame) => IsTimed(f, now))
    {
      RetainStates(holder, (f: Frame) => IsTimed(f, now));
      Retain(holder, (f: Frame) => IsTimed(f, now))
    }

    /** The frames `forEachAcknowledgedTimed` visits. */
    function AcknowledgedTimed(now: int): (r: seq<MessageFrame>)
      reads this, holder
      ensures forall i :: 0 <= i < |r| ==> r[i] in holder
      ensures StatesOf(r) == Filter(StatesOf(holder), (f: Frame) => IsAcknowledgedTimed(f, now))
    {
      RetainStates(holder, (f: Frame) => IsAcknowledgedTimed(f, now));
      Retain(holder, (f: Frame) => IsAcknowledgedTimed(f, now))
    }

    /** The frames `forEachWithLostTransport` visits for the transport with
        id `transportId`. */
    function WithLostTransport(transportId: string): (r: seq<MessageFrame>)
      reads this, holder
      ensures forall i :: 0 <= i < |r| ==> r[i] in holder
      ensures StatesOf(r) == Filter(StatesOf(holder), (f: Frame) => LostTransport(f, transportId))
    {
      RetainStates(holder, (f: Frame) => LostTransport(f, transportId));
      Retain(holder, (f: Frame) => LostTransport(f, transportId))
    }

    /** `frameWithId`: the first frame with this id, or none. */
    function FrameWithId(id: string): (r: Option<MessageFrame>)
      reads this
      ensures r.None? <==> forall i :: 0 <= i < |holder| ==> holder[i].id != id
      ensures r.Some? ==> exists i :: (0 <= i < |holder| && holder[i] == r.value && r.value.id == id
                                      && forall j :: 0 <= j < i ==> holder[j].id != id)
    {
      var i := FindIndex(holder, (f: MessageFrame) => f.id == id);
      if i == -1 then None else Some(holder[i])
    }

    /** `frameWithId` finds the frame at the position of the first state
        with the id. */
    lemma FrameWithIdAt(id: string)
      ensures var i := PositionOf(StatesOf(holder), id);
        && (FrameWithId(id).None? <==> i == -1)
        && (FrameWithId(id).Some? ==> i != -1 && holder[i] == FrameWithId(id).value)
    {
      var r := FrameWithId(id);
      if r.None? {
        PositionOfFirst(holder, id, -1);
      } else {
        var k :| 0 <= k < |holder| && holder[k] == r.value && r.value.id == id && forall j :: 0 <= j < k ==> holder[j].id != id;
        PositionOfFirst(holder, id, k);
      }
    }

    /** Applies an acknowledgement or a completion to frame `i`; no other
        frame changes. */
    method ApplyAt(f: MessageFrame, ghost i: nat, op: FrameOp) returns (calls: seq<Call>, thrown: bool)
      requires Valid() && i < |holder| && holder[i] == f && (op.DoAcknowledge? || op.DoComplete?)
      modifies f
      ensures Valid()
      ensures var s := Apply(old(f.State()), op);
        StatesOf(holder) == old(StatesOf(holder))[i := s.frame] && calls == s.calls && thrown == s.thrown
    {
      ghost var fs := StatesOf(holder);
      assert forall j :: 0 <= j < |holder| && j != i ==> holder[j] != f;
      calls, thrown := f.Respond(op);
      StatesAgree(holder, fs, i);
    }

    /** Applies an acknowledgement or a completion to the first buffered
        frame with the id, when there is one. */
    method ApplyToId(frameId: string, op: FrameOp) returns (found: bool, calls: seq<Call>, thrown: bool, ghost i: int)
      requires Valid() && (op.DoAcknowledge? || op.DoComplete?)
      modifies holder
      ensures Valid() && holder == old(holder)
      ensures i == PositionOf(old(StatesOf(holder)), frameId) && found == (i != -1)
      ensures i == -1 ==> StatesOf(holder) == old(StatesOf(holder)) && calls == [] && !thrown
      ensures i != -1 ==>
        var s := Apply(old(StatesOf(holder))[i], op);
        StatesOf(holder) == old(StatesOf(holder))[i := s.frame] && calls == s.calls && thrown == s.thrown
    {
      var r := FrameWithId(frameId);
      FrameWithIdAt(frameId);
      i := PositionOf(StatesOf(holder), frameId);
      if r.None? {
        return false, [], false, i;
      }
      assert StatesOf(holder)[i] == r.value.State();
      calls, thrown := ApplyAt(r.value, i, op);
      found := true;
    }

    /** `allForTopic` as written: `find`, so the first frame with the topic
        rather than all of them. `None` is a call without an argument, whose
        `undefined` equals no frame's topic. */
    function AllForTopic(topic: Option<string>): (r: Option<MessageFrame>)
      reads this
      ensures r.None? <==> forall i :: 0 <= i < |holder| ==> Some(holder[i].topic) != topic
      ensures r.Some? ==> exists i :: (0 <= i < |holder| && holder[i] == r.value && Some(r.value.topic) == topic
                                      && forall j :: 0 <= j < i ==> Some(holder[j].topic) != topic)
      ensures topic.None? ==> r.None?
    {
      var i := FindIndex(holder, (f: MessageFrame) => Some(f.topic) == topic);
      if i == -1 then None else Some(holder[i])
    }

    /** `hasForTopic`: whether some buffered frame has the topic. */
    function HasForTopic(topic: string): (b: bool)
      reads this
      ensures b <==> exists i :: 0 <= i < |holder| && holder[i].topic == topic
    {
      AllForTopic(Some(topic)).Some?
    }

    /** What `allForTopic` is documented to return: every buffered frame
        with the topic, in buffer order. */
    function FramesForTopic(topic: string): (r: seq<MessageFrame>)
      reads this
      ensures forall i :: 0 <= i < |r| ==> r[i] in holder && r[i].topic == topic
      ensures forall i :: 0 <= i < |holder| && holder[i].topic == topic ==> holder[i] in r
    {
      Filter(holder, (f: MessageFrame) => f.topic == topic)
    }

    /** `removeFrames`: each listed frame that is present is spliced out;
        absent ones are skipped. Only the array changes: no frame is
        touched and no handler runs. */
    method RemoveFrames(frames: seq<MessageFrame>)
      requires Valid()
      modifies this
      ensures holder == Without(old(holder), frames)
      ensures Valid()
    {
      ghost var h0 := holder;
      assert Distinct(h0) by {
        forall i, j | 0 <= i < j < |h0|
          ensures h0[i] != h0[j]
        {
          assert h0[i].id != h0[j].id;
        }
      }
      WithoutNothing(h0);
      assert frames[..0] == [];
      var i := 0;
      while i < |frames|
        invariant 0 <= i <= |frames|
        invariant holder == Without(h0, frames[..i])
      {
        WithoutDistinct(h0, frames[..i]);
        assert frames[..i + 1] == frames[..i] + [frames[i]];
        WithoutSnoc(h0, frames[..i], frames[i]);
        var index := IndexOf(holder, frames[i]);
        if index == -1 {
          WithoutAbsent(holder, frames[i]);
        } else {
          RemoveAtIsWithout(holder, index);
          holder := RemoveAt(holder, index);
        }
        i := i + 1;
      }
      assert frames[..i] == frames;
      WithoutDistinctIds(h0, frames);
    }

    /** The shared body of the `remove*` policies: filter the holder by `p`,
        then remove what the filter selected. What is left are frames that
        were buffered before, and their snapshots are those `p` rejects. */
    method RemoveWhere(p: Frame -> bool)
      requires Valid()
      modifies this
      ensures forall k :: 0 <= k < |holder| ==> holder[k] in old(holder)
      ensures StatesOf(holder) == Reject(old(StatesOf(holder)), p)
      ensures Valid()
    {
      var toRemove := Retain(holder, p);
      RemovalOutcome(holder, p);
      RemoveFrames(toRemove);
      StatesKept(holder);
    }

    method RemoveFinalized()
      requires Valid()
      modifies this
      ensures forall k :: 0 <= k < |holder| ==> holder[k] in old(holder)
      ensures StatesOf(holder) == Reject(old(StatesOf(holder)), IsFinalizedFrame)
      ensures Valid()
    {
      RemoveWhere(IsFinalizedFrame);
    }

    method RemoveCancelled()
      requires Valid()
      modifies this
      ensures forall k :: 0 <= k < |holder| ==> holder[k] in old(holder)
      ensures StatesOf(holder) == Reject(old(StatesOf(holder)), IsCancelledFrame)
      ensures Valid()
    {
      RemoveWhere(IsCancelledFrame);
    }

    /** Selects no frame, so every snapshot stays as it was. */
    method RemoveOnlineOnly()
      requires Valid()
      modifies this
      ensures forall k :: 0 <= k < |holder| ==> holder[k] in old(holder)
      ensures StatesOf(holder) == old(StatesOf(holder))
      ensures Valid()
    {
      RemoveWhere(DiscardIfOffline);
      RejectNothing(old(StatesOf(holder)));
    }

    method RemoveAcknowledgedNotifications()
      requires Valid()
      modifies this
      ensures forall k :: 0 <= k < |holder| ==> holder[k] in old(holder)
      ensures StatesOf(holder) == Reject(old(StatesOf(holder)), AcknowledgedNotification)
      ensures Valid()
    {
      RemoveWhere(AcknowledgedNotification);
    }

    /** `_enqueue` as written. It looks up `frame.id`, a property frames do
        not have (the id is stored under another name), so the key is
        `undefined`, which equals no frame id: the frame is always appended. */
    method EnqueueAsWritten(frame: MessageFrame)
      modifies this
      ensures holder == old(holder) + [frame]
    {
      var key := Undefined;
      var i := FindIndex(holder, (f: MessageFrame) => Str(f.id) == key);
      if i != -1 {
        return;
      }
      holder := holder + [frame];
    }

    /** `_enqueue` with the duplicate guard looking up the frame's id: a
        frame whose id is already buffered is ignored, any other is appended
        at the end, and the buffer stays valid. */
    method Enqueue(frame: MessageFrame)
      requires Valid() && frame.Valid()
      modifies this
      ensures (exists i :: 0 <= i < |old(holder)| && old(holder)[i].id == frame.id) ==> holder == old(holder)
      ensures (forall i :: 0 <= i < |old(holder)| ==> old(holder)[i].id != frame.id) ==> holder == old(holder) + [frame]
      ensures Valid()
    {
      if FrameWithId(frame.id).Some? {
        return;
      }
      holder := holder + [frame];
    }
  }

  /** Counterexample for `_enqueue` as written: two frames with the same id
      are both buffered, which breaks the distinct-id invariant. */
  method DuplicateEnqueuedAsWritten() returns (b: MessageBuffer)
    ensures |b.holder| == 2 && b.holder[0].id == b.holder[1].id && !b.Valid()
  {
    b := new MessageBuffer();
    var first := new MessageFrame("m", "t", 0);
    var second := new MessageFrame("m", "t", 0);
    b.EnqueueAsWritten(first);
    b.EnqueueAsWritten(second);
  }

  /** The same two frames through the corrected guard: the second is
      ignored. */
  method DuplicateIgnored() returns (b: MessageBuffer)
    ensures |b.holder| == 1 && b.Valid()
  {
    b := new MessageBuffer();
    var first := new MessageFrame("m", "t", 0);
    var second := new MessageFrame("m", "t", 0);
    b.Enqueue(first);
    assert b.holder[0].id == second.id;
    b.Enqueue(second);
  }

  /** `hasForTopic` and the documented `allForTopic` agree, and `find`
      returns the head of the documented list. */
  lemma TopicLookupsAgree(b: MessageBuffer, topic: string)
    ensures b.HasForTopic(topic) <==> b.FramesForTopic(topic) != []
    ensures b.HasForTopic(topic) ==> b.AllForTopic(Some(topic)) == Some(b.FramesForTopic(topic)[0])
  {
    var p := (f: MessageFrame) => f.topic == topic;
    FindIndexIsFilterHead(b.holder, p);
    var q := (f: MessageFrame) => Some(f.topic) == Some(topic);
    assert forall i :: 0 <= i < |b.holder| ==> (p(b.holder[i]) <==> q(b.holder[i]));
    assert FindIndex(b.holder, p) == FindIndex(b.holder, q) by {
      FindIndexSame(b.holder, p, q);
    }
  }

  lemma {:induction false} FindIndexSame<T>(s: seq<T>, p: T -> bool, q: T -> bool)
    requires forall i :: 0 <= i < |s| ==> (p(s[i]) <==> q(s[i]))
    ensures FindIndex(s, p) == FindIndex(s, q)
  {
    if s != [] {
      FindIndexSame(s[1..], p, q);
    }
  }
}
