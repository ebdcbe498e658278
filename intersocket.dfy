/** The client (`Intersocket`): it owns the buffer of frames, the subscriber
    registry and the current transport, drives the periodic reconciliation,
    tracks the connection state, and reacts to what the transport reports.
    Every consumer the application registers on the client is represented by
    the log of the events the client emits to them. */
module Client {
  import opened Wrappers
  import opened Listeners
  import opened Seqs
  import opened MessageFrames
  import opened MessageBuffers
  import opened Envelope
  import opened Configurations
  import opened Reconciliation
  import Transports
  import Subscribers

  /** The client's connection state, `'new'` to `'reconnecting_failed'`. */
  datatype ConnectionState = New | Open | Ready | Closed | Reconnecting | ReconnectingFailed

  /** The fields of a handshake reply the client reads. */
  datatype Handshake = Handshake(platform: Value, ident: Value)

  /** The exceptions a handler raises as written. */
  datatype JsError = TypeError | ReferenceError

  /** What the client hands to the consumers registered with it, one
      constructor per consumer list, with the arguments they receive. */
  datatype ClientEvent =
    | StateChanged(newState: ConnectionState, oldState: ConnectionState)
    | LostMessageResponse(id: string, payload: Value, event: Value)
    | LostAcknowledged(id: string, event: Value)
    | MessageRescheduled(frameId: string)
    | Acknowledged(id: string, frameId: string, event: Value)
    | HandshakeReceived(handshake: Handshake, event: Value)
    | MessageErrorResponse(frame: Option<string>, id: string, payload: Value, event: Value)
    | TransportOpened(event: Value)
    | TransportClosed(event: Value)
    | SocketMessage(event: Value)
    | SocketError(event: Value)
    | ServerError(payload: Value, event: Value)
    | BinaryMessageReceived(event: Value)
    | BinaryAttachmentReceived(id: string, attachment: seq<Byte>, event: Value)
    | ForeignProtocolReceived(event: Value)
    | UnknownMessageType(event: Value)
    | PlatformChanged(platformVersion: Value, previous: Value, event: Value)
    | IdentChanged(ident: Value, previous: Value, event: Value)
    | LostBroadcast(topic: string, broadcast: Value, event: Value)

  /** The event the rescheduling pass emits for each frame, in order. */
  function RescheduledEvents(ids: seq<string>): (r: seq<ClientEvent>)
    ensures |r| == |ids| && forall i :: 0 <= i < |ids| ==> r[i] == MessageRescheduled(ids[i])
  {
    if ids == [] then [] else [MessageRescheduled(ids[0])] + RescheduledEvents(ids[1..])
  }

  lemma {:induction false} RescheduledEventsAppend(a: seq<string>, b: seq<string>)
    ensures RescheduledEvents(a + b) == RescheduledEvents(a) + RescheduledEvents(b)
  {
    if a == [] {
      assert a + b == b;
    } else {
      assert (a + b)[1..] == a[1..] + b;
      RescheduledEventsAppend(a[1..], b);
    }
  }

  lemma ConcatAssociates<T>(a: seq<T>, b: seq<T>, c: seq<T>)
    ensures (a + b) + c == a + (b + c)
  {
  }

  /** The events emitted so far, oldest first. */
  class EventLog {
    var events: seq<ClientEvent>

    constructor()
      ensures events == []
    {
      events := [];
    }

    method Emit(e: ClientEvent)
      modifies this
      ensures events == old(events) + [e]
    {
      events := events + [e];
    }
  }

  /** What `ifNoPending` hands to its consumers: nothing on a disposed
      client, the pending frames to `onExists`, or a new frame to the frame
      consumer. */
  datatype Pending<T> = Skipped | Found(existing: T) | Created(frame: MessageFrame)

  /** Some frame of `h` has this id. */
  predicate HoldsId(h: seq<MessageFrame>, id: string)
  {
    exists i :: 0 <= i < |h| && h[i].id == id
  }

  /** The event `_setState` emits: one exactly when the state changes. */
  function StateEvents(previous: ConnectionState, next: ConnectionState): (r: seq<ClientEvent>)
  {
    if previous == next then [] else [StateChanged(next, previous)]
  }

  /** The events the client hands to its consumers when it relays what the
      transport reported without acting on it. */
  predicate Relayed(e: ClientEvent)
  {
    e.SocketMessage? || e.SocketError? || e.ServerError? || e.BinaryMessageReceived?
    || e.ForeignProtocolReceived? || e.UnknownMessageType?
  }

  /** The subscribers a broadcast has, in order, whose invocation throws. */
  function Failing(ls: seq<Listener>): (r: seq<Listener>)
    ensures forall i :: 0 <= i < |r| ==> r[i] in ls && r[i].fails
    ensures forall i :: 0 <= i < |ls| && ls[i].fails ==> ls[i] in r
  {
    if ls == [] then [] else Failing(ls[..|ls| - 1]) + (if ls[|ls| - 1].fails then [ls[|ls| - 1]] else [])
  }

  /** The broadcast loop: every subscriber is invoked, in order, whether or
      not an earlier one threw, and the exceptions are collected. */
  method FanOut(subscribers: seq<Listener>, args: seq<Value>) returns (calls: seq<Call>, errors: seq<Listener>)
    ensures calls == Calls(subscribers, args)
    ensures errors == Failing(subscribers)
  {
    calls, errors := [], [];
    var i := 0;
    while i < |subscribers|
      invariant 0 <= i <= |subscribers|
      invariant |calls| == i && forall j :: 0 <= j < i ==> calls[j] == Call(subscribers[j], args)
      invariant errors == Failing(subscribers[..i])
    {
      assert subscribers[..i + 1][..i] == subscribers[..i];
      calls := calls + [Call(subscribers[i], args)];
      if subscribers[i].fails {
        errors := errors + [subscribers[i]];
      }
      i := i + 1;
    }
    assert subscribers[..i] == subscribers;
  }

  /** Unlike a consumer list, which stops at the first listener that
      throws, the broadcast loop reaches every subscriber; it reports no
      error exactly when no subscriber throws, and then the two agree. */
  lemma FanOutReachesEveryone(subscribers: seq<Listener>, args: seq<Value>)
    ensures |Calls(subscribers, args)| == |subscribers|
    ensures Failing(subscribers) == [] <==> NoneFail(subscribers)
    ensures NoneFail(subscribers) ==> Run(subscribers, args).calls == Calls(subscribers, args)
    ensures !NoneFail(subscribers) ==> |Run(subscribers, args).calls| <= |Calls(subscribers, args)|
  {
    RunWithoutFailure(subscribers, args);
    RunStopsAtFirstFailure(subscribers, args);
    if !NoneFail(subscribers) {
      var i :| 0 <= i < |subscribers| && subscribers[i].fails;
      assert subscribers[i] in Failing(subscribers);
    }
    if Failing(subscribers) != [] {
      var x := Failing(subscribers)[0];
      assert x in subscribers && x.fails;
      var i :| 0 <= i < |subscribers| && subscribers[i] == x;
    }
  }

  /** A visit of the buffer glued after a prefix already visited. */
  function Glue(frames: seq<Frame>, calls: seq<Call>, sent: seq<Outgoing>, rescheduled: seq<string>, rest: Pass): Pass
  {
    Pass(frames + rest.frames, calls + rest.calls, sent + rest.sent, rescheduled + rest.rescheduled, rest.thrown)
  }

  /** What visiting one frame in a pass does, selected or not. */
  function Visited(sw: Sweep, f: Frame, now: int, transportId: string): Effect
  {
    if Selected(sw, f, now, transportId) then Touch(sw, f, now, transportId) else Effect(f, [], [], [], false)
  }

  /** The visit of each frame of `fs` on its own. */
  function Visits(sw: Sweep, fs: seq<Frame>, now: int, transportId: string): (es: seq<Effect>)
    ensures |es| == |fs| && forall k :: 0 <= k < |fs| ==> es[k] == Visited(sw, fs[k], now, transportId)
  {
    if fs == [] then [] else [Visited(sw, fs[0], now, transportId)] + Visits(sw, fs[1..], now, transportId)
  }

  /** A pass put together from the visits of its frames: it stops at the
      first visit that throws. */
  function Combine(fs: seq<Frame>, es: seq<Effect>): Pass
    requires |fs| == |es|
  {
    if fs == [] then Pass([], [], [], [], false)
    else if es[0].thrown then Pass([es[0].frame] + fs[1..], es[0].calls, es[0].sent, es[0].rescheduled, true)
    else Glue([es[0].frame], es[0].calls, es[0].sent, es[0].rescheduled, Combine(fs[1..], es[1..]))
  }

  /** A pass is its frames' visits put together. */
  lemma {:induction false} SweepIsCombine(sw: Sweep, fs: seq<Frame>, now: int, transportId: string)
    ensures SweepAll(sw, fs, now, transportId) == Combine(fs, Visits(sw, fs, now, transportId))
  {
    if fs != [] {
      SweepIsCombine(sw, fs[1..], now, transportId);
      var rest := SweepAll(sw, fs[1..], now, transportId);
      assert [] + rest.calls == rest.calls && [] + rest.sent == rest.sent && [] + rest.rescheduled == rest.rescheduled;
    }
  }

  /** The pass over `fs` is the recorded visit of `fs[..i]` followed by
      the pass over the rest. */
  ghost predicate Resumes(fs: seq<Frame>, es: seq<Effect>, i: nat,
                          done: seq<Frame>, calls: seq<Call>, sent: seq<Outgoing>, rescheduled: seq<string>)
  {
    |fs| == |es| && i <= |fs| && Combine(fs, es) == Glue(done, calls, sent, rescheduled, Combine(fs[i..], es[i..]))
  }

  /** The pass over `fs` threw while visiting `fs[i - 1]`. */
  ghost predicate Stopped(fs: seq<Frame>, es: seq<Effect>, i: nat,
                          done: seq<Frame>, calls: seq<Call>, sent: seq<Outgoing>, rescheduled: seq<string>)
  {
    |fs| == |es| && i <= |fs| && Combine(fs, es) == Pass(done + fs[i..], calls, sent, rescheduled, true)
  }

  lemma ResumesFromStart(fs: seq<Frame>, es: seq<Effect>)
    requires |fs| == |es|
    ensures Resumes(fs, es, 0, [], [], [], [])
  {
    assert fs[0..] == fs && es[0..] == es;
    var p := Combine(fs, es);
    assert [] + p.frames == p.frames && [] + p.calls == p.calls && [] + p.sent == p.sent && [] + p.rescheduled == p.rescheduled;
  }

  lemma ResumesAtEnd(fs: seq<Frame>, es: seq<Effect>,
                     done: seq<Frame>, calls: seq<Call>, sent: seq<Outgoing>, rescheduled: seq<string>)
    requires Resumes(fs, es, |fs|, done, calls, sent, rescheduled)
    ensures Combine(fs, es) == Pass(done + fs[|fs|..], calls, sent, rescheduled, false)
  {
    assert fs[|fs|..] == [] && es[|es|..] == [];
    assert done + [] == done && calls + [] == calls && sent + [] == sent && rescheduled + [] == rescheduled;
  }

  /** Gluing a prefix onto a pass already glued onto one frame. */
  lemma GlueGlue(frames: seq<Frame>, calls: seq<Call>, sent: seq<Outgoing>, rescheduled: seq<string>, e: Effect, rest: Pass)
    ensures Glue(frames, calls, sent, rescheduled, Glue([e.frame], e.calls, e.sent, e.rescheduled, rest)) ==
      Glue(frames + [e.frame], calls + e.calls, sent + e.sent, rescheduled + e.rescheduled, rest)
  {
    assert frames + ([e.frame] + rest.frames) == (frames + [e.frame]) + rest.frames;
    assert calls + (e.calls + rest.calls) == (calls + e.calls) + rest.calls;
    assert sent + (e.sent + rest.sent) == (sent + e.sent) + rest.sent;
    assert rescheduled + (e.rescheduled + rest.rescheduled) == (rescheduled + e.rescheduled) + rest.rescheduled;
  }

  /** A recorded visit extended by the visit of the next frame. */
  lemma Resumed(fs: seq<Frame>, es: seq<Effect>, i: nat,
                done: seq<Frame>, calls: seq<Call>, sent: seq<Outgoing>, rescheduled: seq<string>)
    requires i < |fs| && Resumes(fs, es, i, done, calls, sent, rescheduled)
    ensures var e := es[i];
      && (!e.thrown ==> Resumes(fs, es, i + 1, done + [e.frame], calls + e.calls, sent + e.sent, rescheduled + e.rescheduled))
      && (e.thrown ==> Stopped(fs, es, i + 1, done + [e.frame], calls + e.calls, sent + e.sent, rescheduled + e.rescheduled))
  {
    var e := es[i];
    assert fs[i..][0] == fs[i] && fs[i..][1..] == fs[i + 1..];
    assert es[i..][0] == es[i] && es[i..][1..] == es[i + 1..];
    GlueGlue(done, calls, sent, rescheduled, e, Combine(fs[i + 1..], es[i + 1..]));
    ConcatAssociates(done, [e.frame], fs[i + 1..]);
  }

  lemma SpliceValid(done: seq<Frame>, fs: seq<Frame>, i: nat)
    requires i <= |fs|
    requires forall k :: 0 <= k < |done| ==> FrameValid(done[k])
    requires forall k :: 0 <= k < |fs| ==> FrameValid(fs[k])
    ensures forall k :: 0 <= k < |done + fs[i..]| ==> FrameValid((done + fs[i..])[k])
  {
    forall k | 0 <= k < |done + fs[i..]|
      ensures FrameValid((done + fs[i..])[k])
    {
      if k >= |done| {
        assert (done + fs[i..])[k] == fs[i + k - |done|];
      }
    }
  }

  lemma FramesValid(h: seq<MessageFrame>, states: seq<Frame>)
    requires StatesOf(h) == states
    requires forall k :: 0 <= k < |states| ==> FrameValid(states[k])
    ensures forall k :: 0 <= k < |h| ==> h[k].Valid()
  {
    forall k | 0 <= k < |h|
      ensures h[k].Valid()
    {
      assert h[k].State() == states[k];
    }
  }

  /** Replacing the first frame not yet visited. */
  lemma ReplaceAt(done: seq<Frame>, fs: seq<Frame>, x: Frame)
    requires |done| < |fs|
    ensures (done + fs[|done|..])[|done| := x] == (done + [x]) + fs[|done| + 1..]
  {
    var i := |done|;
    var l := (done + fs[i..])[i := x];
    var r := (done + [x]) + fs[i + 1..];
    assert |l| == |r|;
    forall k | 0 <= k < |l|
      ensures l[k] == r[k]
    {
      if k > i {
        assert l[k] == fs[k] && r[k] == fs[k];
      }
    }
  }

  class Intersocket {
    const id: string
    const configuration: Configuration
    const buffer: MessageBuffer
    const subscribers: Subscribers.SubscriberRegistry
    /** Stands for the client's consumer lists. */
    const log: EventLog
    var transport: Transports.SocketTransport
    var isDisposed: bool
    var state: ConnectionState
    var ident: Value
    var platformVersion: Value
    /** Reconnect timers started by `_onTransportClosed` that have not yet
        fired. */
    var pendingReconnects: nat

    ghost predicate Valid()
      reads this, buffer, buffer.holder, subscribers
    {
      buffer.Valid() && subscribers.Valid()
    }

    /** A new client: the options with their defaults, an empty buffer, the
        configured subscribers, and a transport that is still connecting. */
    constructor(options: Options, id: string, transportId: string)
      ensures this.id == id && configuration == Configure(options)
      ensures fresh(buffer) && buffer.holder == []
      ensures fresh(subscribers) && subscribers.holder == Subscribers.SubscribeAll([], Subscribers.Pairs(configuration.subscribers))
      ensures fresh(transport) && transport.id == transportId && !transport.IsReady() && transport.outbox == []
      ensures fresh(log) && log.events == []
      ensures !isDisposed && state == New && ident == Null && platformVersion == Null && pendingReconnects == 0
      ensures Valid()
    {
      this.id := id;
      configuration := Configure(options);
      buffer := new MessageBuffer();
      subscribers := new Subscribers.SubscriberRegistry(Configure(options));
      transport := new Transports.SocketTransport(transportId);
      log := new EventLog();
      isDisposed := false;
      state := New;
      ident, platformVersion := Null, Null;
      pendingReconnects := 0;
    }

    /** `createFrame`: nothing on a disposed client; otherwise a new frame
        with the topic, enqueued. */
    method CreateFrame(frameId: string, topic: string, now: int) returns (r: Option<MessageFrame>)
      requires Valid()
      modifies buffer
      ensures Valid()
      ensures old(isDisposed) ==> r.None? && buffer.holder == old(buffer.holder)
      ensures !old(isDisposed) ==>
        && r.Some? && fresh(r.value) && r.value.State() == NewFrame(frameId, topic, now)
        && buffer.holder == if HoldsId(old(buffer.holder), frameId) then old(buffer.holder) else old(buffer.holder) + [r.value]
    {
      if isDisposed {
        return None;
      }
      var frame := new MessageFrame(frameId, topic, now);
      buffer.Enqueue(frame);
      r := Some(frame);
    }

    /** `ifNoPending` as written: `allForTopic()` is called without the
        topic, so `onExists` always receives no frame. */
    method IfNoPendingAsWritten(topic: string, frameId: string, now: int) returns (r: Pending<Option<MessageFrame>>)
      requires Valid()
      modifies buffer
      ensures Valid()
      ensures old(isDisposed) ==> r.Skipped? && buffer.holder == old(buffer.holder)
      ensures !old(isDisposed) && old(buffer.HasForTopic(topic)) ==> r == Found(None) && buffer.holder == old(buffer.holder)
      ensures !old(isDisposed) && !old(buffer.HasForTopic(topic)) ==>
        && r.Created? && fresh(r.frame) && r.frame.State() == NewFrame(frameId, topic, now)
        && buffer.holder == if HoldsId(old(buffer.holder), frameId) then old(buffer.holder) else old(buffer.holder) + [r.frame]
    {
      if isDisposed {
        return Skipped;
      }
      if buffer.HasForTopic(topic) {
        return Found(buffer.AllForTopic(None));
      }
      var created := CreateFrame(frameId, topic, now);
      r := Created(created.value);
    }

    /** `ifNoPending` with the pending frames of the topic handed to
        `onExists`: a new frame is created exactly when none is pending. */
    method IfNoPending(topic: string, frameId: string, now: int) returns (r: Pending<seq<MessageFrame>>)
      requires Valid()
      modifies buffer
      ensures Valid()
      ensures old(isDisposed) ==> r.Skipped? && buffer.holder == old(buffer.holder)
      ensures !old(isDisposed) && old(buffer.HasForTopic(topic)) ==>
        r == Found(old(buffer.FramesForTopic(topic))) && r.existing != [] && buffer.holder == old(buffer.holder)
      ensures !old(isDisposed) && !old(buffer.HasForTopic(topic)) ==>
        && r.Created? && fresh(r.frame) && r.frame.State() == NewFrame(frameId, topic, now)
        && buffer.holder == if HoldsId(old(buffer.holder), frameId) then old(buffer.holder) else old(buffer.holder) + [r.frame]
    {
      if isDisposed {
        return Skipped;
      }
      if buffer.HasForTopic(topic) {
        TopicLookupsAgree(buffer, topic);
        return Found(buffer.FramesForTopic(topic));
      }
      var created := CreateFrame(frameId, topic, now);
      r := Created(created.value);
    }

    /** `subscribe`: registers the pair and announces the topics, unless
        disposed. */
    method Subscribe(topic: string, consumer: Listener)
      requires Valid()
      modifies subscribers, transport
      ensures Valid()
      ensures old(isDisposed) ==>
        subscribers.holder == old(subscribers.holder) && transport.outbox == old(transport.outbox)
      ensures !old(isDisposed) ==>
        && subscribers.holder == AppendNew(old(subscribers.holder), Subscribers.Subscription(topic, consumer))
        && transport.outbox == if old(transport.IsReady())
             then old(transport.outbox) + [EncodeTopics(Subscribers.KnownTopics(subscribers.holder))]
             else old(transport.outbox)
      ensures transport.readyState == old(transport.readyState) && transport.handshakeResponse == old(transport.handshakeResponse)
    {
      if isDisposed {
        return;
      }
      subscribers.Subscribe(topic, consumer);
      var topics := subscribers.GetKnownTopics();
      transport.SynchronizeTopics(topics);
    }

    /** `unsubscribe` as written: the registry raises a `TypeError` before
        anything changes or is announced. */
    method UnsubscribeAsWritten(topic: string, consumer: Listener) returns (r: Result<(), Subscribers.RegistryError>)
      ensures r == Failure(Subscribers.TypeError)
    {
      r := subscribers.UnsubscribeAsWritten(topic, consumer);
    }

    /** `unsubscribe` with the registry's corrected removal: removes the pair
        and announces the topics (disposed or not). */
    method Unsubscribe(topic: string, consumer: Listener)
      requires Valid()
      modifies subscribers, transport
      ensures Valid()
      ensures subscribers.holder == RemoveFirst(old(subscribers.holder), Subscribers.Subscription(topic, consumer))
      ensures transport.outbox == if old(transport.IsReady())
        then old(transport.outbox) + [EncodeTopics(Subscribers.KnownTopics(subscribers.holder))]
        else old(transport.outbox)
      ensures transport.readyState == old(transport.readyState) && transport.handshakeResponse == old(transport.handshakeResponse)
    {
      subscribers.Unsubscribe(topic, consumer);
      var topics := subscribers.GetKnownTopics();
      transport.SynchronizeTopics(topics);
    }

    /** `dispose`: marks the client disposed; nothing else changes. */
    method Dispose()
      modifies this
      ensures isDisposed
      ensures transport == old(transport) && state == old(state) && ident == old(ident)
      ensures platformVersion == old(platformVersion) && pendingReconnects == old(pendingReconnects)
    {
      if isDisposed {
        return;
      }
      isDisposed := true;
    }

    // -------------------------------------------------------------------------
    // The tick
    // -------------------------------------------------------------------------

    /** Visiting one frame in one pass: when the pass selects it,
        completing it with a timeout, rescheduling it and telling the
        consumers, or sending it. */
    method VisitFrame(sw: Sweep, f: MessageFrame, now: int) returns (calls: seq<Call>, thrown: bool)
      requires f.Valid()
      requires sw == SendUnsent ==> transport.IsReady()
      modifies f, transport, log
      ensures var e := Visited(sw, old(f.State()), now, transport.id);
        && f.State() == e.frame && calls == e.calls && thrown == e.thrown
        && transport.outbox == old(transport.outbox) + e.sent
        && log.events == old(log.events) + RescheduledEvents(e.rescheduled)
      ensures f.Valid()
      ensures transport.readyState == old(transport.readyState) && transport.handshakeResponse == old(transport.handshakeResponse)
    {
      calls, thrown := [], false;
      if !Selected(sw, f.State(), now, transport.id) {
        assert RescheduledEvents([]) == [];
        return;
      }
      TouchedKeeps(sw, f.State(), now, transport.id);
      match sw {
        case TimeOut | TimeOutAsWritten =>
          calls, thrown := f.CompleteTimed();
        case AcknowledgeTimeOut | AcknowledgeTimeOutAsWritten =>
          calls, thrown := f.CompleteAcknowledgedTimed();
        case RescheduleLost =>
          f.Reschedule();
          log.Emit(MessageRescheduled(f.id));
          assert RescheduledEvents([f.id]) == [MessageRescheduled(f.id)];
        case SendUnsent =>
          var r := transport.SendFrame(f.State());
          if r.Failure? {
            thrown := true;
          } else {
            f.sentAt, f.transport := Some(now), Some(transport.id);
          }
      }
    }

    /** Visiting frame `i` of a list of frames, which changes no other. */
    method VisitAt(sw: Sweep, now: int, h: seq<MessageFrame>, i: nat, ghost s0: seq<Frame>, ghost es: seq<Effect>)
      returns (c: seq<Call>, t: bool)
      requires i < |h| == |s0| && h[i].State() == s0[i] && h[i].Valid() && DistinctIds(h)
      requires es == Visits(sw, s0, now, transport.id)
      requires sw == SendUnsent ==> transport.IsReady()
      modifies h[i], transport, log
      ensures c == es[i].calls && t == es[i].thrown && FrameValid(es[i].frame)
      ensures StatesOf(h) == old(StatesOf(h))[i := es[i].frame]
      ensures transport.outbox == old(transport.outbox) + es[i].sent
      ensures log.events == old(log.events) + RescheduledEvents(es[i].rescheduled)
      ensures transport.readyState == old(transport.readyState) && transport.handshakeResponse == old(transport.handshakeResponse)
    {
      ghost var states := StatesOf(h);
      assert forall j :: 0 <= j < |h| && j != i ==> h[j] != h[i];
      c, t := VisitFrame(sw, h[i], now);
      StatesAgree(h, states, i);
    }

    /** After visiting `h[..i]` in a pass over the states `s0`, with
        `acc` recording what the visit did: the frames hold `acc.frames`
        followed by the states not yet visited, the transport and the log
        hold what they held plus what the visit handed them, and the pass is
        `acc` followed by the pass over the rest, or `acc` itself when a
        visit threw. */
    ghost predicate Swept(h: seq<MessageFrame>, s0: seq<Frame>, es: seq<Effect>, i: nat, acc: Pass,
                          outbox: seq<Outgoing>, events: seq<ClientEvent>)
      reads this, h, transport, log
    {
      && |s0| == |h| == |es| && i <= |h| && |acc.frames| == i && DistinctIds(h)
      && StatesOf(h) == acc.frames + s0[i..]
      && (forall k :: 0 <= k < |s0| ==> FrameValid(s0[k]))
      && (forall k :: 0 <= k < |acc.frames| ==> FrameValid(acc.frames[k]))
      && (!acc.thrown ==> Resumes(s0, es, i, acc.frames, acc.calls, acc.sent, acc.rescheduled))
      && (acc.thrown ==> Stopped(s0, es, i, acc.frames, acc.calls, acc.sent, acc.rescheduled))
      && transport.outbox == outbox + acc.sent
      && log.events == events + RescheduledEvents(acc.rescheduled)
    }

    /** One iteration of a pass: visiting frame `i`. */
    method SweepStep(sw: Sweep, now: int, h: seq<MessageFrame>, i: nat, ghost s0: seq<Frame>, ghost es: seq<Effect>,
                     ghost acc: Pass, ghost outbox: seq<Outgoing>, ghost events: seq<ClientEvent>)
      returns (c: seq<Call>, t: bool, ghost next: Pass)
      requires Swept(h, s0, es, i, acc, outbox, events) && i < |h| && !acc.thrown
      requires es == Visits(sw, s0, now, transport.id)
      requires sw == SendUnsent ==> transport.IsReady()
      modifies h[i], transport, log
      ensures Swept(h, s0, es, i + 1, next, outbox, events)
      ensures next.calls == acc.calls + c && next.thrown == t
      ensures transport.readyState == old(transport.readyState) && transport.handshakeResponse == old(transport.handshakeResponse)
    {
      assert StatesOf(h)[i] == s0[i];
      ghost var done := acc.frames;
      c, t := VisitAt(sw, now, h, i, s0, es);
      var e := es[i];
      Resumed(s0, es, i, done, acc.calls, acc.sent, acc.rescheduled);
      ReplaceAt(done, s0, e.frame);
      ConcatAssociates(outbox, acc.sent, e.sent);
      RescheduledEventsAppend(acc.rescheduled, e.rescheduled);
      ConcatAssociates(events, RescheduledEvents(acc.rescheduled), RescheduledEvents(e.rescheduled));
      next := Pass(done + [e.frame], acc.calls + c, acc.sent + e.sent, acc.rescheduled + e.rescheduled, t);
    }

    /** Before the first visit of a pass over a valid buffer. */
    lemma SweptFromStart(h: seq<MessageFrame>, es: seq<Effect>)
      requires buffer.Valid() && h == buffer.holder && |es| == |h|
      ensures Swept(h, StatesOf(h), es, 0, Pass([], [], [], [], false), transport.outbox, log.events)
    {
      var s0 := StatesOf(h);
      ResumesFromStart(s0, es);
      assert s0[0..] == s0;
      assert transport.outbox + [] == transport.outbox;
      assert log.events + RescheduledEvents([]) == log.events;
      forall k | 0 <= k < |s0|
        ensures FrameValid(s0[k])
      {
        assert h[k].Valid();
      }
    }

    /** Where a pass ends: every frame visited, or a visit that threw. */
    lemma SweptToEnd(sw: Sweep, now: int, h: seq<MessageFrame>, i: nat, s0: seq<Frame>, es: seq<Effect>,
                     acc: Pass, outbox: seq<Outgoing>, events: seq<ClientEvent>)
      requires Swept(h, s0, es, i, acc, outbox, events) && (acc.thrown || i == |h|)
      requires es == Visits(sw, s0, now, transport.id)
      ensures var p := SweepAll(sw, s0, now, transport.id);
        && StatesOf(h) == p.frames && acc.calls == p.calls && acc.thrown == p.thrown
        && transport.outbox == outbox + p.sent
        && log.events == events + RescheduledEvents(p.rescheduled)
      ensures forall k :: 0 <= k < |h| ==> h[k].Valid()
    {
      if !acc.thrown {
        ResumesAtEnd(s0, es, acc.frames, acc.calls, acc.sent, acc.rescheduled);
      }
      SweepIsCombine(sw, s0, now, transport.id);
      SpliceValid(acc.frames, s0, i);
      FramesValid(h, acc.frames + s0[i..]);
    }

    /** One pass of the tick. Visiting the frames a buffer view selects, in
        order, is visiting every position and testing it there, because
        handling one frame changes no other. */
    method SweepFrames(sw: Sweep, now: int) returns (calls: seq<Call>, thrown: bool)
      requires Valid()
      requires sw == SendUnsent ==> transport.IsReady()
      modifies buffer.holder, transport, log
      ensures var p := SweepAll(sw, old(StatesOf(buffer.holder)), now, transport.id);
        && StatesOf(buffer.holder) == p.frames && calls == p.calls && thrown == p.thrown
        && transport.outbox == old(transport.outbox) + p.sent
        && log.events == old(log.events) + RescheduledEvents(p.rescheduled)
      ensures transport.readyState == old(transport.readyState) && transport.handshakeResponse == old(transport.handshakeResponse)
      ensures Valid()
    {
      var h := buffer.holder;
      ghost var s0 := StatesOf(h);
      ghost var es := Visits(sw, s0, now, transport.id);
      ghost var outbox, events := transport.outbox, log.events;
      ghost var acc := Pass([], [], [], [], false);
      SweptFromStart(h, es);
      calls, thrown := [], false;
      var i := 0;
      while i < |h| && !thrown
        invariant i <= |h| && Swept(h, s0, es, i, acc, outbox, events)
        invariant calls == acc.calls && thrown == acc.thrown
        invariant transport.readyState == old(transport.readyState)
        invariant transport.handshakeResponse == old(transport.handshakeResponse)
      {
        var c, t;
        c, t, acc := SweepStep(sw, now, h, i, s0, es, acc, outbox, events);
        calls, thrown := calls + c, t;
        i := i + 1;
      }
      SweptToEnd(sw, now, h, i, s0, es, acc, outbox, events);
      assert buffer.holder == h;
    }

    /** The first two removals of a tick: cancelled frames, then
        notifications the server has acknowledged. */
    method RemoveSettled()
      requires Valid()
      modifies buffer
      ensures Valid()
      ensures StatesOf(buffer.holder) == Survivors(old(StatesOf(buffer.holder)))
      ensures forall k :: 0 <= k < |buffer.holder| ==> buffer.holder[k] in old(buffer.holder)
    {
      buffer.RemoveCancelled();
      buffer.RemoveAcknowledgedNotifications();
    }

    /** The response-timeout pass, then the acknowledgement-timeout pass
        unless the first one threw. Neither sends nor emits anything. */
    method TimeOutPasses(now: int) returns (calls: seq<Call>, thrown: bool)
      requires Valid()
      modifies buffer.holder, transport, log
      ensures Valid()
      ensures var timed := SweepAll(TimeOut, old(StatesOf(buffer.holder)), now, transport.id);
        var acked := SweepAll(AcknowledgeTimeOut, timed.frames, now, transport.id);
        if timed.thrown then StatesOf(buffer.holder) == timed.frames && calls == timed.calls && thrown
        else StatesOf(buffer.holder) == acked.frames && calls == timed.calls + acked.calls && thrown == acked.thrown
      ensures transport.outbox == old(transport.outbox) && log.events == old(log.events)
      ensures transport.readyState == old(transport.readyState) && transport.handshakeResponse == old(transport.handshakeResponse)
    {
      ghost var s0 := StatesOf(buffer.holder);
      ghost var timed := SweepAll(TimeOut, s0, now, transport.id);
      SweepOutputs(TimeOut, s0, now, transport.id);
      SweepOutputs(AcknowledgeTimeOut, timed.frames, now, transport.id);
      ghost var outbox, events := transport.outbox, log.events;
      calls, thrown := SweepFrames(TimeOut, now);
      assert transport.outbox == outbox && log.events == events;
      if thrown {
        return;
      }
      assert StatesOf(buffer.holder) == timed.frames;
      var more;
      more, thrown := SweepFrames(AcknowledgeTimeOut, now);
      assert transport.outbox == outbox + [] && log.events == events + [];
      calls := calls + more;
    }

    /** On a ready transport: the rescheduling pass, which never throws,
        then the sending pass. Neither calls a handler. */
    method DeliveryPasses(now: int) returns (thrown: bool)
      requires Valid() && transport.IsReady()
      modifies buffer.holder, transport, log
      ensures Valid()
      ensures var lost := SweepAll(RescheduleLost, old(StatesOf(buffer.holder)), now, transport.id);
        var sending := SweepAll(SendUnsent, lost.frames, now, transport.id);
        && StatesOf(buffer.holder) == sending.frames && thrown == sending.thrown
        && transport.outbox == old(transport.outbox) + sending.sent
        && log.events == old(log.events) + RescheduledEvents(lost.rescheduled)
      ensures transport.readyState == old(transport.readyState) && transport.handshakeResponse == old(transport.handshakeResponse)
    {
      ghost var s0 := StatesOf(buffer.holder);
      ghost var lost := SweepAll(RescheduleLost, s0, now, transport.id);
      ghost var sending := SweepAll(SendUnsent, lost.frames, now, transport.id);
      SweepOutputs(RescheduleLost, s0, now, transport.id);
      SweepOutputs(SendUnsent, lost.frames, now, transport.id);
      ghost var outbox := transport.outbox;
      var none, _ := SweepFrames(RescheduleLost, now);
      assert transport.outbox == outbox;
      assert StatesOf(buffer.holder) == lost.frames;
      ghost var events := log.events;
      none, thrown := SweepFrames(SendUnsent, now);
      assert log.events == events + [];
    }

    /** The rest of a tick on a transport that is not ready: the offline
        removal, which selects nothing, then the removal of finalized
        frames. */
    method SettleOffline()
      requires Valid() && !transport.IsReady()
      modifies buffer
      ensures Valid()
      ensures StatesOf(buffer.holder) == Reject(Reject(old(StatesOf(buffer.holder)), DiscardIfOffline), IsFinalizedFrame)
    {
      ghost var fs := StatesOf(buffer.holder);
      RejectNothing(fs);
      buffer.RemoveOnlineOnly();
      assert StatesOf(buffer.holder) == Reject(fs, DiscardIfOffline);
      buffer.RemoveFinalized();
    }

    /** The rest of a tick on a ready transport: the delivery passes, then,
        unless sending threw, the removal of finalized frames. */
    method SettleOnline(now: int) returns (thrown: bool)
      requires Valid() && transport.IsReady()
      modifies buffer, buffer.holder, transport, log
      ensures Valid()
      ensures var d := Delivery(old(StatesOf(buffer.holder)), now, true, transport.id);
        && StatesOf(buffer.holder) == d.frames && thrown == d.thrown
        && transport.outbox == old(transport.outbox) + d.sent
        && log.events == old(log.events) + RescheduledEvents(d.rescheduled)
      ensures transport.readyState == old(transport.readyState) && transport.handshakeResponse == old(transport.handshakeResponse)
    {
      ghost var fs := StatesOf(buffer.holder);
      ghost var lost := SweepAll(RescheduleLost, fs, now, transport.id);
      ghost var sending := SweepAll(SendUnsent, lost.frames, now, transport.id);
      thrown := DeliveryPasses(now);
      assert StatesOf(buffer.holder) == sending.frames && thrown == sending.thrown;
      if thrown {
        return;
      }
      buffer.RemoveFinalized();
    }

    /** The rest of a tick once the timeout passes have not thrown. */
    method Settle(now: int) returns (thrown: bool)
      requires Valid()
      modifies buffer, buffer.holder, transport, log
      ensures Valid()
      ensures var d := Delivery(old(StatesOf(buffer.holder)), now, old(transport.IsReady()), transport.id);
        && StatesOf(buffer.holder) == d.frames && thrown == d.thrown
        && transport.outbox == old(transport.outbox) + d.sent
        && log.events == old(log.events) + RescheduledEvents(d.rescheduled)
      ensures transport.readyState == old(transport.readyState) && transport.handshakeResponse == old(transport.handshakeResponse)
    {
      if transport.IsReady() {
        thrown := SettleOnline(now);
      } else {
        SettleOffline();
        thrown := false;
        assert transport.outbox == old(transport.outbox) + [] && log.events == old(log.events) + RescheduledEvents([]);
      }
    }

    /** The first part of a live tick: the two removals, then the timeout
        passes. */
    method Expire(now: int) returns (calls: seq<Call>, thrown: bool)
      requires Valid()
      modifies buffer, buffer.holder, transport, log
      ensures Valid()
      ensures var timed := SweepAll(TimeOut, Survivors(old(StatesOf(buffer.holder))), now, transport.id);
        var acked := SweepAll(AcknowledgeTimeOut, timed.frames, now, transport.id);
        if timed.thrown then StatesOf(buffer.holder) == timed.frames && calls == timed.calls && thrown
        else StatesOf(buffer.holder) == acked.frames && calls == timed.calls + acked.calls && thrown == acked.thrown
      ensures forall k :: 0 <= k < |buffer.holder| ==> buffer.holder[k] in old(buffer.holder)
      ensures transport.outbox == old(transport.outbox) && log.events == old(log.events)
      ensures transport.readyState == old(transport.readyState) && transport.handshakeResponse == old(transport.handshakeResponse)
    {
      ghost var survivors := Survivors(StatesOf(buffer.holder));
      RemoveSettled();
      assert StatesOf(buffer.holder) == survivors;
      calls, thrown := TimeOutPasses(now);
    }

    /** A tick of a live client: the removals and timeout passes, then the
        rest of the tick unless a timeout pass threw. */
    method TickLive(now: int) returns (calls: seq<Call>, thrown: bool)
      requires Valid()
      modifies buffer, buffer.holder, transport, log
      ensures Valid()
      ensures var t := Reconciliation.Tick(old(StatesOf(buffer.holder)), now, old(transport.IsReady()), transport.id);
        && StatesOf(buffer.holder) == t.frames && calls == t.calls && thrown == t.thrown
        && transport.outbox == old(transport.outbox) + t.sent
        && log.events == old(log.events) + RescheduledEvents(t.rescheduled)
      ensures transport.readyState == old(transport.readyState) && transport.handshakeResponse == old(transport.handshakeResponse)
    {
      ghost var survivors := Survivors(StatesOf(buffer.holder));
      ghost var timed := SweepAll(TimeOut, survivors, now, transport.id);
      ghost var acked := SweepAll(AcknowledgeTimeOut, timed.frames, now, transport.id);
      calls, thrown := Expire(now);
      if thrown {
        assert transport.outbox == old(transport.outbox) + [] && log.events == old(log.events) + RescheduledEvents([]);
        return;
      }
      assert StatesOf(buffer.holder) == acked.frames && calls == timed.calls + acked.calls;
      thrown := Settle(now);
    }

    /** `_tick`: nothing on a disposed client, a live tick otherwise. */
    method Tick(now: int) returns (calls: seq<Call>, thrown: bool)
      requires Valid()
      modifies buffer, buffer.holder, transport, log
      ensures Valid()
      ensures old(isDisposed) ==>
        && buffer.holder == old(buffer.holder) && calls == [] && !thrown
        && transport.outbox == old(transport.outbox) && log.events == old(log.events)
      ensures !old(isDisposed) ==>
        var t := Reconciliation.Tick(old(StatesOf(buffer.holder)), now, old(transport.IsReady()), transport.id);
        && StatesOf(buffer.holder) == t.frames && calls == t.calls && thrown == t.thrown
        && transport.outbox == old(transport.outbox) + t.sent
        && log.events == old(log.events) + RescheduledEvents(t.rescheduled)
      ensures transport.readyState == old(transport.readyState) && transport.handshakeResponse == old(transport.handshakeResponse)
    {
      if isDisposed {
        return [], false;
      }
      calls, thrown := TickLive(now);
    }

    // -------------------------------------------------------------------------
    // State and transport events
    // -------------------------------------------------------------------------

    /** `_setState`: the consumers are told only of an actual change. */
    method SetState(next: ConnectionState)
      modifies this, log
      ensures state == next
      ensures log.events == old(log.events) + StateEvents(old(state), next)
      ensures transport == old(transport) && isDisposed == old(isDisposed) && ident == old(ident)
      ensures platformVersion == old(platformVersion) && pendingReconnects == old(pendingReconnects)
    {
      if state != next {
        var previous := state;
        state := next;
        log.Emit(StateChanged(next, previous));
      }
    }

    /** Hands an event to the consumers; the buffered frames do not change. */
    method Report(e: ClientEvent)
      modifies log
      ensures log.events == old(log.events) + [e]
      ensures StatesOf(buffer.holder) == old(StatesOf(buffer.holder))
      ensures old(Valid()) ==> Valid()
    {
      log.Emit(e);
    }

    /** `_onTransportAcknowledged`: an acknowledgement for an unknown id is
        reported as lost; otherwise the frame is acknowledged and, unless one
        of its handlers threw, the acknowledgement is reported. */
    method OnTransportAcknowledged(frameId: string, event: Value, now: int) returns (calls: seq<Call>, thrown: bool)
      requires Valid()
      modifies buffer.holder, log
      ensures Valid() && buffer.holder == old(buffer.holder)
      ensures old(isDisposed) ==>
        StatesOf(buffer.holder) == old(StatesOf(buffer.holder)) && calls == [] && !thrown && log.events == old(log.events)
      ensures !old(isDisposed) && PositionOf(old(StatesOf(buffer.holder)), frameId) == -1 ==>
        && StatesOf(buffer.holder) == old(StatesOf(buffer.holder)) && calls == [] && !thrown
        && log.events == old(log.events) + [LostAcknowledged(frameId, event)]
      ensures !old(isDisposed) && PositionOf(old(StatesOf(buffer.holder)), frameId) != -1 ==>
        var fs := old(StatesOf(buffer.holder));
        var i := PositionOf(fs, frameId);
        var s := Apply(fs[i], DoAcknowledge(now));
        && StatesOf(buffer.holder) == fs[i := s.frame] && calls == s.calls && thrown == s.thrown
        && log.events == old(log.events) + (if s.thrown then [] else [Acknowledged(frameId, frameId, event)])
    {
      if isDisposed {
        return [], false;
      }
      var found;
      ghost var i;
      found, calls, thrown, i := buffer.ApplyToId(frameId, DoAcknowledge(now));
      if !found {
        Report(LostAcknowledged(frameId, event));
      } else if !thrown {
        Report(Acknowledged(frameId, frameId, event));
      }
    }

    /** `_onTransportErrorMessageResponse`, which does not check for
        disposal: the frame with the id, if any, completes as failed with the
        payload, and unless one of its handlers threw the consumers receive
        the frame (or none), the id, the payload and the event. */
    method OnTransportErrorMessageResponse(frameId: string, payload: Value, event: Value) returns (calls: seq<Call>, thrown: bool)
      requires Valid()
      modifies buffer.holder, log
      ensures Valid() && buffer.holder == old(buffer.holder)
      ensures PositionOf(old(StatesOf(buffer.holder)), frameId) == -1 ==>
        && StatesOf(buffer.holder) == old(StatesOf(buffer.holder)) && calls == [] && !thrown
        && log.events == old(log.events) + [MessageErrorResponse(None, frameId, payload, event)]
      ensures PositionOf(old(StatesOf(buffer.holder)), frameId) != -1 ==>
        var fs := old(StatesOf(buffer.holder));
        var i := PositionOf(fs, frameId);
        var s := Apply(fs[i], DoComplete(Failed, payload));
        && StatesOf(buffer.holder) == fs[i := s.frame] && calls == s.calls && thrown == s.thrown
        && log.events == old(log.events) + (if s.thrown then [] else [MessageErrorResponse(Some(frameId), frameId, payload, event)])
    {
      var found;
      ghost var i;
      found, calls, thrown, i := buffer.ApplyToId(frameId, DoComplete(Failed, payload));
      if !thrown {
        Report(MessageErrorResponse(if found then Some(frameId) else None, frameId, payload, event));
      }
    }

    /** `_onTransportMessageResponse` as written: a response for an unknown
        id is reported as lost; for a buffered frame it calls
        `_setResponsePayload`, which frames do not have, so the handler
        raises a `TypeError` and nothing changes. */
    method OnTransportMessageResponse(frameId: string, payload: Value, event: Value) returns (r: Result<(), JsError>)
      requires Valid()
      modifies log
      ensures old(isDisposed) ==> r.Success? && log.events == old(log.events)
      ensures !old(isDisposed) && !HoldsId(buffer.holder, frameId) ==>
        r.Success? && log.events == old(log.events) + [LostMessageResponse(frameId, payload, event)]
      ensures !old(isDisposed) && HoldsId(buffer.holder, frameId) ==>
        r == Failure(TypeError) && log.events == old(log.events)
    {
      if isDisposed {
        return Success(());
      }
      var frame := buffer.FrameWithId(frameId);
      if frame.None? {
        log.Emit(LostMessageResponse(frameId, payload, event));
        return Success(());
      }
      r := Failure(TypeError);
    }

    /** `_onTransportBinaryAttachment` as written: the lost-response path
        passes `payload`, a name that is not declared there, so it raises a
        `ReferenceError` before any consumer is invoked; for a buffered frame
        it calls `_setResponseAttachment`, which frames do not have. */
    method OnTransportBinaryAttachmentAsWritten(frameId: string, attachment: seq<Byte>, event: Value) returns (r: Result<(), JsError>)
      requires Valid()
      ensures old(isDisposed) ==> r.Success?
      ensures !old(isDisposed) && !HoldsId(buffer.holder, frameId) ==> r == Failure(ReferenceError)
      ensures !old(isDisposed) && HoldsId(buffer.holder, frameId) ==> r == Failure(TypeError)
    {
      if isDisposed {
        return Success(());
      }
      var frame := buffer.FrameWithId(frameId);
      if frame.None? {
        return Failure(ReferenceError);
      }
      r := Failure(TypeError);
    }

    /** `_onTransportBinaryAttachment` with the lost path reporting the
        attachment it received as the lost response's payload. */
    method OnTransportBinaryAttachment(frameId: string, attachment: seq<Byte>, event: Value) returns (r: Result<(), JsError>)
      requires Valid()
      modifies log
      ensures old(isDisposed) ==> r.Success? && log.events == old(log.events)
      ensures !old(isDisposed) && !HoldsId(buffer.holder, frameId) ==>
        r.Success? && log.events == old(log.events) + [LostMessageResponse(frameId, Binary(attachment), event)]
      ensures !old(isDisposed) && HoldsId(buffer.holder, frameId) ==>
        r == Failure(TypeError) && log.events == old(log.events)
    {
      if isDisposed {
        return Success(());
      }
      var frame := buffer.FrameWithId(frameId);
      if frame.None? {
        log.Emit(LostMessageResponse(frameId, Binary(attachment), event));
        return Success(());
      }
      r := Failure(TypeError);
    }

    /** `_onTransportPlatformChange`: a new platform version is stored and
        reported with the previous one; the same version changes nothing. */
    method OnTransportPlatformChange(version: Value, event: Value)
      modifies this, log
      ensures old(isDisposed) || version == old(platformVersion) ==>
        platformVersion == old(platformVersion) && log.events == old(log.events)
      ensures !old(isDisposed) && version != old(platformVersion) ==>
        platformVersion == version && log.events == old(log.events) + [PlatformChanged(version, old(platformVersion), event)]
      ensures transport == old(transport) && isDisposed == old(isDisposed) && state == old(state)
      ensures ident == old(ident) && pendingReconnects == old(pendingReconnects)
    {
      if isDisposed || version == platformVersion {
        return;
      }
      var previous := platformVersion;
      platformVersion := version;
      log.Emit(PlatformChanged(version, previous, event));
    }

    /** `_onTransportIdentChange`: the same rule for the server's ident. */
    method OnTransportIdentChange(next: Value, event: Value)
      modifies this, log
      ensures old(isDisposed) || next == old(ident) ==> ident == old(ident) && log.events == old(log.events)
      ensures !old(isDisposed) && next != old(ident) ==>
        ident == next && log.events == old(log.events) + [IdentChanged(next, old(ident), event)]
      ensures transport == old(transport) && isDisposed == old(isDisposed) && state == old(state)
      ensures platformVersion == old(platformVersion) && pendingReconnects == old(pendingReconnects)
    {
      if isDisposed || next == ident {
        return;
      }
      var previous := ident;
      ident := next;
      log.Emit(IdentChanged(next, previous, event));
    }

    /** `_onTransportHandshakeReceived`: the client is ready, takes the
        platform version and ident of the reply (reported without an event),
        announces its topics and reports the handshake. */
    method OnTransportHandshakeReceived(handshake: Handshake, event: Value)
      requires Valid()
      modifies this, log, transport
      ensures Valid()
      ensures old(isDisposed) ==>
        && state == old(state) && ident == old(ident) && platformVersion == old(platformVersion)
        && log.events == old(log.events) && transport.outbox == old(transport.outbox)
      ensures !old(isDisposed) ==>
        && state == Ready && platformVersion == handshake.platform && ident == handshake.ident
        && log.events == old(log.events) + StateEvents(old(state), Ready)
             + (if handshake.platform == old(platformVersion) then [] else [PlatformChanged(handshake.platform, old(platformVersion), Undefined)])
             + (if handshake.ident == old(ident) then [] else [IdentChanged(handshake.ident, old(ident), Undefined)])
             + [HandshakeReceived(handshake, event)]
        && transport.outbox == if old(transport.IsReady())
             then old(transport.outbox) + [EncodeTopics(Subscribers.KnownTopics(subscribers.holder))]
             else old(transport.outbox)
      ensures transport == old(transport) && isDisposed == old(isDisposed) && pendingReconnects == old(pendingReconnects)
      ensures transport.readyState == old(transport.readyState) && transport.handshakeResponse == old(transport.handshakeResponse)
    {
      if isDisposed {
        return;
      }
      SetState(Ready);
      OnTransportPlatformChange(handshake.platform, Undefined);
      OnTransportIdentChange(handshake.ident, Undefined);
      var topics := subscribers.GetKnownTopics();
      transport.SynchronizeTopics(topics);
      log.Emit(HandshakeReceived(handshake, event));
    }

    /** `_onTransportOpen`: the state becomes open unless the client is
        reconnecting; the consumers receive the event. */
    method OnTransportOpen(event: Value)
      requires Valid()
      modifies this, log
      ensures Valid()
      ensures old(isDisposed) ==> state == old(state) && log.events == old(log.events)
      ensures !old(isDisposed) ==>
        var next := if old(state) == Reconnecting then Reconnecting else Open;
        state == next && log.events == old(log.events) + StateEvents(old(state), next) + [TransportOpened(event)]
      ensures transport == old(transport) && isDisposed == old(isDisposed) && ident == old(ident)
      ensures platformVersion == old(platformVersion) && pendingReconnects == old(pendingReconnects)
    {
      if isDisposed {
        return;
      }
      if state != Reconnecting {
        SetState(Open);
      }
      log.Emit(TransportOpened(event));
    }

    /** `_onTransportClosed`: a close while reconnecting means the
        reconnect failed, any other close means closed; a reconnect timer
        starts and the consumers receive the event. */
    method OnTransportClosed(event: Value)
      requires Valid()
      modifies this, log
      ensures Valid()
      ensures old(isDisposed) ==>
        state == old(state) && log.events == old(log.events) && pendingReconnects == old(pendingReconnects)
      ensures !old(isDisposed) ==>
        var next := if old(state) == Reconnecting then ReconnectingFailed else Closed;
        && state == next && pendingReconnects == old(pendingReconnects) + 1
        && log.events == old(log.events) + StateEvents(old(state), next) + [TransportClosed(event)]
      ensures transport == old(transport) && isDisposed == old(isDisposed) && ident == old(ident)
      ensures platformVersion == old(platformVersion)
    {
      if isDisposed {
        return;
      }
      if state == Reconnecting {
        SetState(ReconnectingFailed);
      } else {
        SetState(Closed);
      }
      pendingReconnects := pendingReconnects + 1;
      log.Emit(TransportClosed(event));
    }

    /** The reconnect timer started by `_onTransportClosed` fires: the
        client is reconnecting over a new transport. The callback does not
        check for disposal. */
    method ReconnectTimerFired(transportId: string)
      requires Valid() && pendingReconnects > 0
      modifies this, log
      ensures Valid()
      ensures state == Reconnecting && pendingReconnects == old(pendingReconnects) - 1
      ensures log.events == old(log.events) + StateEvents(old(state), Reconnecting)
      ensures fresh(transport) && transport.id == transportId && !transport.IsReady() && transport.outbox == []
      ensures isDisposed == old(isDisposed) && ident == old(ident) && platformVersion == old(platformVersion)
    {
      pendingReconnects := pendingReconnects - 1;
      SetState(Reconnecting);
      transport := new Transports.SocketTransport(transportId);
    }

    /** The relaying handlers (`_onTransportMessage`, `_onTransportError`,
        `_onTransportServerError`, `_onTransportBinaryMessage`,
        `_onTransportForeignProtocol`, `_onTransportUnknownMessageType`):
        the consumers receive the event unless the client is disposed. */
    method Relay(e: ClientEvent)
      requires Relayed(e)
      modifies log
      ensures log.events == if old(isDisposed) then old(log.events) else old(log.events) + [e]
    {
      if isDisposed {
        return;
      }
      log.Emit(e);
    }

    /** `_onTransportBroadcast`, which does not check for disposal: a
        broadcast on a topic without subscribers is reported as lost;
        otherwise every subscriber receives the broadcast, the event and the
        topic, and the exceptions are collected. */
    method OnTransportBroadcast(topic: string, broadcast: Value, event: Value) returns (calls: seq<Call>, errors: seq<Listener>)
      modifies log
      ensures var subs := Subscribers.ConsumersFor(subscribers.holder, topic);
        if subs == [] then calls == [] && errors == [] && log.events == old(log.events) + [LostBroadcast(topic, broadcast, event)]
        else calls == Calls(subs, [broadcast, event, Str(topic)]) && errors == Failing(subs) && log.events == old(log.events)
    {
      var subs := subscribers.SubscribersFor(topic);
      if |subs| == 0 {
        log.Emit(LostBroadcast(topic, broadcast, event));
        return [], [];
      }
      calls, errors := FanOut(subs, [broadcast, event, Str(topic)]);
    }
  }
}
