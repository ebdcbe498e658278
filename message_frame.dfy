/** The lifecycle of one outbound message (`MessageFrame`). The datatype
    `Frame` is the value of a frame's fields at one moment; the functions on
    it are the transitions, and the class `MessageFrame` holds the fields and
    performs the same transitions in place. */
module MessageFrames {
  import opened Wrappers
  import opened Listeners

  /** Snapshot of a frame. `transport` is the id of the transport that last
      sent it (the source stores the transport object and compares ids). */
  datatype Frame = Frame(
    id: string,
    topic: string,
    transport: Option<string>,
    createdAt: int,
    sentAt: Option<int>,
    acknowledgedAt: Option<int>,
    responseAt: Option<int>,
    timeout: Option<int>,
    acknowledgeTimeout: Option<int>,
    isCancelled: bool,
    isFinalized: bool,
    isReady: bool,
    isNotification: bool,
    payload: Value,
    completeHandlers: seq<Listener>,
    errorHandlers: seq<Listener>,
    finallyHandlers: seq<Listener>,
    acknowledgedHandlers: seq<Listener>,
    timedHandlers: seq<Listener>,
    acknowledgedTimedHandlers: seq<Listener>)

  /** The two errors `send` and `notify` throw. */
  datatype FrameError = AlreadyScheduled | UnsupportedPayloadType

  /** The handler lists a listener can be registered on. */
  datatype HandlerList = OnComplete | OnError | OnFinally | OnAcknowledged | OnTimed | OnAcknowledgedTimed

  /** The four ways a frame can be completed. */
  datatype CompletionKind = Completed | Failed | TimedOut | AcknowledgeTimedOut

  /** A transition together with the handler invocations it made and whether
      a handler exception escaped from it. */
  datatype Step = Step(frame: Frame, calls: seq<Call>, thrown: bool)

  /** The state right after construction, created at time `now`. */
  function NewFrame(id: string, topic: string, now: int): Frame
  {
    Frame(id, topic, None, now, None, None, None, None, None,
          false, false, false, false, Null, [], [], [], [], [], [])
  }

  /** What holds of every frame at every moment: it has a sending time exactly
      when it has an owning transport; its payload is never binary; a
      notification has been marked ready. */
  predicate FrameValid(f: Frame)
  {
    && (f.sentAt.Some? <==> f.transport.Some?)
    && !f.payload.Binary?
    && (f.isNotification ==> f.isReady)
  }

  function Register(f: Frame, list: HandlerList, l: Listener): Frame
  {
    match list
    case OnComplete => f.(completeHandlers := f.completeHandlers + [l])
    case OnError => f.(errorHandlers := f.errorHandlers + [l])
    case OnFinally => f.(finallyHandlers := f.finallyHandlers + [l])
    case OnAcknowledged => f.(acknowledgedHandlers := f.acknowledgedHandlers + [l])
    case OnTimed => f.(timedHandlers := f.timedHandlers + [l])
    case OnAcknowledgedTimed => f.(acknowledgedTimedHandlers := f.acknowledgedTimedHandlers + [l])
  }

  /** `send` and `notify`: refused once the frame is ready or sent, or when
      the payload is binary; otherwise the payload is stored and the frame
      becomes ready (and, for `notify`, a notification). */
  function Schedule(f: Frame, payload: Value, notification: bool): Result<Frame, FrameError>
  {
    if f.isReady || f.sentAt.Some? then Failure(AlreadyScheduled)
    else if payload.Binary? then Failure(UnsupportedPayloadType)
    else if notification then Success(f.(payload := payload, isNotification := true, isReady := true))
    else Success(f.(payload := payload, isReady := true))
  }

  function Cancelled(f: Frame): Frame
  {
    f.(isCancelled := true)
  }

  predicate CanHandle(f: Frame)
  {
    !f.isCancelled && !f.isFinalized
  }

  /** `_reschedule`: back to "ready, unsent" unless cancelled or finalized. */
  function Rescheduled(f: Frame): Frame
  {
    if !CanHandle(f) then f
    else f.(sentAt := None, acknowledgedAt := None, responseAt := None, transport := None)
  }

  function MatchingHandlers(f: Frame, kind: CompletionKind): seq<Listener>
  {
    match kind
    case Completed => f.completeHandlers
    case Failed => f.errorHandlers
    case TimedOut => f.timedHandlers
    case AcknowledgeTimedOut => f.acknowledgedTimedHandlers
  }

  /** The arguments a frame handler receives: the value, then the frame. */
  function HandlerArgs(f: Frame, arg: Value): seq<Value>
  {
    [arg, FrameRef(f.id)]
  }

  /** `_complete`, `_completeFailed`, `_completeTimed` and
      `_completeAcknowledgedTimed`: ignored unless the frame can still be
      handled; otherwise the frame is finalized, its matching handlers run, and
      its finally handlers run afterwards whether or not a matching handler
      threw (try/finally). */
  function Completion(f: Frame, kind: CompletionKind, arg: Value): Step
  {
    if !CanHandle(f) then Step(f, [], false)
    else
      var matching := Run(MatchingHandlers(f, kind), HandlerArgs(f, arg));
      var finally := Run(f.finallyHandlers, HandlerArgs(f, arg));
      Step(f.(isFinalized := true), matching.calls + finally.calls, matching.thrown || finally.thrown)
  }

  /** `_acknowledge`: gated only by cancellation; records the time and runs
      the acknowledged handlers with it. */
  function Acknowledgement(f: Frame, now: int): Step
  {
    if f.isCancelled then Step(f, [], false)
    else
      var handled := Run(f.acknowledgedHandlers, HandlerArgs(f, Num(now)));
      Step(f.(acknowledgedAt := Some(now)), handled.calls, handled.thrown)
  }

  /** `_isTimed` with the timeout counted from the send: a response timeout
      is set, no response has arrived, the frame has been sent, and at least
      the timeout has elapsed since it was sent. */
  predicate IsTimed(f: Frame, now: int)
  {
    f.timeout.Some? && f.responseAt.None? && f.sentAt.Some? && now - f.sentAt.value >= f.timeout.value
  }

  /** `_isAcknowledgedTimed` with the timeout counted from the send, over the
      acknowledgement fields. */
  predicate IsAcknowledgedTimed(f: Frame, now: int)
  {
    f.acknowledgeTimeout.Some? && f.acknowledgedAt.None? && f.sentAt.Some?
    && now - f.sentAt.value >= f.acknowledgeTimeout.value
  }

  /** JavaScript's `now - this._sentAt`: `null` converts to 0. */
  function ElapsedAsWritten(f: Frame, now: int): int
  {
    if f.sentAt.Some? then now - f.sentAt.value else now
  }

  /** `_isTimed` exactly as the source computes it. */
  predicate IsTimedAsWritten(f: Frame, now: int)
  {
    f.timeout.Some? && f.responseAt.None? && ElapsedAsWritten(f, now) >= f.timeout.value
  }

  /** `_isAcknowledgedTimed` exactly as the source computes it. */
  predicate IsAcknowledgedTimedAsWritten(f: Frame, now: int)
  {
    f.acknowledgeTimeout.Some? && f.acknowledgedAt.None? && ElapsedAsWritten(f, now) >= f.acknowledgeTimeout.value
  }

  /** What the scheduler writes into a frame it hands to the transport. */
  function MarkSent(f: Frame, now: int, transportId: string): Frame
  {
    f.(sentAt := Some(now), transport := Some(transportId))
  }

  // ---------------------------------------------------------------------------
  // Properties of single transitions
  // ---------------------------------------------------------------------------

  /** A new frame carries no timestamps, no timeouts, no transport, no payload
      and no handlers, and is neither ready, a notification, cancelled nor
      finalized; it can still be handled, it is not yet eligible for sending,
      and it satisfies the frame invariant. */
  lemma NewFrameIsIdle(id: string, topic: string, now: int)
    ensures var f := NewFrame(id, topic, now);
      && f.id == id && f.topic == topic && f.createdAt == now
      && f.sentAt.None? && f.acknowledgedAt.None? && f.responseAt.None? && f.transport.None?
      && f.timeout.None? && f.acknowledgeTimeout.None?
      && !f.isReady && !f.isNotification && !f.isCancelled && !f.isFinalized
      && CanHandle(f) && FrameValid(f)
  {
  }

  /** `send`/`notify` succeed exactly on a frame that is neither ready nor
      sent, with a non-binary payload; a refused call reports why. After a
      successful call every further `send` or `notify` is refused, so a frame
      is scheduled at most once. */
  lemma ScheduleOnce(f: Frame, p: Value, notification: bool, q: Value, again: bool)
    ensures Schedule(f, p, notification).Success? <==> !f.isReady && f.sentAt.None? && !p.Binary?
    ensures Schedule(f, p, notification).Failure? ==>
      Schedule(f, p, notification).error == if f.isReady || f.sentAt.Some? then AlreadyScheduled else UnsupportedPayloadType
    ensures Schedule(f, p, notification).Success? ==>
      var g := Schedule(f, p, notification).value;
      && g.isReady && g.payload == p && g.isNotification == (notification || f.isNotification)
      && g == f.(payload := p, isReady := true, isNotification := g.isNotification)
      && Schedule(g, q, again) == Failure(AlreadyScheduled)
  {
  }

  /** A completion is accepted exactly when the frame can be handled. An
      accepted one finalizes the frame and, when no finally handler throws,
      invokes every finally handler whatever the matching handlers did; when
      no handler at all throws it invokes the matching list and then the
      finally list, each in registration order. It throws exactly when some
      handler of either list throws. A refused one changes nothing and calls
      nobody. */
  lemma {:induction false} CompletionRunsFinally(f: Frame, kind: CompletionKind, arg: Value)
    ensures !CanHandle(f) ==> Completion(f, kind, arg) == Step(f, [], false)
    ensures CanHandle(f) ==>
      var s := Completion(f, kind, arg);
      var args := HandlerArgs(f, arg);
      var m := MatchingHandlers(f, kind);
      && s.frame == f.(isFinalized := true)
      && !CanHandle(s.frame)
      && (NoneFail(f.finallyHandlers) ==>
            forall i :: 0 <= i < |f.finallyHandlers| ==> Call(f.finallyHandlers[i], args) in s.calls)
      && (NoneFail(m) && NoneFail(f.finallyHandlers) ==> s.calls == Calls(m + f.finallyHandlers, args) && !s.thrown)
      && (s.thrown <==> !NoneFail(m) || !NoneFail(f.finallyHandlers))
  {
    if CanHandle(f) {
      SequentialRunsFinally(MatchingHandlers(f, kind), f.finallyHandlers, HandlerArgs(f, arg));
    }
  }

  /** `_reschedule` on a frame that can be handled clears the sending,
      acknowledgement and response times and the owning transport and keeps
      everything else, including readiness, payload and handlers; on a
      cancelled or finalized frame it does nothing. */
  lemma RescheduleClearsDelivery(f: Frame)
    ensures CanHandle(f) ==>
      && Rescheduled(f).sentAt.None? && Rescheduled(f).acknowledgedAt.None?
      && Rescheduled(f).responseAt.None? && Rescheduled(f).transport.None?
      && Rescheduled(f) == f.(sentAt := None, acknowledgedAt := None, responseAt := None, transport := None)
    ensures !CanHandle(f) ==> Rescheduled(f) == f
    ensures FrameValid(f) ==> FrameValid(Rescheduled(f))
  {
  }

  /** An acknowledgement is refused only for a cancelled frame; a finalized
      frame still records it and still runs its acknowledged handlers, and
      acknowledging never finalizes. */
  lemma AcknowledgeIgnoresFinalization(f: Frame, now: int)
    ensures !f.isCancelled ==>
      && Acknowledgement(f, now).frame.acknowledgedAt == Some(now)
      && Acknowledgement(f, now).calls == Run(f.acknowledgedHandlers, HandlerArgs(f, Num(now))).calls
    ensures Acknowledgement(f, now).frame.isFinalized == f.isFinalized
    ensures f.isCancelled ==> Acknowledgement(f, now) == Step(f, [], false)
  {
  }

  /** Once the frame has been sent, the checks as written and as corrected
      agree; they differ only on unsent frames. Both are false without a
      timeout or after the response (acknowledgement) has arrived. */
  lemma {:induction false} TimedChecksAgreeOnceSent(f: Frame, now: int)
    ensures f.sentAt.Some? ==> (IsTimed(f, now) <==> IsTimedAsWritten(f, now))
    ensures f.sentAt.Some? ==> (IsAcknowledgedTimed(f, now) <==> IsAcknowledgedTimedAsWritten(f, now))
    ensures f.timeout.None? || f.responseAt.Some? ==> !IsTimed(f, now) && !IsTimedAsWritten(f, now)
    ensures f.acknowledgeTimeout.None? || f.acknowledgedAt.Some? ==>
      !IsAcknowledgedTimed(f, now) && !IsAcknowledgedTimedAsWritten(f, now)
    ensures f.sentAt.None? ==> !IsTimed(f, now) && !IsAcknowledgedTimed(f, now)
  {
  }

  /** Counterexample: a frame with a response timeout of 100 (or an
      acknowledgement timeout of 100) that has not been sent counts as timed
      out at time 1000 by the source's computation, though it never left. */
  lemma UnsentFrameTimesOutAsWritten()
    ensures var f := NewFrame("m", "t", 0).(timeout := Some(100));
      IsTimedAsWritten(f, 1000) && !IsTimed(f, 1000)
    ensures var f := NewFrame("m", "t", 0).(acknowledgeTimeout := Some(100));
      IsAcknowledgedTimedAsWritten(f, 1000) && !IsAcknowledgedTimed(f, 1000)
  {
  }

  /** Once timed out, a frame stays timed out as time passes. */
  lemma TimedIsMonotonic(f: Frame, now: int, later: int)
    requires now <= later
    ensures IsTimed(f, now) ==> IsTimed(f, later)
    ensures IsAcknowledgedTimed(f, now) ==> IsAcknowledgedTimed(f, later)
  {
  }

  // ---------------------------------------------------------------------------
  // Whole lifetimes: any sequence of operations on one frame
  // ---------------------------------------------------------------------------

  /** Every operation the engine or the application can apply to a frame. */
  datatype FrameOp =
    | SetTimeout(millis: Option<int>)
    | SetAcknowledgeTimeout(millis: Option<int>)
    | AddHandler(list: HandlerList, listener: Listener)
    | DoSchedule(payload: Value, notification: bool)
    | DoCancel
    | DoReschedule
    | DoAcknowledge(now: int)
    | DoComplete(kind: CompletionKind, arg: Value)
    | DoMarkSent(now: int, transportId: string)

  function Apply(f: Frame, op: FrameOp): Step
  {
    match op
    case SetTimeout(ms) => Step(f.(timeout := ms), [], false)
    case SetAcknowledgeTimeout(ms) => Step(f.(acknowledgeTimeout := ms), [], false)
    case AddHandler(list, l) => Step(Register(f, list, l), [], false)
    case DoSchedule(p, n) =>
      (match Schedule(f, p, n)
       case Success(g) => Step(g, [], false)
       case Failure(_) => Step(f, [], true))
    case DoCancel => Step(Cancelled(f), [], false)
    case DoReschedule => Step(Rescheduled(f), [], false)
    case DoAcknowledge(now) => Acknowledgement(f, now)
    case DoComplete(kind, arg) => Completion(f, kind, arg)
    case DoMarkSent(now, t) => Step(MarkSent(f, now, t), [], false)
  }

  /** Number of completion attempts in `ops` that are accepted. */
  function AcceptedCompletions(f: Frame, ops: seq<FrameOp>): nat
    decreases |ops|
  {
    if ops == [] then 0
    else (if ops[0].DoComplete? && CanHandle(f) then 1 else 0) + AcceptedCompletions(Apply(f, ops[0]).frame, ops[1..])
  }

  /** Invocations of completion and finally handlers made along `ops`. */
  function CompletionCalls(f: Frame, ops: seq<FrameOp>): seq<Call>
    decreases |ops|
  {
    if ops == [] then []
    else (if ops[0].DoComplete? then Apply(f, ops[0]).calls else []) + CompletionCalls(Apply(f, ops[0]).frame, ops[1..])
  }

  /** A frame that can no longer be handled never becomes handleable again:
      no later completion is accepted and none calls a handler. */
  lemma {:induction false} OnceFinishedAlwaysFinished(f: Frame, ops: seq<FrameOp>)
    requires !CanHandle(f)
    ensures AcceptedCompletions(f, ops) == 0
    ensures CompletionCalls(f, ops) == []
    decreases |ops|
  {
    if ops != [] {
      OnceFinishedAlwaysFinished(Apply(f, ops[0]).frame, ops[1..]);
    }
  }

  /** At most one completion is ever accepted over a frame's whole life, and
      every completion handler invocation comes from that one completion. */
  lemma {:induction false} AtMostOneCompletion(f: Frame, ops: seq<FrameOp>)
    ensures AcceptedCompletions(f, ops) <= 1
    ensures AcceptedCompletions(f, ops) == 0 ==> CompletionCalls(f, ops) == []
    decreases |ops|
  {
    if ops != [] {
      var g := Apply(f, ops[0]).frame;
      if ops[0].DoComplete? && CanHandle(f) {
        OnceFinishedAlwaysFinished(g, ops[1..]);
      } else {
        AtMostOneCompletion(g, ops[1..]);
        if ops[0].DoComplete? {
          assert Apply(f, ops[0]).calls == [];
        }
      }
    }
  }

  /** Every operation keeps the frame invariant and the frame's id and topic. */
  lemma ApplyKeepsValid(f: Frame, op: FrameOp)
    requires FrameValid(f)
    ensures FrameValid(Apply(f, op).frame)
    ensures Apply(f, op).frame.id == f.id && Apply(f, op).frame.topic == f.topic
  {
  }

  // ---------------------------------------------------------------------------
  // The frame object
  // ---------------------------------------------------------------------------

  class MessageFrame {
    const id: string
    const topic: string
    const createdAt: int
    var transport: Option<string>
    var sentAt: Option<int>
    var acknowledgedAt: Option<int>
    var responseAt: Option<int>
    var timeout: Option<int>
    var acknowledgeTimeout: Option<int>
    var isCancelled: bool
    var isFinalized: bool
    var isReady: bool
    var isNotification: bool
    var payload: Value
    var completeHandlers: seq<Listener>
    var errorHandlers: seq<Listener>
    var finallyHandlers: seq<Listener>
    var acknowledgedHandlers: seq<Listener>
    var timedHandlers: seq<Listener>
    var acknowledgedTimedHandlers: seq<Listener>

    function State(): Frame
      reads this
    {
      Frame(id, topic, transport, createdAt, sentAt, acknowledgedAt, responseAt, timeout, acknowledgeTimeout,
            isCancelled, isFinalized, isReady, isNotification, payload,
            completeHandlers, errorHandlers, finallyHandlers, acknowledgedHandlers, timedHandlers,
            acknowledgedTimedHandlers)
    }

    ghost predicate Valid()
      reads this
    {
      FrameValid(State())
    }

    constructor(id: string, topic: string, now: int)
      ensures State() == NewFrame(id, topic, now)
      ensures sentAt.None? && acknowledgedAt.None? && responseAt.None? && transport.None?
      ensures timeout.None? && acknowledgeTimeout.None?
      ensures !isReady && !isNotification && !isCancelled && !isFinalized
      ensures Valid()
    {
      this.id := id;
      this.topic := topic;
      this.createdAt := now;
      transport := None;
      sentAt, acknowledgedAt, responseAt := None, None, None;
      timeout, acknowledgeTimeout := None, None;
      isCancelled, isFinalized, isReady, isNotification := false, false, false, false;
      payload := Null;
      completeHandlers, errorHandlers, finallyHandlers := [], [], [];
      acknowledgedHandlers, timedHandlers, acknowledgedTimedHandlers := [], [], [];
    }

    /** `withAcknowledgeTimeout`: `None` stands for `null` or `undefined`,
        either of which leaves the frame never acknowledgement-timed. */
    method WithAcknowledgeTimeout(millis: Option<int>)
      modifies this
      ensures State() == old(State()).(acknowledgeTimeout := millis)
    {
      acknowledgeTimeout := millis;
    }

    /** `withTimeout`: `None` stands for `null` or `undefined`, either of
        which leaves the frame never timed. */
    method WithTimeout(millis: Option<int>)
      modifies this
      ensures State() == old(State()).(timeout := millis)
    {
      timeout := millis;
    }

    /** `then`, `orElse`, `finally`, `whenAcknowledged`, `whenTimed` and
        `whenAcknowledgedTimed`: append to the named list. */
    method AddHandler(list: HandlerList, l: Listener)
      modifies this
      ensures State() == Register(old(State()), list, l)
    {
      match list
      case OnComplete => completeHandlers := completeHandlers + [l];
      case OnError => errorHandlers := errorHandlers + [l];
      case OnFinally => finallyHandlers := finallyHandlers + [l];
      case OnAcknowledged => acknowledgedHandlers := acknowledgedHandlers + [l];
      case OnTimed => timedHandlers := timedHandlers + [l];
      case OnAcknowledgedTimed => acknowledgedTimedHandlers := acknowledgedTimedHandlers + [l];
    }

    method Send(p: Value) returns (r: Result<(), FrameError>)
      modifies this
      ensures Schedule(old(State()), p, false).Success? ==> r.Success? && State() == Schedule(old(State()), p, false).value
      ensures Schedule(old(State()), p, false).Failure? ==>
        r == Failure(Schedule(old(State()), p, false).error) && State() == old(State())
    {
      if isReady || sentAt.Some? {
        return Failure(AlreadyScheduled);
      }
      if p.Binary? {
        return Failure(UnsupportedPayloadType);
      }
      payload := p;
      isReady := true;
      r := Success(());
    }

    method Notify(p: Value) returns (r: Result<(), FrameError>)
      modifies this
      ensures Schedule(old(State()), p, true).Success? ==> r.Success? && State() == Schedule(old(State()), p, true).value
      ensures Schedule(old(State()), p, true).Failure? ==>
        r == Failure(Schedule(old(State()), p, true).error) && State() == old(State())
    {
      if isReady || sentAt.Some? {
        return Failure(AlreadyScheduled);
      }
      if p.Binary? {
        return Failure(UnsupportedPayloadType);
      }
      payload := p;
      isNotification := true;
      isReady := true;
      r := Success(());
    }

    method Cancel()
      modifies this
      ensures State() == Cancelled(old(State()))
    {
      isCancelled := true;
    }

    method Reschedule()
      modifies this
      ensures State() == Rescheduled(old(State()))
    {
      if isCancelled || isFinalized {
        return;
      }
      sentAt, acknowledgedAt, responseAt := None, None, None;
      transport := None;
    }

    /** The shared body of the four completion methods. */
    method Finish(kind: CompletionKind, arg: Value) returns (calls: seq<Call>, thrown: bool)
      modifies this
      ensures var s := Completion(old(State()), kind, arg);
        State() == s.frame && calls == s.calls && thrown == s.thrown
    {
      if isCancelled || isFinalized {
        return [], false;
      }
      isFinalized := true;
      var matching := match kind
        case Completed => completeHandlers
        case Failed => errorHandlers
        case TimedOut => timedHandlers
        case AcknowledgeTimedOut => acknowledgedTimedHandlers;
      var args := [arg, FrameRef(id)];
      var tried, failed := Invoke(matching, args);
      var finalized, finalFailed := Invoke(finallyHandlers, args);
      calls, thrown := tried + finalized, failed || finalFailed;
    }

    method Complete(responsePayload: Value) returns (calls: seq<Call>, thrown: bool)
      modifies this
      ensures var s := Completion(old(State()), Completed, responsePayload);
        State() == s.frame && calls == s.calls && thrown == s.thrown
    {
      calls, thrown := Finish(Completed, responsePayload);
    }

    method CompleteFailed(error: Value) returns (calls: seq<Call>, thrown: bool)
      modifies this
      ensures var s := Completion(old(State()), Failed, error);
        State() == s.frame && calls == s.calls && thrown == s.thrown
    {
      calls, thrown := Finish(Failed, error);
    }

    method CompleteTimed() returns (calls: seq<Call>, thrown: bool)
      modifies this
      ensures var s := Completion(old(State()), TimedOut, Undefined);
        State() == s.frame && calls == s.calls && thrown == s.thrown
    {
      calls, thrown := Finish(TimedOut, Undefined);
    }

    method CompleteAcknowledgedTimed() returns (calls: seq<Call>, thrown: bool)
      modifies this
      ensures var s := Completion(old(State()), AcknowledgeTimedOut, Undefined);
        State() == s.frame && calls == s.calls && thrown == s.thrown
    {
      calls, thrown := Finish(AcknowledgeTimedOut, Undefined);
    }

    method Acknowledge(now: int) returns (calls: seq<Call>, thrown: bool)
      modifies this
      ensures var s := Acknowledgement(old(State()), now);
        State() == s.frame && calls == s.calls && thrown == s.thrown
    {
      if isCancelled {
        return [], false;
      }
      acknowledgedAt := Some(now);
      calls, thrown := Invoke(acknowledgedHandlers, [Num(now), FrameRef(id)]);
    }

    /** An acknowledgement or a completion, the two operations an incoming
        message applies to the frame it names. */
    method Respond(op: FrameOp) returns (calls: seq<Call>, thrown: bool)
      requires op.DoAcknowledge? || op.DoComplete?
      modifies this
      ensures var s := Apply(old(State()), op);
        State() == s.frame && calls == s.calls && thrown == s.thrown
      ensures old(Valid()) ==> Valid()
    {
      ghost var before := State();
      match op {
        case DoAcknowledge(now) =>
          calls, thrown := Acknowledge(now);
        case DoComplete(kind, arg) =>
          calls, thrown := Finish(kind, arg);
      }
      if FrameValid(before) {
        ApplyKeepsValid(before, op);
      }
    }
  }
}
