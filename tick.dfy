/** The periodic reconciliation of a client's buffer (`_tick`), stated on
    frame snapshots. Four of its passes visit the frames one by one; the
    others are removal policies of the buffer. */
module Reconciliation {
  import opened Wrappers
  import opened Listeners
  import opened Seqs
  import opened MessageFrames
  import opened MessageBuffers
  import opened Envelope

  /** The passes of a tick that visit frames one at a time. `TimeOut` and
      `AcknowledgeTimeOut` select with the corrected checks `IsTimed` and
      `IsAcknowledgedTimed`; `TimeOutAsWritten` and
      `AcknowledgeTimeOutAsWritten` select with the checks as the source
      computes them, and otherwise do the same. */
  datatype Sweep = TimeOut | AcknowledgeTimeOut | RescheduleLost | SendUnsent
                 | TimeOutAsWritten | AcknowledgeTimeOutAsWritten

  /** The frames a pass visits: those its buffer view selects. */
  predicate Selected(sw: Sweep, f: Frame, now: int, transportId: string)
  {
    match sw
    case TimeOut => IsTimed(f, now)
    case AcknowledgeTimeOut => IsAcknowledgedTimed(f, now)
    case RescheduleLost => LostTransport(f, transportId)
    case SendUnsent => Unsent(f)
    case TimeOutAsWritten => IsTimedAsWritten(f, now)
    case AcknowledgeTimeOutAsWritten => IsAcknowledgedTimedAsWritten(f, now)
  }

  /** What visiting one frame does: the frame's new state, the handler
      invocations, the texts handed to the transport, the ids reported as
      rescheduled, and whether an exception escaped. */
  datatype Effect = Effect(frame: Frame, calls: seq<Call>, sent: seq<Outgoing>, rescheduled: seq<string>, thrown: bool)

  /** The body each pass runs on a selected frame: `_completeTimed`,
      `_completeAcknowledgedTimed`, `_reschedule` followed by the rescheduled
      event, and `_sendFrame` followed by stamping the sending time and the
      transport (`_sendFrame` throws before the stamp for a binary payload). */
  function Touch(sw: Sweep, f: Frame, now: int, transportId: string): Effect
  {
    match sw
    case TimeOut | TimeOutAsWritten =>
      var s := Completion(f, TimedOut, Undefined);
      Effect(s.frame, s.calls, [], [], s.thrown)
    case AcknowledgeTimeOut | AcknowledgeTimeOutAsWritten =>
      var s := Completion(f, AcknowledgeTimedOut, Undefined);
      Effect(s.frame, s.calls, [], [], s.thrown)
    case RescheduleLost => Effect(Rescheduled(f), [], [], [f.id], false)
    case SendUnsent =>
      match EncodeFrame(f)
      case Failure(_) => Effect(f, [], [], [], true)
      case Success(o) => Effect(MarkSent(f, now, transportId), [], [o], [], false)
  }

  /** The state of one frame after a pass that did not throw. */
  function Touched(sw: Sweep, f: Frame, now: int, transportId: string): Frame
  {
    if Selected(sw, f, now, transportId) then Touch(sw, f, now, transportId).frame else f
  }

  /** The outcome of a pass over a list of frames. */
  datatype Pass = Pass(frames: seq<Frame>, calls: seq<Call>, sent: seq<Outgoing>, rescheduled: seq<string>, thrown: bool)

  /** A pass visits the selected frames in buffer order and stops at the
      first one whose body throws; the frames after it keep their state. */
  function SweepAll(sw: Sweep, fs: seq<Frame>, now: int, transportId: string): (p: Pass)
    ensures |p.frames| == |fs|
  {
    if fs == [] then Pass([], [], [], [], false)
    else if !Selected(sw, fs[0], now, transportId) then
      var rest := SweepAll(sw, fs[1..], now, transportId);
      rest.(frames := [fs[0]] + rest.frames)
    else
      var e := Touch(sw, fs[0], now, transportId);
      if e.thrown then Pass([e.frame] + fs[1..], e.calls, e.sent, e.rescheduled, true)
      else
        var rest := SweepAll(sw, fs[1..], now, transportId);
        Pass([e.frame] + rest.frames, e.calls + rest.calls, e.sent + rest.sent,
             e.rescheduled + rest.rescheduled, rest.thrown)
  }

  /** The frames a pass selects, in order. */
  function SelectedFrames(sw: Sweep, fs: seq<Frame>, now: int, transportId: string): (r: seq<Frame>)
    ensures forall i :: 0 <= i < |r| ==> r[i] in fs && Selected(sw, r[i], now, transportId)
    ensures forall i :: 0 <= i < |fs| && Selected(sw, fs[i], now, transportId) ==> fs[i] in r
  {
    if fs == [] then []
    else (if Selected(sw, fs[0], now, transportId) then [fs[0]] else []) + SelectedFrames(sw, fs[1..], now, transportId)
  }

  function Ids(fs: seq<Frame>): (r: seq<string>)
    ensures |r| == |fs| && forall i :: 0 <= i < |fs| ==> r[i] == fs[i].id
  {
    if fs == [] then [] else [fs[0].id] + Ids(fs[1..])
  }

  // ---------------------------------------------------------------------------
  // Properties of one pass
  // ---------------------------------------------------------------------------

  /** Visiting `f` throws. */
  predicate Throws(sw: Sweep, f: Frame, now: int, transportId: string)
  {
    Selected(sw, f, now, transportId) && Touch(sw, f, now, transportId).thrown
  }

  /** The first step of a pass, as its definition gives it. */
  lemma SweepUnfold(sw: Sweep, fs: seq<Frame>, now: int, transportId: string)
    requires fs != []
    ensures var p := SweepAll(sw, fs, now, transportId);
      var rest := SweepAll(sw, fs[1..], now, transportId);
      && (Throws(sw, fs[0], now, transportId) ==> p.thrown)
      && (!Throws(sw, fs[0], now, transportId) ==>
            p.thrown == rest.thrown && p.frames == [Touched(sw, fs[0], now, transportId)] + rest.frames)
  {
  }

  /** A pass throws exactly when the body throws on some selected frame. */
  lemma {:induction false} SweepThrows(sw: Sweep, fs: seq<Frame>, now: int, transportId: string)
    ensures SweepAll(sw, fs, now, transportId).thrown <==>
      exists i :: 0 <= i < |fs| && Throws(sw, fs[i], now, transportId)
  {
    if fs != [] {
      SweepThrows(sw, fs[1..], now, transportId);
      SweepUnfold(sw, fs, now, transportId);
      if exists i :: 0 <= i < |fs[1..]| && Throws(sw, fs[1..][i], now, transportId) {
        var i :| 0 <= i < |fs[1..]| && Throws(sw, fs[1..][i], now, transportId);
        assert fs[i + 1] == fs[1..][i];
      }
      if exists i :: 0 <= i < |fs| && Throws(sw, fs[i], now, transportId) {
        var i :| 0 <= i < |fs| && Throws(sw, fs[i], now, transportId);
        if i > 0 {
          assert fs[1..][i - 1] == fs[i];
        }
      }
    }
  }

  /** A pass that does not throw touches every frame independently of the
      others. */
  lemma {:induction false} SweepPointwise(sw: Sweep, fs: seq<Frame>, now: int, transportId: string)
    ensures var p := SweepAll(sw, fs, now, transportId);
      !p.thrown ==> forall i :: 0 <= i < |fs| ==> p.frames[i] == Touched(sw, fs[i], now, transportId)
  {
    if fs != [] {
      SweepPointwise(sw, fs[1..], now, transportId);
      SweepUnfold(sw, fs, now, transportId);
      var p := SweepAll(sw, fs, now, transportId);
      if !p.thrown {
        forall i | 0 <= i < |fs|
          ensures p.frames[i] == Touched(sw, fs[i], now, transportId)
        {
          if i > 0 {
            assert fs[1..][i - 1] == fs[i];
          }
        }
      }
    }
  }

  /** Completion passes only call handlers, rescheduling only reports ids,
      and sending only hands texts to the transport. */
  lemma {:induction false} SweepOutputs(sw: Sweep, fs: seq<Frame>, now: int, transportId: string)
    ensures var p := SweepAll(sw, fs, now, transportId);
      && (sw != SendUnsent ==> p.sent == [])
      && (sw != RescheduleLost ==> p.rescheduled == [])
      && (sw == RescheduleLost || sw == SendUnsent ==> p.calls == [])
  {
    if fs != [] {
      SweepOutputs(sw, fs[1..], now, transportId);
    }
  }

  /** Rescheduling never throws and reports the id of each frame it
      selects, in buffer order. */
  lemma {:induction false} SweepReschedules(fs: seq<Frame>, now: int, transportId: string)
    ensures var p := SweepAll(RescheduleLost, fs, now, transportId);
      !p.thrown && p.rescheduled == Ids(SelectedFrames(RescheduleLost, fs, now, transportId))
  {
    if fs != [] {
      SweepReschedules(fs[1..], now, transportId);
      var rest := SelectedFrames(RescheduleLost, fs[1..], now, transportId);
      if Selected(RescheduleLost, fs[0], now, transportId) {
        assert Ids([fs[0]] + rest) == [fs[0].id] + Ids(rest);
      }
    }
  }

  /** Sending that does not throw hands out the encoding of each frame it
      selects, once and in buffer order. */
  lemma {:induction false} SweepSends(fs: seq<Frame>, now: int, transportId: string)
    ensures var p := SweepAll(SendUnsent, fs, now, transportId);
      var r := SelectedFrames(SendUnsent, fs, now, transportId);
      !p.thrown ==> |p.sent| == |r| && forall k :: 0 <= k < |r| ==> EncodeFrame(r[k]) == Success(p.sent[k])
  {
    if fs != [] {
      SweepSends(fs[1..], now, transportId);
      SweepSendUnfold(fs, now, transportId);
      var p := SweepAll(SendUnsent, fs, now, transportId);
      var rest := SweepAll(SendUnsent, fs[1..], now, transportId);
      var r := SelectedFrames(SendUnsent, fs, now, transportId);
      var r1 := SelectedFrames(SendUnsent, fs[1..], now, transportId);
      if !p.thrown {
        if Unsent(fs[0]) {
          assert r == [fs[0]] + r1;
          forall k | 0 <= k < |r|
            ensures EncodeFrame(r[k]) == Success(p.sent[k])
          {
            if k > 0 {
              assert r[k] == r1[k - 1] && p.sent[k] == rest.sent[k - 1];
            }
          }
        } else {
          assert r == r1;
        }
      }
    }
  }

  lemma SweepSendUnfold(fs: seq<Frame>, now: int, transportId: string)
    requires fs != []
    ensures var p := SweepAll(SendUnsent, fs, now, transportId);
      var rest := SweepAll(SendUnsent, fs[1..], now, transportId);
      !p.thrown ==>
        && !rest.thrown
        && (Unsent(fs[0]) ==> EncodeFrame(fs[0]).Success? && p.sent == [EncodeFrame(fs[0]).value] + rest.sent)
        && (!Unsent(fs[0]) ==> p.sent == rest.sent)
  {
  }

  /** A pass changes neither a frame's identity, payload, readiness,
      cancellation nor handler lists, keeps the frame invariant, and only
      ever sets `isFinalized`, never clears it. */
  lemma TouchedKeeps(sw: Sweep, f: Frame, now: int, transportId: string)
    ensures var g := Touched(sw, f, now, transportId);
      && g.id == f.id && g.topic == f.topic && g.payload == f.payload
      && g.isReady == f.isReady && g.isNotification == f.isNotification && g.isCancelled == f.isCancelled
      && (f.isFinalized ==> g.isFinalized)
      && g.timedHandlers == f.timedHandlers && g.acknowledgedTimedHandlers == f.acknowledgedTimedHandlers
      && g.finallyHandlers == f.finallyHandlers
    ensures FrameValid(f) ==> FrameValid(Touched(sw, f, now, transportId))
  {
  }

  // ---------------------------------------------------------------------------
  // The whole tick
  // ---------------------------------------------------------------------------

  datatype TickOutcome = TickOutcome(frames: seq<Frame>, calls: seq<Call>, sent: seq<Outgoing>,
                                     rescheduled: seq<string>, thrown: bool)

  /** The frames that survive the first two removals. */
  function Survivors(fs: seq<Frame>): seq<Frame>
  {
    Reject(Reject(fs, IsCancelledFrame), AcknowledgedNotification)
  }

  /** `_tick` on a live client whose buffer holds `fs`, at time `now`, with
      the current transport `transportId` ready or not. An exception from a
      frame handler or from `_sendFrame` leaves the tick at once, skipping
      the later passes and the final removal. */
  function Tick(fs: seq<Frame>, now: int, ready: bool, transportId: string): TickOutcome
  {
    var timed := SweepAll(TimeOut, Survivors(fs), now, transportId);
    if timed.thrown then TickOutcome(timed.frames, timed.calls, [], [], true)
    else
      var acked := SweepAll(AcknowledgeTimeOut, timed.frames, now, transportId);
      var calls := timed.calls + acked.calls;
      if acked.thrown then TickOutcome(acked.frames, calls, [], [], true)
      else Delivery(acked.frames, now, ready, transportId).(calls := calls)
  }

  /** The rest of a tick once the timeout passes have not thrown: the
      offline removal, or rescheduling and sending, then the removal of
      finalized frames unless sending threw. It calls no handler. */
  function Delivery(fs: seq<Frame>, now: int, ready: bool, transportId: string): TickOutcome
  {
    if !ready then TickOutcome(Reject(Reject(fs, DiscardIfOffline), IsFinalizedFrame), [], [], [], false)
    else
      var lost := SweepAll(RescheduleLost, fs, now, transportId);
      var sending := SweepAll(SendUnsent, lost.frames, now, transportId);
      if sending.thrown then TickOutcome(sending.frames, [], sending.sent, lost.rescheduled, true)
      else TickOutcome(Reject(sending.frames, IsFinalizedFrame), [], sending.sent, lost.rescheduled, false)
  }

  /** What a tick that does not throw does to one surviving frame. */
  function Fate(f: Frame, now: int, ready: bool, transportId: string): Frame
  {
    var g := Touched(AcknowledgeTimeOut, Touched(TimeOut, f, now, transportId), now, transportId);
    if !ready then g
    else Touched(SendUnsent, Touched(RescheduleLost, g, now, transportId), now, transportId)
  }

  function Fates(fs: seq<Frame>, now: int, ready: bool, transportId: string): (r: seq<Frame>)
    ensures |r| == |fs| && forall i :: 0 <= i < |fs| ==> r[i] == Fate(fs[i], now, ready, transportId)
  {
    if fs == [] then [] else [Fate(fs[0], now, ready, transportId)] + Fates(fs[1..], now, ready, transportId)
  }

  /** The two timeout passes, when neither throws, touch each frame on its
      own. */
  lemma TimeoutsPointwise(s: seq<Frame>, now: int, transportId: string)
    ensures var timed := SweepAll(TimeOut, s, now, transportId);
      var acked := SweepAll(AcknowledgeTimeOut, timed.frames, now, transportId);
      !timed.thrown && !acked.thrown ==>
        forall i :: 0 <= i < |s| ==>
          acked.frames[i] == Touched(AcknowledgeTimeOut, Touched(TimeOut, s[i], now, transportId), now, transportId)
  {
    var timed := SweepAll(TimeOut, s, now, transportId);
    SweepPointwise(TimeOut, s, now, transportId);
    SweepPointwise(AcknowledgeTimeOut, timed.frames, now, transportId);
  }

  /** The rescheduling and sending passes, when neither throws, touch each
      frame on its own. */
  lemma DeliveryPointwise(fs: seq<Frame>, now: int, transportId: string)
    ensures var lost := SweepAll(RescheduleLost, fs, now, transportId);
      var sending := SweepAll(SendUnsent, lost.frames, now, transportId);
      !lost.thrown && !sending.thrown ==>
        forall i :: 0 <= i < |fs| ==>
          sending.frames[i] == Touched(SendUnsent, Touched(RescheduleLost, fs[i], now, transportId), now, transportId)
  {
    var lost := SweepAll(RescheduleLost, fs, now, transportId);
    SweepPointwise(RescheduleLost, fs, now, transportId);
    SweepPointwise(SendUnsent, lost.frames, now, transportId);
  }

  /** A tick that does not throw treats every frame on its own: the buffer
      afterwards is the fate of each surviving frame, in order, minus the
      finalized ones. */
  lemma TickIsPerFrame(fs: seq<Frame>, now: int, ready: bool, transportId: string)
    ensures var t := Tick(fs, now, ready, transportId);
      !t.thrown ==> t.frames == Reject(Fates(Survivors(fs), now, ready, transportId), IsFinalizedFrame)
  {
    var s := Survivors(fs);
    var timed := SweepAll(TimeOut, s, now, transportId);
    var acked := SweepAll(AcknowledgeTimeOut, timed.frames, now, transportId);
    TimeoutsPointwise(s, now, transportId);
    if !timed.thrown && !acked.thrown {
      var fates := Fates(s, now, ready, transportId);
      if !ready {
        RejectNothing(acked.frames);
        assert acked.frames == fates;
      } else {
        SweepReschedules(acked.frames, now, transportId);
        DeliveryPointwise(acked.frames, now, transportId);
        var lost := SweepAll(RescheduleLost, acked.frames, now, transportId);
        var sending := SweepAll(SendUnsent, lost.frames, now, transportId);
        assert !sending.thrown ==> sending.frames == fates;
      }
    }
  }

  /** A tick on a transport that is not ready sends nothing and reschedules
      nothing. */
  lemma OfflineTickSendsNothing(fs: seq<Frame>, now: int, transportId: string)
    ensures Tick(fs, now, false, transportId).sent == [] && Tick(fs, now, false, transportId).rescheduled == []
  {
  }

  /** The survivors of the first two removals are the frames that are
      neither cancelled nor acknowledged notifications. */
  lemma SurvivorsOf(fs: seq<Frame>)
    ensures forall i :: 0 <= i < |Survivors(fs)| ==>
      Survivors(fs)[i] in fs && !Survivors(fs)[i].isCancelled && !AcknowledgedNotification(Survivors(fs)[i])
    ensures forall i :: 0 <= i < |fs| && !fs[i].isCancelled && !AcknowledgedNotification(fs[i]) ==> fs[i] in Survivors(fs)
  {
    var c := Reject(fs, IsCancelledFrame);
    forall i | 0 <= i < |fs| && !fs[i].isCancelled && !AcknowledgedNotification(fs[i])
      ensures fs[i] in Survivors(fs)
    {
      assert fs[i] in c;
      var k :| 0 <= k < |c| && c[k] == fs[i];
    }
    forall i | 0 <= i < |Survivors(fs)|
      ensures Survivors(fs)[i] in fs && !Survivors(fs)[i].isCancelled
    {
      assert Survivors(fs)[i] in c;
    }
  }

  /** No pass throws on a valid frame whose timed, acknowledgement-timed
      and finally handlers do not throw. */
  lemma FrameNeverThrows(f: Frame, now: int, transportId: string)
    requires FrameValid(f)
    requires NoneFail(f.timedHandlers) && NoneFail(f.acknowledgedTimedHandlers) && NoneFail(f.finallyHandlers)
    ensures !Throws(TimeOut, f, now, transportId)
    ensures var a := Touched(TimeOut, f, now, transportId);
      !Throws(AcknowledgeTimeOut, a, now, transportId)
    ensures var b := Touched(AcknowledgeTimeOut, Touched(TimeOut, f, now, transportId), now, transportId);
      !Throws(SendUnsent, Touched(RescheduleLost, b, now, transportId), now, transportId)
  {
    CompletionRunsFinally(f, TimedOut, Undefined);
    var a := Touched(TimeOut, f, now, transportId);
    TouchedKeeps(TimeOut, f, now, transportId);
    CompletionRunsFinally(a, AcknowledgeTimedOut, Undefined);
    var b := Touched(AcknowledgeTimeOut, a, now, transportId);
    TouchedKeeps(AcknowledgeTimeOut, a, now, transportId);
    TouchedKeeps(RescheduleLost, b, now, transportId);
  }

  /** When every frame is valid and no timed, acknowledgement-timed or
      finally handler throws, the tick runs to the end. */
  lemma TickNeverThrows(fs: seq<Frame>, now: int, ready: bool, transportId: string)
    requires forall i :: 0 <= i < |fs| ==> FrameValid(fs[i])
    requires forall i :: 0 <= i < |fs| ==>
      NoneFail(fs[i].timedHandlers) && NoneFail(fs[i].acknowledgedTimedHandlers) && NoneFail(fs[i].finallyHandlers)
    ensures !Tick(fs, now, ready, transportId).thrown
  {
    var s := Survivors(fs);
    SurvivorsOf(fs);
    forall i | 0 <= i < |s|
      ensures !Throws(TimeOut, s[i], now, transportId)
      ensures !Throws(AcknowledgeTimeOut, Touched(TimeOut, s[i], now, transportId), now, transportId)
      ensures var b := Touched(AcknowledgeTimeOut, Touched(TimeOut, s[i], now, transportId), now, transportId);
        !Throws(SendUnsent, Touched(RescheduleLost, b, now, transportId), now, transportId)
    {
      var k :| 0 <= k < |fs| && fs[k] == s[i];
      FrameNeverThrows(s[i], now, transportId);
    }
    SweepThrows(TimeOut, s, now, transportId);
    SweepPointwise(TimeOut, s, now, transportId);
    var timed := SweepAll(TimeOut, s, now, transportId);
    SweepThrows(AcknowledgeTimeOut, timed.frames, now, transportId);
    if ready {
      SweepPointwise(AcknowledgeTimeOut, timed.frames, now, transportId);
      var acked := SweepAll(AcknowledgeTimeOut, timed.frames, now, transportId);
      SweepReschedules(acked.frames, now, transportId);
      SweepPointwise(RescheduleLost, acked.frames, now, transportId);
      var lost := SweepAll(RescheduleLost, acked.frames, now, transportId);
      SweepThrows(SendUnsent, lost.frames, now, transportId);
    }
  }

  // ---------------------------------------------------------------------------
  // The fate of one frame
  // ---------------------------------------------------------------------------

  /** A frame that is ready and not yet sent is handed to a ready transport
      and stamped with the time and the transport. */
  lemma FateOfUnsent(f: Frame, now: int, transportId: string)
    requires Unsent(f) && !f.payload.Binary?
    ensures Fate(f, now, true, transportId) == MarkSent(f, now, transportId)
  {
  }

  /** A frame last sent by the current transport is neither rescheduled nor
      sent again, ready transport or not. */
  lemma FateOfCurrent(f: Frame, now: int, ready: bool, transportId: string)
    requires f.sentAt.Some? && f.transport == Some(transportId)
    ensures Fate(f, now, ready, transportId).sentAt == f.sentAt
    ensures Fate(f, now, ready, transportId).transport == f.transport
  {
  }

  /** A frame sent by an earlier transport that has not timed out is
      rescheduled and sent again through the current one. */
  lemma FateOfLost(f: Frame, now: int, transportId: string)
    requires LostTransport(f, transportId) && !IsTimed(f, now) && !IsAcknowledgedTimed(f, now) && !f.payload.Binary?
    ensures Fate(f, now, true, transportId) == MarkSent(Rescheduled(f), now, transportId)
  {
  }

  /** A handleable frame whose response or acknowledgement timeout has run
      out is finalized, so the tick removes it. */
  lemma FateOfTimedOut(f: Frame, now: int, ready: bool, transportId: string)
    requires CanHandle(f) && (IsTimed(f, now) || IsAcknowledgedTimed(f, now))
    ensures Fate(f, now, ready, transportId).isFinalized
  {
    TouchedKeeps(TimeOut, f, now, transportId);
    var g := Touched(TimeOut, f, now, transportId);
    TouchedKeeps(AcknowledgeTimeOut, g, now, transportId);
    var h := Touched(AcknowledgeTimeOut, g, now, transportId);
    assert h.isFinalized;
    TouchedKeeps(RescheduleLost, h, now, transportId);
    TouchedKeeps(SendUnsent, Touched(RescheduleLost, h, now, transportId), now, transportId);
  }

  /** Without a ready transport, no frame changes its sending time or its
      transport. */
  lemma FateOffline(f: Frame, now: int, transportId: string)
    ensures Fate(f, now, false, transportId).sentAt == f.sentAt
    ensures Fate(f, now, false, transportId).transport == f.transport
  {
  }

  /** After a ready tick, a frame that is still handleable and ready has been
      sent, by the current transport. Every fate keeps the frame invariant. */
  lemma FateWhenReady(f: Frame, now: int, transportId: string)
    requires FrameValid(f)
    ensures var g := Fate(f, now, true, transportId);
      CanHandle(g) && g.isReady ==> g.sentAt.Some? && g.transport == Some(transportId)
    ensures forall ready :: FrameValid(Fate(f, now, ready, transportId)) && Fate(f, now, ready, transportId).id == f.id
  {
    var a := Touched(TimeOut, f, now, transportId);
    TouchedKeeps(TimeOut, f, now, transportId);
    var b := Touched(AcknowledgeTimeOut, a, now, transportId);
    TouchedKeeps(AcknowledgeTimeOut, a, now, transportId);
    var c := Touched(RescheduleLost, b, now, transportId);
    TouchedKeeps(RescheduleLost, b, now, transportId);
    TouchedKeeps(SendUnsent, c, now, transportId);
  }

  /** After a ready tick that did not throw, every buffered frame is
      handleable and valid, and each ready one has been sent through the
      current transport. */
  lemma ReadyTickLeavesAllSent(fs: seq<Frame>, now: int, transportId: string)
    requires forall i :: 0 <= i < |fs| ==> FrameValid(fs[i])
    ensures var t := Tick(fs, now, true, transportId);
      !t.thrown ==> forall i :: 0 <= i < |t.frames| ==>
        var g := t.frames[i];
        CanHandle(g) && FrameValid(g) && (g.isReady ==> g.sentAt.Some? && g.transport == Some(transportId))
  {
    var t := Tick(fs, now, true, transportId);
    if !t.thrown {
      TickIsPerFrame(fs, now, true, transportId);
      SurvivorsOf(fs);
      var s := Survivors(fs);
      var fates := Fates(s, now, true, transportId);
      forall i | 0 <= i < |t.frames|
        ensures CanHandle(t.frames[i]) && FrameValid(t.frames[i])
        ensures t.frames[i].isReady ==> t.frames[i].sentAt.Some? && t.frames[i].transport == Some(transportId)
      {
        var g := t.frames[i];
        assert g in fates && !g.isFinalized;
        var k :| 0 <= k < |fates| && fates[k] == g;
        var j :| 0 <= j < |fs| && fs[j] == s[k];
        FateWhenReady(s[k], now, transportId);
        TouchedKeepsCancel(s[k], now, transportId);
      }
    }
  }

  /** Every frame that was ready, unsent and handleable before a ready tick
      that did not throw is still buffered afterwards, stamped with the
      tick's time and the current transport. */
  lemma ReadyTickSendsUnsent(fs: seq<Frame>, now: int, transportId: string)
    requires forall i :: 0 <= i < |fs| ==> FrameValid(fs[i])
    ensures var t := Tick(fs, now, true, transportId);
      !t.thrown ==> forall i :: 0 <= i < |fs| && Unsent(fs[i]) && CanHandle(fs[i]) && !AcknowledgedNotification(fs[i]) ==>
        MarkSent(fs[i], now, transportId) in t.frames
  {
    var t := Tick(fs, now, true, transportId);
    if !t.thrown {
      TickIsPerFrame(fs, now, true, transportId);
      SurvivorsOf(fs);
      var s := Survivors(fs);
      var fates := Fates(s, now, true, transportId);
      forall i | 0 <= i < |fs| && Unsent(fs[i]) && CanHandle(fs[i]) && !AcknowledgedNotification(fs[i])
        ensures MarkSent(fs[i], now, transportId) in t.frames
      {
        var j :| 0 <= j < |s| && s[j] == fs[i];
        FateOfUnsent(fs[i], now, transportId);
        assert fates[j] == MarkSent(fs[i], now, transportId);
        assert !IsFinalizedFrame(fates[j]);
      }
    }
  }

  /** A surviving frame is not cancelled, and a tick cancels nothing. */
  lemma TouchedKeepsCancel(f: Frame, now: int, transportId: string)
    requires !f.isCancelled
    ensures forall ready :: !Fate(f, now, ready, transportId).isCancelled
  {
    var a := Touched(TimeOut, f, now, transportId);
    TouchedKeeps(TimeOut, f, now, transportId);
    var b := Touched(AcknowledgeTimeOut, a, now, transportId);
    TouchedKeeps(AcknowledgeTimeOut, a, now, transportId);
    var c := Touched(RescheduleLost, b, now, transportId);
    TouchedKeeps(RescheduleLost, b, now, transportId);
    TouchedKeeps(SendUnsent, c, now, transportId);
  }

  // ---------------------------------------------------------------------------
  // The tick as written
  // ---------------------------------------------------------------------------

  /** `_tick` with its timeout passes selecting as the source computes
      `_isTimed` and `_isAcknowledgedTimed`, where a frame that was never
      sent counts its timeout from time 0. The later passes are `Tick`'s. */
  function TickAsWritten(fs: seq<Frame>, now: int, ready: bool, transportId: string): TickOutcome
  {
    var timed := SweepAll(TimeOutAsWritten, Survivors(fs), now, transportId);
    if timed.thrown then TickOutcome(timed.frames, timed.calls, [], [], true)
    else
      var acked := SweepAll(AcknowledgeTimeOutAsWritten, timed.frames, now, transportId);
      var calls := timed.calls + acked.calls;
      if acked.thrown then TickOutcome(acked.frames, calls, [], [], true)
      else Delivery(acked.frames, now, ready, transportId).(calls := calls)
  }

  predicate AllSent(fs: seq<Frame>)
  {
    forall i :: 0 <= i < |fs| ==> fs[i].sentAt.Some?
  }

  /** Over frames that have all been sent, each timeout pass does the same
      as written and as corrected, and the response timeout pass leaves
      every frame sent. */
  lemma {:induction false} TimeoutSweepsAgreeOnceSent(fs: seq<Frame>, now: int, transportId: string)
    requires AllSent(fs)
    ensures SweepAll(TimeOutAsWritten, fs, now, transportId) == SweepAll(TimeOut, fs, now, transportId)
    ensures SweepAll(AcknowledgeTimeOutAsWritten, fs, now, transportId) == SweepAll(AcknowledgeTimeOut, fs, now, transportId)
    ensures AllSent(SweepAll(TimeOut, fs, now, transportId).frames)
  {
    if fs != [] {
      TimedChecksAgreeOnceSent(fs[0], now);
      assert AllSent(fs[1..]) by {
        forall i | 0 <= i < |fs[1..]| ensures fs[1..][i].sentAt.Some? {
          assert fs[1..][i] == fs[i + 1];
        }
      }
      TimeoutSweepsAgreeOnceSent(fs[1..], now, transportId);
    }
  }

  /** When every buffered frame has been sent, the tick as written and the
      corrected tick have the same outcome. */
  lemma TickAgreesOnceSent(fs: seq<Frame>, now: int, ready: bool, transportId: string)
    requires AllSent(fs)
    ensures TickAsWritten(fs, now, ready, transportId) == Tick(fs, now, ready, transportId)
  {
    var s := Survivors(fs);
    SurvivorsOf(fs);
    assert AllSent(s) by {
      forall i | 0 <= i < |s| ensures s[i].sentAt.Some? {
        var k :| 0 <= k < |fs| && fs[k] == s[i];
      }
    }
    TimeoutSweepsAgreeOnceSent(s, now, transportId);
    TimeoutSweepsAgreeOnceSent(SweepAll(TimeOut, s, now, transportId).frames, now, transportId);
  }

  /** Counterexample: a ready frame that was never sent, with a response
      timeout of 100 and one timed handler, at time 1000 on a ready
      transport. As written, the timeout pass finalizes it and runs the
      timed handler, the send pass still sends it, and the final removal
      drops it; corrected, it is sent, no handler runs, and it stays. */
  lemma UnsentFrameTimedOutByTickAsWritten()
    ensures var f := NewFrame("m", "t", 0).(timeout := Some(100), isReady := true, timedHandlers := [Listener(1, false)]);
      var w := TickAsWritten([f], 1000, true, "x");
      var t := Tick([f], 1000, true, "x");
      && !w.thrown && w.frames == [] && w.calls == [Call(Listener(1, false), [Undefined, FrameRef("m")])]
      && !t.thrown && t.frames == [MarkSent(f, 1000, "x")] && t.calls == []
      && |w.sent| == 1 && w.sent == t.sent
  {
    var f := NewFrame("m", "t", 0).(timeout := Some(100), isReady := true, timedHandlers := [Listener(1, false)]);
    assert Survivors([f]) == [f];
    var g := f.(isFinalized := true);
    var call := Call(Listener(1, false), [Undefined, FrameRef("m")]);
    assert IsTimedAsWritten(f, 1000) && !IsTimed(f, 1000);
    assert Run([Listener(1, false)], [Undefined, FrameRef("m")]) == Outcome([call], false);
    assert SweepAll(TimeOutAsWritten, [f], 1000, "x") == Pass([g], [call], [], [], false);
    assert SweepAll(AcknowledgeTimeOutAsWritten, [g], 1000, "x") == Pass([g], [], [], [], false);
    assert SweepAll(TimeOut, [f], 1000, "x") == Pass([f], [], [], [], false);
    assert SweepAll(AcknowledgeTimeOut, [f], 1000, "x") == Pass([f], [], [], [], false);
    var o := EncodeFrame(f).value;
    assert EncodeFrame(g) == EncodeFrame(f);
    assert SweepAll(RescheduleLost, [g], 1000, "x") == Pass([g], [], [], [], false);
    assert SweepAll(SendUnsent, [g], 1000, "x") == Pass([MarkSent(g, 1000, "x")], [], [o], [], false);
    assert Reject([MarkSent(g, 1000, "x")], IsFinalizedFrame) == [];
    assert SweepAll(RescheduleLost, [f], 1000, "x") == Pass([f], [], [], [], false);
    assert SweepAll(SendUnsent, [f], 1000, "x") == Pass([MarkSent(f, 1000, "x")], [], [o], [], false);
    assert Reject([MarkSent(f, 1000, "x")], IsFinalizedFrame) == [MarkSent(f, 1000, "x")];
  }
}
