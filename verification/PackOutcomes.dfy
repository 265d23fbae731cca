/** What the callers of the write queue are told: each result has its reason, and a pack is accepted
    exactly when it was written. */
module PackOutcomes {
  import opened Values
  import opened Mqtt
  import opened MqttRoundTrip
  import opened PackQueue

  // ------------------------------------------------------------ calls only move forward

  function Stage(pc: Pc): nat
  {
    match pc
    case Start => 0
    case Locked(_) => 1
    case Writing => 2
    case Sending(_) => 3
    case SetError => 4
    case CloseChannel => 5
    case SetStatus => 6
    case Done(_) => 7
  }

  predicate IsOf(step: Step, id: nat)
  {
    match step
    case TakeLock(k) => k == id
    case Check(k) => k == id
    case Write(k, _) => k == id
    case WriteFails(k, _, _) => k == id
    case WritePanics(k) => k == id
    case Send(k) => k == id
    case SendPanics(k) => k == id
    case CloseStep(k) => k == id
    case _ => false
  }

  /** What the step saw when it gave the result. */
  ghost predicate Reason(s: State, step: Step, id: nat, result: Result)
  {
    && id in s.calls
    && match result
       case Accepted => step == Send(id) && s.calls[id].pc == Sending(false)
       case Disconnected => step == Check(id) && !s.connected
       case WriteError => step == Check(id) && s.connected && s.writeError
       case BufferFull => step == Check(id) && s.connected && !s.writeError && |s.wire.buffer| >= s.wire.size
       case Failed => step == CloseStep(id) && s.calls[id].pc == SetStatus
  }

  /** Where a step takes its own call. */
  ghost predicate Moves(s: State, step: Step, id: nat, to: Pc)
    requires id in s.calls
  {
    var from := s.calls[id].pc;
    match step
    case TakeLock(_) => from == Start && to.Locked?
    case Check(_) => from.Locked? && (to == Writing || (to.Done? && Reason(s, step, id, to.result)))
    case Write(_, _) => from == Writing && to == Sending(false)
    case WriteFails(_, _, _) => from == Writing && to == Sending(true)
    case WritePanics(_) => from == Writing && to == SetError
    case Send(_) => from.Sending? && to == if from.failed then SetError else Done(Accepted)
    case SendPanics(_) => from.Sending? && to == SetError
    case CloseStep(_) =>
      || (from == SetError && to == CloseChannel) || (from == CloseChannel && to == SetStatus)
      || (from == SetStatus && to == Done(Failed))
    case _ => false
  }

  lemma OwnStep(s: State, step: Step, id: nat)
    requires Enabled(s, step) && IsOf(step, id)
    ensures id in s.calls && id in Next(s, step).calls && Next(s, step).calls[id].pack == s.calls[id].pack
    ensures Moves(s, step, id, Next(s, step).calls[id].pc)
  {
    hide Encode, Encoded, FixedHeader, Written, WrittenInPart, CanWrite, CanFail;
  }

  lemma OtherStep(s: State, step: Step, id: nat)
    requires Enabled(s, step) && !IsOf(step, id)
    ensures id in s.calls ==> id in Next(s, step).calls && Next(s, step).calls[id] == s.calls[id]
    ensures id in Next(s, step).calls && id !in s.calls ==>
      Next(s, step).calls[id].pc == Start || Next(s, step).calls[id].pc == SetError
  {
    hide Encode, Encoded, FixedHeader, Written, WrittenInPart, CanWrite, CanFail, AfterClose;
    if step.CloseStep? {
      CloseOther(s, step.id, id);
    }
  }

  lemma CloseOther(s: State, k: nat, id: nat)
    requires k in s.calls && k != id
    ensures id in AfterClose(s, k).calls <==> id in s.calls
    ensures id in s.calls ==> AfterClose(s, k).calls[id] == s.calls[id]
  {
  }

  /** A step moves its own call to a later stage and leaves the others and all packs alone. */
  lemma CallsMoveOn(s: State, step: Step, id: nat)
    requires Enabled(s, step) && id in s.calls
    ensures id in Next(s, step).calls && Next(s, step).calls[id].pack == s.calls[id].pack
    ensures
      if IsOf(step, id) then Stage(Next(s, step).calls[id].pc) > Stage(s.calls[id].pc)
      else Next(s, step).calls[id].pc == s.calls[id].pc
  {
    hide Enabled, Next, Reason;
    if IsOf(step, id) {
      OwnStep(s, step, id);
    } else {
      OtherStep(s, step, id);
    }
  }

  lemma {:induction false} MovesOn(states: seq<State>, steps: seq<Step>, i: nat, j: nat, id: nat)
    requires IsRun(states, steps) && i <= j < |states| && id in states[i].calls
    ensures id in states[j].calls && states[j].calls[id].pack == states[i].calls[id].pack
    ensures Stage(states[j].calls[id].pc) >= Stage(states[i].calls[id].pc)
    ensures Stage(states[j].calls[id].pc) == Stage(states[i].calls[id].pc) ==>
      states[j].calls[id].pc == states[i].calls[id].pc
    decreases j
  {
    hide Enabled, Next;
    if i < j {
      MovesOn(states, steps, i, j - 1, id);
      CallsMoveOn(states[j - 1], steps[j - 1], id);
    }
  }

  // ------------------------------------------------------------ reasons

  lemma ResultHasReason(s: State, step: Step, id: nat, result: Result)
    requires Enabled(s, step) && id in Next(s, step).calls && Next(s, step).calls[id].pc == Done(result)
    ensures (id in s.calls && s.calls[id].pc == Done(result)) || Reason(s, step, id, result)
  {
    hide Enabled, Next;
    if IsOf(step, id) {
      OwnStep(s, step, id);
    } else {
      OtherStep(s, step, id);
    }
  }

  /** Every result a call ends with has its reason: disconnected, a write error and a full buffer are what
      its check saw, in that order of precedence; an accepted pack is one whose write succeeded; and any
      other failure went through Close. */
  lemma {:induction false} ResultsHaveReasons(states: seq<State>, steps: seq<Step>, i: nat, id: nat)
    requires IsRun(states, steps) && i < |states| && id in states[i].calls && states[i].calls[id].pc.Done?
    ensures exists j :: 0 <= j < i && Reason(states[j], steps[j], id, states[i].calls[id].pc.result)
  {
    hide Enabled, Next, Reason;
    if i > 0 {
      ResultHasReason(states[i - 1], steps[i - 1], id, states[i].calls[id].pc.result);
      if !Reason(states[i - 1], steps[i - 1], id, states[i].calls[id].pc.result) {
        ResultsHaveReasons(states, steps, i - 1, id);
      }
    }
  }

  // ------------------------------------------------------------ accepted is written

  /** The packs of the writes among the first i steps. */
  ghost function WrittenPacks(states: seq<State>, steps: seq<Step>, i: nat): seq<Pack>
    requires |states| == |steps| + 1 && i < |states|
  {
    if i == 0 then [] else
      var s, step := states[i - 1], steps[i - 1];
      WrittenPacks(states, steps, i - 1) + if step.Write? && step.id in s.calls then [s.calls[step.id].pack] else []
  }

  lemma StepAccepts(s: State, step: Step)
    requires Enabled(s, step)
    ensures Next(s, step).wire.accepted ==
      s.wire.accepted + if step.Write? && step.id in s.calls then [s.calls[step.id].pack] else []
  {
    if OfSend(step) {
      SendFrame(s, step);
      hide Enabled, Next;
    } else {
      hide Encode, Encoded, FixedHeader, CanWrite, CanFail, AfterClose;
    }
  }

  /** The packs on the wire are those of the writes, in their order. */
  lemma {:induction false} AcceptedAreWrites(states: seq<State>, steps: seq<Step>, i: nat)
    requires IsRun(states, steps) && i < |states|
    ensures states[i].wire.accepted == WrittenPacks(states, steps, i)
  {
    hide Enabled, Next;
    if i > 0 {
      AcceptedAreWrites(states, steps, i - 1);
      StepAccepts(states[i - 1], steps[i - 1]);
    }
  }

  lemma {:induction false} WriteIsAccepted(states: seq<State>, steps: seq<Step>, j: nat, i: nat)
    requires IsRun(states, steps) && j < i < |states| && steps[j].Write? && steps[j].id in states[j].calls
    ensures states[j].calls[steps[j].id].pack in WrittenPacks(states, steps, i)
  {
    hide Enabled, Next;
    if j < i - 1 {
      WriteIsAccepted(states, steps, j, i - 1);
    }
  }

  lemma WriteStage(s: State, step: Step, id: nat)
    requires Enabled(s, step) && step.Write? && step.id == id
    ensures id in s.calls && s.calls[id].pc == Writing && Next(s, step).calls[id].pc == Sending(false)
  {
    hide Enabled, Next, Reason;
    OwnStep(s, step, id);
  }

  /** No call writes twice. */
  lemma WritesOnce(states: seq<State>, steps: seq<Step>, j: nat, k: nat, id: nat)
    requires IsRun(states, steps) && j < k < |steps|
    requires steps[j].Write? && steps[j].id == id && steps[k].Write?
    ensures steps[k].id != id
  {
    hide Next, Enabled;
    WriteStage(states[j], steps[j], id);
    if steps[k].id == id {
      WriteStage(states[k], steps[k], id);
      CallsMoveOn(states[j], steps[j], id);
      MovesOn(states, steps, j + 1, k, id);
    }
  }

  lemma IntoSending(s: State, step: Step, id: nat)
    requires Enabled(s, step) && id in Next(s, step).calls && Next(s, step).calls[id].pc == Sending(false)
    ensures id in s.calls && (s.calls[id].pc == Sending(false) || (step.Write? && step.id == id))
  {
    hide Enabled, Next, Reason;
    if IsOf(step, id) {
      OwnStep(s, step, id);
    } else {
      OtherStep(s, step, id);
    }
  }

  lemma {:induction false} SendingWasWritten(states: seq<State>, steps: seq<Step>, i: nat, id: nat)
    requires IsRun(states, steps) && i < |states| && At(states[i], id, Sending(false))
    ensures exists j :: 0 <= j < i && steps[j].Write? && steps[j].id == id
  {
    hide Enabled, Next;
    if i > 0 {
      IntoSending(states[i - 1], steps[i - 1], id);
      if At(states[i - 1], id, Sending(false)) {
        SendingWasWritten(states, steps, i - 1, id);
      }
    }
  }

  /** A call is told that its pack was accepted if and only if it wrote it and then sent its token; the
      pack is then among those on the wire. */
  lemma AcceptedIff(states: seq<State>, steps: seq<Step>, i: nat, id: nat)
    requires IsRun(states, steps) && i < |states|
    ensures At(states[i], id, Done(Accepted)) <==>
      exists j, k :: 0 <= j < k < i && steps[j].Write? && steps[j].id == id && steps[k] == Send(id)
    ensures At(states[i], id, Done(Accepted)) ==> states[i].calls[id].pack in states[i].wire.accepted
  {
    hide Enabled, Next;
    if At(states[i], id, Done(Accepted)) {
      ResultsHaveReasons(states, steps, i, id);
      var k :| 0 <= k < i && Reason(states[k], steps[k], id, Accepted);
      SendingWasWritten(states, steps, k, id);
      var j :| 0 <= j < k && steps[j].Write? && steps[j].id == id;
      WriteStage(states[j], steps[j], id);
      MovesOn(states, steps, j, i, id);
      WriteIsAccepted(states, steps, j, i);
      AcceptedAreWrites(states, steps, i);
    }
    if j, k :| 0 <= j < k < i && steps[j].Write? && steps[j].id == id && steps[k] == Send(id) {
      SentIsAccepted(states, steps, j, k, i, id);
    }
  }

  lemma SentIsAccepted(states: seq<State>, steps: seq<Step>, j: nat, k: nat, i: nat, id: nat)
    requires IsRun(states, steps) && j < k < i < |states|
    requires steps[j].Write? && steps[j].id == id && steps[k] == Send(id)
    ensures At(states[i], id, Done(Accepted))
  {
    hide Next, Enabled;
    WriteStage(states[j], steps[j], id);
    CallsMoveOn(states[j], steps[j], id);
    MovesOn(states, steps, j + 1, k, id);
    SendStage(states[k], id);
    MovesOn(states, steps, k + 1, i, id);
    StageSeven(states[i].calls[id].pc);
  }

  lemma SendStage(s: State, id: nat)
    requires Enabled(s, Send(id))
    ensures id in s.calls && s.calls[id].pc.Sending? && id in Next(s, Send(id)).calls
    ensures s.calls[id].pc == Sending(false) ==> Next(s, Send(id)).calls[id].pc == Done(Accepted)
  {
  }

  lemma StageSeven(pc: Pc)
    ensures Stage(pc) <= 7
  {
  }

  // ------------------------------------------------------------ closing

  /** Closing goes one way and in one order: the error first, then the channel, then the status; and the
      channel holds at most 256 tokens. */
  ghost predicate ClosingOk(s: State)
  {
    && (s.closed ==> s.writeError) && (!s.connected ==> s.closed)
    && s.tokens <= 256
    && forall id :: id in s.calls ==>
         && (s.calls[id].pc == CloseChannel ==> s.writeError)
         && (s.calls[id].pc == SetStatus ==> s.closed)
  }

  lemma StepKeepsClosing(s: State, step: Step)
    requires ClosingOk(s) && Enabled(s, step)
    ensures ClosingOk(Next(s, step))
    ensures (s.writeError ==> Next(s, step).writeError) && (s.closed ==> Next(s, step).closed)
    ensures !s.connected ==> !Next(s, step).connected
  {
    hide Encode, Encoded, FixedHeader, Written, WrittenInPart, CanWrite, CanFail;
  }

  lemma {:induction false} ClosesInOrder(states: seq<State>, steps: seq<Step>, i: nat, j: nat)
    requires IsRun(states, steps) && i <= j < |states|
    ensures ClosingOk(states[j])
    ensures (states[i].writeError ==> states[j].writeError) && (states[i].closed ==> states[j].closed)
    ensures !states[i].connected ==> !states[j].connected
    decreases j
  {
    hide Enabled, Next, ClosingOk;
    if j > 0 {
      ClosesInOrder(states, steps, if i < j then i else j - 1, j - 1);
      StepKeepsClosing(states[j - 1], steps[j - 1]);
    } else {
      StartsOpen(states[0]);
    }
  }

  lemma StartsOpen(s: State)
    requires Init(s)
    ensures ClosingOk(s)
  {
  }

  /** A token is sent exactly while the open channel has room among its 256 places, and a caller on a
      closed one panics. */
  lemma SendsWithRoom(s: State, id: nat, failed: bool)
    requires At(s, id, Sending(failed))
    ensures Enabled(s, Send(id)) <==> !s.closed && s.tokens < 256
    ensures Enabled(s, SendPanics(id)) <==> s.closed
  {
  }

  /** Once the status is CLOSED the flusher leaves the wire alone, and when it gets the lock it ends. */
  lemma FlusherLeavesWire(s: State, step: Step)
    requires Enabled(s, step) && OfFlusher(step) && !s.connected
    ensures Next(s, step).wire == s.wire
    ensures step.Flush? || step.FlusherCheck? ==> Next(s, step).flusher == Exited
  {
  }

  ghost predicate FlusherCanMove(s: State)
  {
    || Enabled(s, FlusherCheck) || Enabled(s, FlusherReceive) || Enabled(s, FlusherLock) || Enabled(s, Flush)
    || exists onWire :: Enabled(s, FlushFails(onWire))
  }

  /** The flusher waits exactly while the channel is open and empty, or with a token while the lock is taken. */
  lemma FlusherWaits(s: State)
    ensures !FlusherCanMove(s) <==>
      || s.flusher == Exited
      || (s.flusher == Receiving && !s.closed && s.tokens == 0)
      || (s.flusher == GotToken && s.lock != Free)
    ensures s.flusher == Receiving && s.closed && s.tokens == 0 ==> Next(s, FlusherReceive).flusher == Exited
    ensures s.flusher == Receiving && s.tokens > 0 ==> Next(s, FlusherReceive).flusher == GotToken
  {
    if s.flusher == Flushing && s.wire.broken && s.connected && s.wire.buffer != [] {
      assert Enabled(s, FlushFails(|s.wire.sent|));
    }
  }

  /** A flush that fails ends the flusher, so no run has two. */
  lemma {:induction false} ExitedForGood(states: seq<State>, steps: seq<Step>, i: nat, j: nat)
    requires IsRun(states, steps) && i < j < |states|
    requires steps[i].FlushFails? || states[i].flusher == Exited
    ensures states[j].flusher == Exited && (j < |steps| ==> !OfFlusher(steps[j]))
    decreases j
  {
    hide Enabled, Next, OfFlusher;
    if i < j - 1 {
      ExitedForGood(states, steps, i, j - 1);
    }
    ExitStep(states[j - 1], steps[j - 1]);
    if j < |steps| {
      NoStepLeft(states[j], steps[j]);
    }
  }

  lemma ExitStep(s: State, step: Step)
    requires Enabled(s, step)
    ensures s.flusher == Exited || step.FlushFails? ==> Next(s, step).flusher == Exited
  {
    hide Encode, Encoded, FixedHeader, Written, WrittenInPart, CanWrite, CanFail;
  }

  lemma NoStepLeft(s: State, step: Step)
    requires Enabled(s, step) && s.flusher == Exited
    ensures !OfFlusher(step)
  {
    hide Encode, Encoded, CanWrite, CanFail;
  }

  /** Tokens sent and received among the first i steps. */
  ghost function Sent(steps: seq<Step>, i: nat): nat
    requires i <= |steps|
  {
    if i == 0 then 0 else Sent(steps, i - 1) + if steps[i - 1].Send? then 1 else 0
  }

  ghost function Taken(states: seq<State>, steps: seq<Step>, i: nat): nat
    requires |states| == |steps| + 1 && i < |states|
  {
    if i == 0 then 0 else
      Taken(states, steps, i - 1) + if steps[i - 1] == FlusherReceive && states[i].flusher == GotToken then 1 else 0
  }

  /** No token is lost or made up. */
  lemma {:induction false} TokensConserved(states: seq<State>, steps: seq<Step>, i: nat)
    requires IsRun(states, steps) && i < |states|
    ensures Taken(states, steps, i) + states[i].tokens == Sent(steps, i)
  {
    if i > 0 {
      TokenStep(states[i - 1], steps[i - 1]);
      hide Enabled, Next;
      TokensConserved(states, steps, i - 1);
    }
  }

  lemma TokenStep(s: State, step: Step)
    requires Enabled(s, step)
    ensures
      var t := Next(s, step);
      t.tokens + (if step == FlusherReceive && t.flusher == GotToken then 1 else 0) == s.tokens + if step.Send? then 1 else 0
  {
    hide AfterCheck, AfterClose;
    AroundTokens(s);
    hide Encode, Encoded, FixedHeader, Written, WrittenInPart, CanWrite, CanFail;
  }

  lemma AroundTokens(s: State)
    ensures forall id :: id in s.calls ==> AfterCheck(s, id).tokens == s.tokens && AfterClose(s, id).tokens == s.tokens
  {
  }

  /** The buffer never holds more than its size, and a call past the checks finds room in it. */
  ghost predicate RoomOk(s: State)
  {
    && |s.wire.buffer| <= s.wire.size
    && forall id :: id in s.calls && s.calls[id].pc == Writing ==> |s.wire.buffer| < s.wire.size
  }

  lemma {:induction false} BufferBounded(states: seq<State>, steps: seq<Step>, i: nat)
    requires IsRun(states, steps) && i < |states|
    ensures RoomOk(states[i])
  {
    hide Enabled, Next, Inv, RoomOk;
    if i == 0 {
      StartsEmpty(states[0]);
    } else {
      BufferBounded(states, steps, i - 1);
      RunKeepsInv(states, steps, i - 1);
      RoomStep(states[i - 1], steps[i - 1]);
    }
  }

  lemma StartsEmpty(s: State)
    requires Init(s)
    ensures RoomOk(s)
  {
  }

  lemma RoomStep(s: State, step: Step)
    requires Inv(s) && RoomOk(s) && Enabled(s, step)
    ensures RoomOk(Next(s, step))
  {
    if OfSend(step) {
      SendFrame(s, step);
      hide Enabled, Next, WireInv, FlushOk;
    } else {
      hide Encode, FixedHeader, WireInv, FlushOk;
    }
  }
}
