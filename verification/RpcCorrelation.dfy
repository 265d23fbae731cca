/** Remote calls of rpc/base: callers register under a fresh correlation id, publish, and wait on a
    one-place channel or time out; a single loop takes replies off a network that may duplicate,
    reorder, delay, lose or forge them. Callers and loop interleave step by step. */
module RpcCorrelation {
  import opened Values

  datatype Reply = Reply(cid: nat, value: int)

  datatype Outcome = Result(reply: Reply) | ClientClosed | DeadlineExceeded | SendFailed

  datatype CallerPc =
    | Registered              // entry set, request not published yet
    | Waiting                 // in the select
    | Expired                 // deadline hit, channel to close
    | Closed                  // channel closed, entry to delete
    | Returned(outcome: Outcome)

  /** A call with its callback channel: the one buffered value, whether it is closed, and every value
      ever sent on it. */
  datatype Call = Call(pc: CallerPc, buffer: Option<Reply>, closed: bool, log: seq<Reply>)

  datatype Receiver =
    | Idle
    | Received(reply: Reply)
    | LookedUp(reply: Reply, found: bool)
    | Deleted(reply: Reply, found: bool)
    | Sent(cid: nat)
    | Stopped                 // the loop panicked and was not restarted

  datatype State = State(calls: map<nat, Call>, table: set<nat>, receiver: Receiver)

  datatype Step =
    | Register(cid: nat)
    | Publish(cid: nat, ok: bool)
    | TakeResult(cid: nat)
    | SeeClosed(cid: nat)
    | Expire(cid: nat)
    | CloseCallback(cid: nat)
    | DeleteEntry(cid: nat)
    | Deliver(reply: Reply)
    | LookUp
    | DropEntry
    | SendReply
    | SendPanics
    | Finish

  ghost predicate At(s: State, cid: nat, pc: CallerPc)
  {
    cid in s.calls && s.calls[cid].pc == pc
  }

  ghost predicate Enabled(s: State, step: Step)
  {
    match step
    case Register(cid) => cid !in s.calls
    case Publish(cid, _) => At(s, cid, Registered)
    case TakeResult(cid) => At(s, cid, Waiting) && s.calls[cid].buffer.Some?
    case SeeClosed(cid) => At(s, cid, Waiting) && s.calls[cid].buffer.None? && s.calls[cid].closed
    case Expire(cid) => At(s, cid, Waiting)
    case CloseCallback(cid) => At(s, cid, Expired)
    case DeleteEntry(cid) => At(s, cid, Closed)
    case Deliver(_) => s.receiver == Idle
    case LookUp => s.receiver.Received?
    case DropEntry => s.receiver.LookedUp?
    case SendReply => ToSend(s) && !s.calls[s.receiver.reply.cid].closed && s.calls[s.receiver.reply.cid].buffer.None?
    case SendPanics => ToSend(s) && s.calls[s.receiver.reply.cid].closed
    case Finish => (s.receiver.Sent? && s.receiver.cid in s.calls) || (s.receiver.Deleted? && !s.receiver.found)
  }

  /** The loop holds a reply it found an entry for, and is about to send it. */
  ghost predicate ToSend(s: State)
  {
    s.receiver.Deleted? && s.receiver.found && s.receiver.reply.cid in s.calls
  }

  function Put(s: State, cid: nat, c: Call): State
  {
    s.(calls := s.calls[cid := c])
  }

  ghost function Next(s: State, step: Step): State
    requires Enabled(s, step)
  {
    match step
    case Register(cid) => Put(s, cid, Call(Registered, None, false, [])).(table := s.table + {cid})
    case Publish(cid, ok) => Put(s, cid, s.calls[cid].(pc := if ok then Waiting else Returned(SendFailed)))
    case TakeResult(cid) =>
      Put(s, cid, s.calls[cid].(pc := Returned(Result(s.calls[cid].buffer.value)), buffer := None))
    case SeeClosed(cid) => Put(s, cid, s.calls[cid].(pc := Returned(ClientClosed)))
    case Expire(cid) => Put(s, cid, s.calls[cid].(pc := Expired))
    case CloseCallback(cid) => Put(s, cid, s.calls[cid].(pc := Closed, closed := true))
    case DeleteEntry(cid) =>
      Put(s, cid, s.calls[cid].(pc := Returned(DeadlineExceeded))).(table := s.table - {cid})
    case Deliver(reply) => s.(receiver := Received(reply))
    case LookUp => s.(receiver := LookedUp(s.receiver.reply, s.receiver.reply.cid in s.table))
    case DropEntry =>
      s.(receiver := Deleted(s.receiver.reply, s.receiver.found), table := s.table - {s.receiver.reply.cid})
    case SendReply =>
      var r := s.receiver.reply;
      Put(s, r.cid, s.calls[r.cid].(buffer := Some(r), log := s.calls[r.cid].log + [r])).(receiver := Sent(r.cid))
    case SendPanics => s.(receiver := Stopped)
    case Finish =>
      if s.receiver.Sent? then Put(s, s.receiver.cid, s.calls[s.receiver.cid].(closed := true)).(receiver := Idle)
      else s.(receiver := Idle)
  }

  ghost predicate Init(s: State)
  {
    s == State(map[], {}, Idle)
  }

  ghost predicate IsRun(states: seq<State>, steps: seq<Step>)
  {
    && |states| == |steps| + 1
    && Init(states[0])
    && forall i :: 0 <= i < |steps| ==> Enabled(states[i], steps[i]) && states[i + 1] == Next(states[i], steps[i])
  }

  // ------------------------------------------------------------ invariants

  predicate GaveUp(pc: CallerPc)
  {
    pc == Closed || pc == Returned(DeadlineExceeded)
  }

  /** One call on its own: at most one value, the right one; taken exactly by the caller that returned
      it; and a closed channel either got its value or belongs to a caller that gave up. */
  ghost predicate CallOk(cid: nat, c: Call)
  {
    && |c.log| <= 1
    && (forall r :: r in c.log ==> r.cid == cid)
    && (c.buffer.Some? ==> c.log == [c.buffer.value])
    && (c.log != [] ==> c.buffer.Some? || c.pc.Returned?)
    && (c.closed ==> c.log != [] || GaveUp(c.pc))
    && (GaveUp(c.pc) ==> c.closed)
    && (c.pc.Returned? && c.pc.outcome.Result? ==> c.log == [c.pc.outcome.reply] && c.buffer.None?)
    && c.pc != Returned(ClientClosed)
  }

  /** A call that has an entry got no value yet and has neither a result nor a deadline behind it. */
  ghost predicate EntryOk(c: Call)
  {
    && c.log == []
    && (c.pc.Returned? ==> c.pc.outcome == SendFailed)
  }

  ghost predicate ReceiverOk(s: State)
  {
    match s.receiver
    case LookedUp(r, found) => found ==> r.cid in s.calls && s.calls[r.cid].log == []
    case Deleted(r, found) => found ==> r.cid !in s.table && r.cid in s.calls && s.calls[r.cid].log == []
    case Sent(cid) => cid in s.calls && s.calls[cid].log != []
    case _ => true
  }

  ghost predicate Inv(s: State)
  {
    && (forall cid :: cid in s.calls ==> CallOk(cid, s.calls[cid]))
    && (forall cid :: cid in s.table ==> cid in s.calls && EntryOk(s.calls[cid]))
    && ReceiverOk(s)
  }

  predicate OfCaller(step: Step)
  {
    step.Register? || step.Publish? || step.TakeResult? || step.SeeClosed? || step.Expire? || step.CloseCallback?
    || step.DeleteEntry?
  }

  lemma CallerKeepsInv(s: State, step: Step)
    requires Inv(s) && Enabled(s, step) && OfCaller(step)
    ensures Inv(Next(s, step))
  {
    CallerFrame(s, step);
    CallerStepOk(s, step);
    hide Enabled, Next, CallOk, EntryOk;
  }

  /** A caller's step touches its own call and its own entry only. */
  lemma CallerFrame(s: State, step: Step)
    requires Enabled(s, step) && OfCaller(step)
    ensures
      var t := Next(s, step);
      && t.receiver == s.receiver && step.cid in t.calls
      && t.calls.Keys == s.calls.Keys + {step.cid}
      && (forall c :: c in s.calls && c != step.cid ==> t.calls[c] == s.calls[c])
      && (forall c :: c in t.table ==> c in s.table || (c == step.cid && c !in s.calls))
  {
  }

  lemma CallerStepOk(s: State, step: Step)
    requires Inv(s) && Enabled(s, step) && OfCaller(step)
    ensures
      var c := Next(s, step).calls[step.cid];
      && CallOk(step.cid, c)
      && (step.cid in s.calls ==> c.log == s.calls[step.cid].log)
      && (step.cid in Next(s, step).table ==> EntryOk(c))
  {
    if step.cid in s.calls {
      assert CallOk(step.cid, s.calls[step.cid]);
    }
  }

  lemma ReceiverKeepsInv(s: State, step: Step)
    requires Inv(s) && Enabled(s, step) && !OfCaller(step)
    ensures Inv(Next(s, step))
  {
    match step
    case SendReply =>
      var r := s.receiver.reply;
      assert CallOk(r.cid, s.calls[r.cid]);
    case _ =>
  }

  lemma {:induction false} RunKeepsInv(states: seq<State>, steps: seq<Step>, i: nat)
    requires IsRun(states, steps) && i < |states|
    ensures Inv(states[i])
  {
    hide Inv, Enabled, Next;
    if i == 0 {
      InitIsInv(states[0]);
    } else {
      RunKeepsInv(states, steps, i - 1);
      if OfCaller(steps[i - 1]) {
        CallerKeepsInv(states[i - 1], steps[i - 1]);
      } else {
        ReceiverKeepsInv(states[i - 1], steps[i - 1]);
      }
    }
  }

  lemma InitIsInv(s: State)
    requires Init(s)
    ensures Inv(s)
  {
  }

  // ------------------------------------------------------------ results

  // Where values come from.

  ghost predicate DeliveredBefore(steps: seq<Step>, i: nat, r: Reply)
    requires i <= |steps|
  {
    exists k :: 0 <= k < i && steps[k] == Deliver(r)
  }

  /** The loop holds the reply. */
  predicate InHand(s: State, r: Reply)
  {
    s.receiver == Received(r) || s.receiver == LookedUp(r, true) || s.receiver == LookedUp(r, false)
    || s.receiver == Deleted(r, true) || s.receiver == Deleted(r, false)
  }

  ghost predicate Logged(s: State, r: Reply)
  {
    exists cid :: cid in s.calls && r in s.calls[cid].log
  }

  lemma StepSends(s: State, step: Step, r: Reply)
    requires Enabled(s, step)
    ensures InHand(Next(s, step), r) ==> InHand(s, r) || step == Deliver(r)
    ensures Logged(Next(s, step), r) ==> Logged(s, r) || InHand(s, r)
  {
    if Logged(Next(s, step), r) {
      var cid :| cid in Next(s, step).calls && r in Next(s, step).calls[cid].log;
    }
  }

  lemma {:induction false} OnlyDelivered(states: seq<State>, steps: seq<Step>, i: nat, r: Reply)
    requires IsRun(states, steps) && i < |states| && (InHand(states[i], r) || Logged(states[i], r))
    ensures DeliveredBefore(steps, i, r)
  {
    if i > 0 {
      hide Enabled, Next, InHand, Logged;
      StepSends(states[i - 1], steps[i - 1], r);
      if steps[i - 1] != Deliver(r) {
        OnlyDelivered(states, steps, i - 1, r);
      }
    }
  }

  /** On every run, a callback channel gets at most one value: a reply that the network delivered, whole,
      with the call's own id. A returned result is that reply, and no caller ever sees its channel closed
      without a value. */
  lemma AtMostOneReply(states: seq<State>, steps: seq<Step>, i: nat, cid: nat)
    requires IsRun(states, steps) && i < |states| && cid in states[i].calls
    ensures
      var c := states[i].calls[cid];
      && |c.log| <= 1
      && (forall r :: r in c.log ==> r.cid == cid && DeliveredBefore(steps, i, r))
      && (c.pc.Returned? && c.pc.outcome.Result? ==> c.log == [c.pc.outcome.reply] && c.buffer.None?)
      && c.pc != Returned(ClientClosed)
  {
    RunKeepsInv(states, steps, i);
    assert CallOk(cid, states[i].calls[cid]);
    forall r | r in states[i].calls[cid].log ensures DeliveredBefore(steps, i, r) {
      assert Logged(states[i], r);
      OnlyDelivered(states, steps, i, r);
    }
  }

  /** A call that takes a value returns the reply that was delivered for it. */
  lemma TakesItsReply(states: seq<State>, steps: seq<Step>, i: nat, cid: nat)
    requires IsRun(states, steps) && i < |steps| && steps[i] == TakeResult(cid)
    ensures exists r: Reply :: r.cid == cid && DeliveredBefore(steps, i, r) && At(states[i + 1], cid, Returned(Result(r)))
  {
    RunKeepsInv(states, steps, i);
    assert CallOk(cid, states[i].calls[cid]);
    var r := states[i].calls[cid].buffer.value;
    assert r in states[i].calls[cid].log;
    AtMostOneReply(states, steps, i, cid);
  }

  /** Wherever a run stands, a reply to a waiting call that still has its entry is returned by the call once
      an idle loop takes it, whatever it says. */
  lemma ReplyIsReturned(states: seq<State>, steps: seq<Step>, r: Reply) returns (t: seq<State>, u: seq<Step>)
    requires IsRun(states, steps)
    requires states[|steps|].receiver == Idle && r.cid in states[|steps|].table && At(states[|steps|], r.cid, Waiting)
    ensures IsRun(t, u) && u == steps + [Deliver(r), LookUp, DropEntry, SendReply, TakeResult(r.cid)]
    ensures At(t[|u|], r.cid, Returned(Result(r)))
  {
    RunKeepsInv(states, steps, |steps|);
    WayBack(states[|steps|], r);
    hide Enabled, Next, Inv;
    t, u := Extend(states, steps, Deliver(r));
    t, u := Extend(t, u, LookUp);
    t, u := Extend(t, u, DropEntry);
    t, u := Extend(t, u, SendReply);
    t, u := Extend(t, u, TakeResult(r.cid));
  }

  lemma WayBack(s: State, r: Reply)
    requires Inv(s) && s.receiver == Idle && r.cid in s.table && At(s, r.cid, Waiting)
    ensures Enabled(s, Deliver(r))
    ensures
      var s1 := Next(s, Deliver(r));
      && Enabled(s1, LookUp)
      && var s2 := Next(s1, LookUp);
      && Enabled(s2, DropEntry)
      && var s3 := Next(s2, DropEntry);
      && Enabled(s3, SendReply)
      && var s4 := Next(s3, SendReply);
      && Enabled(s4, TakeResult(r.cid))
      && At(Next(s4, TakeResult(r.cid)), r.cid, Returned(Result(r)))
  {
    assert CallOk(r.cid, s.calls[r.cid]) && EntryOk(s.calls[r.cid]);
    hide Inv;
  }

  // Outcomes, and the loop's progress.

  /** What a call saw when it returned. */
  ghost predicate Reason(step: Step, cid: nat, outcome: Outcome)
  {
    match outcome
    case Result(_) => step == TakeResult(cid)
    case ClientClosed => step == SeeClosed(cid)
    case DeadlineExceeded => step == DeleteEntry(cid)
    case SendFailed => step == Publish(cid, false)
  }

  lemma ReturnsWithReason(s: State, step: Step, cid: nat)
    requires Enabled(s, step)
    ensures
      var t := Next(s, step);
      forall o :: At(t, cid, Returned(o)) ==> At(s, cid, Returned(o)) || Reason(step, cid, o)
    ensures step == Publish(cid, false) ==> At(Next(s, step), cid, Returned(SendFailed))
    ensures step == Publish(cid, true) ==> At(Next(s, step), cid, Waiting)
  {
  }

  /** Every outcome has its reason: a result was taken, a deadline exceeded had its entry deleted, a send
      failed if its publication did; and a call whose publication failed returns just that. */
  lemma {:induction false} OutcomesHaveReasons(states: seq<State>, steps: seq<Step>, i: nat, cid: nat)
    requires IsRun(states, steps) && i < |states| && cid in states[i].calls
    ensures states[i].calls[cid].pc.Returned? ==>
      exists k :: 0 <= k < i && Reason(steps[k], cid, states[i].calls[cid].pc.outcome)
    ensures Publish(cid, false) in steps[..i] <==> states[i].calls[cid].pc == Returned(SendFailed)
  {
    if i > 0 {
      assert steps[..i] == steps[..i - 1] + [steps[i - 1]];
      ReturnsWithReason(states[i - 1], steps[i - 1], cid);
      hide Enabled, Next;
      if cid in states[i - 1].calls {
        OutcomesHaveReasons(states, steps, i - 1, cid);
        if states[i - 1].calls[cid].pc.Returned? {
          ReturnedStays(states[i - 1], steps[i - 1], cid);
        }
      } else {
        NewCall(states[i - 1], steps[i - 1], cid);
        NoSuchPublish(states, steps, i - 1, cid);
      }
    }
  }

  lemma NewCall(s: State, step: Step, cid: nat)
    requires Enabled(s, step) && cid !in s.calls && cid in Next(s, step).calls
    ensures step == Register(cid) && Next(s, step).calls[cid].pc == Registered
  {
  }

  lemma ReturnedStays(s: State, step: Step, cid: nat)
    requires Enabled(s, step) && cid in s.calls && s.calls[cid].pc.Returned?
    ensures At(Next(s, step), cid, s.calls[cid].pc)
  {
  }

  lemma {:induction false} NoSuchPublish(states: seq<State>, steps: seq<Step>, i: nat, cid: nat)
    requires IsRun(states, steps) && i < |states| && cid !in states[i].calls
    ensures Publish(cid, false) !in steps[..i]
  {
    if i > 0 {
      assert steps[..i] == steps[..i - 1] + [steps[i - 1]];
      CallsStay(states[i - 1], steps[i - 1], cid);
      hide Enabled, Next;
      NoSuchPublish(states, steps, i - 1, cid);
    }
  }

  lemma CallsStay(s: State, step: Step, cid: nat)
    requires Enabled(s, step) && cid !in Next(s, step).calls
    ensures cid !in s.calls && step != Publish(cid, false)
  {
  }

  /** The loop handles one reply at a time and never waits for a caller: it takes the next one exactly when
      it is idle, and otherwise has a step of its own, unless it has stopped. */
  lemma LoopNeverWaits(states: seq<State>, steps: seq<Step>, i: nat, r: Reply)
    requires IsRun(states, steps) && i < |states|
    ensures
      var s := states[i];
      && (Enabled(s, Deliver(r)) <==> s.receiver == Idle)
      && (s.receiver != Idle && s.receiver != Stopped <==>
            (Enabled(s, LookUp) || Enabled(s, DropEntry) || Enabled(s, SendReply) || Enabled(s, SendPanics) || Enabled(s, Finish)))
  {
    RunKeepsInv(states, steps, i);
    if states[i].receiver.Deleted? && states[i].receiver.found {
      SendNeverBlocks(states, steps, i);
    }
  }

  /** Once the loop has gone on from a call it sent a value to, the call's channel is closed. */
  lemma {:induction false} ClosedAfterSend(states: seq<State>, steps: seq<Step>, i: nat, cid: nat)
    requires IsRun(states, steps) && i < |states| && cid in states[i].calls
    requires states[i].calls[cid].log != [] && states[i].receiver != Sent(cid)
    ensures states[i].calls[cid].closed
  {
    if i > 0 {
      RunKeepsInv(states, steps, i - 1);
      CloseStep(states[i - 1], steps[i - 1], cid);
      hide Enabled, Next, Inv;
      if cid in states[i - 1].calls && states[i - 1].calls[cid].log != [] && states[i - 1].receiver != Sent(cid) {
        ClosedAfterSend(states, steps, i - 1, cid);
      }
    }
  }

  lemma CloseStep(s: State, step: Step, cid: nat)
    requires Enabled(s, step) && cid in Next(s, step).calls
    requires Next(s, step).calls[cid].log != [] && Next(s, step).receiver != Sent(cid)
    ensures cid in s.calls && s.calls[cid].log != []
    ensures s.receiver == Sent(cid) ==> Next(s, step).calls[cid].closed
    ensures s.calls[cid].closed ==> Next(s, step).calls[cid].closed
  {
  }

  lemma Extend(states: seq<State>, steps: seq<Step>, step: Step) returns (t: seq<State>, u: seq<Step>)
    requires IsRun(states, steps) && Enabled(states[|steps|], step)
    ensures IsRun(t, u) && u == steps + [step] && t == states + [Next(states[|steps|], step)]
  {
    hide Enabled, Next;
    t, u := states + [Next(states[|steps|], step)], steps + [step];
  }

  /** The loop's send never blocks: the channel's one place is empty, or the channel is closed. */
  lemma SendNeverBlocks(states: seq<State>, steps: seq<Step>, i: nat)
    requires IsRun(states, steps) && i < |states|
    requires states[i].receiver.Deleted? && states[i].receiver.found
    ensures Enabled(states[i], SendReply) || Enabled(states[i], SendPanics)
  {
    RunKeepsInv(states, steps, i);
    var cid := states[i].receiver.reply.cid;
    assert CallOk(cid, states[i].calls[cid]);
  }

  predicate Settled(pc: CallerPc)
  {
    pc.Returned? && (pc.outcome.Result? || pc.outcome == DeadlineExceeded)
  }

  /** A call that returned a result or "deadline exceeded" has no entry, and never has one again. */
  lemma {:induction false} NoEntryLeft(states: seq<State>, steps: seq<Step>, i: nat, j: nat, cid: nat)
    requires IsRun(states, steps) && i <= j < |states|
    requires cid in states[i].calls && Settled(states[i].calls[cid].pc)
    ensures cid !in states[j].table
    ensures cid in states[j].calls && states[j].calls[cid].pc == states[i].calls[cid].pc
    decreases j
  {
    hide Inv, Enabled, Next;
    if j > i {
      NoEntryLeft(states, steps, i, j - 1, cid);
      PcStays(states[j - 1], steps[j - 1], cid);
    }
    RunKeepsInv(states, steps, j);
    SettledHasNoEntry(states[j], cid);
  }

  lemma SettledHasNoEntry(s: State, cid: nat)
    requires Inv(s) && cid in s.calls && Settled(s.calls[cid].pc)
    ensures cid !in s.table
  {
  }

  lemma PcStays(s: State, step: Step, cid: nat)
    requires Enabled(s, step) && cid in s.calls && Settled(s.calls[cid].pc)
    ensures cid in Next(s, step).calls && Next(s, step).calls[cid].pc == s.calls[cid].pc
  {
  }

  /** With a reply to send, the loop panics if and only if the caller it answers has given up, and else
      the send goes through. */
  lemma SendPanicsIff(states: seq<State>, steps: seq<Step>, i: nat)
    requires IsRun(states, steps) && i < |states|
    requires states[i].receiver.Deleted? && states[i].receiver.found
    ensures
      var cid := states[i].receiver.reply.cid;
      && cid in states[i].calls
      && (Enabled(states[i], SendPanics) <==> GaveUp(states[i].calls[cid].pc))
      && (Enabled(states[i], SendReply) <==> !GaveUp(states[i].calls[cid].pc))
  {
    RunKeepsInv(states, steps, i);
    var cid := states[i].receiver.reply.cid;
    assert CallOk(cid, states[i].calls[cid]);
  }

  /** The loop has stopped only after such a panic; then it stays stopped, no call gets a value any
      more, and none that had no value by then, so no later one, ever returns a result. */
  lemma StoppedForGood(states: seq<State>, steps: seq<Step>, i: nat, j: nat)
    requires IsRun(states, steps) && i <= j < |states| && states[i].receiver == Stopped
    ensures SendPanics in steps[..i]
    ensures states[j].receiver == Stopped
    ensures forall cid :: cid in states[j].calls ==> states[j].calls[cid].log == LogIn(states[i], cid)
    ensures forall cid :: cid in states[j].calls && LogIn(states[i], cid) == [] ==>
      !(states[j].calls[cid].pc.Returned? && states[j].calls[cid].pc.outcome.Result?)
  {
    hide Enabled, Next, IsRun;
    StoppedByPanic(states, steps, i);
    StaysStopped(states, steps, i, j);
    forall cid | cid in states[j].calls && LogIn(states[i], cid) == []
      ensures !(states[j].calls[cid].pc.Returned? && states[j].calls[cid].pc.outcome.Result?)
    {
      AtMostOneReply(states, steps, j, cid);
    }
  }

  /** The values sent to a call so far; none if it is yet to register. */
  function LogIn(s: State, cid: nat): seq<Reply>
  {
    if cid in s.calls then s.calls[cid].log else []
  }

  lemma {:induction false} StaysStopped(states: seq<State>, steps: seq<Step>, i: nat, j: nat)
    requires IsRun(states, steps) && i <= j < |states| && states[i].receiver == Stopped
    ensures states[j].receiver == Stopped
    ensures forall cid :: cid in states[i].calls ==> cid in states[j].calls
    ensures forall cid :: cid in states[j].calls ==> states[j].calls[cid].log == LogIn(states[i], cid)
    decreases j
  {
    hide Enabled, Next;
    if i < j {
      StaysStopped(states, steps, i, j - 1);
      StoppedStep(states[j - 1], steps[j - 1]);
    }
  }

  lemma StoppedStep(s: State, step: Step)
    requires Enabled(s, step) && s.receiver == Stopped
    ensures
      var t := Next(s, step);
      && t.receiver == Stopped && t.calls.Keys >= s.calls.Keys
      && forall cid :: cid in t.calls ==> t.calls[cid].log == LogIn(s, cid)
  {
  }

  lemma {:induction false} StoppedByPanic(states: seq<State>, steps: seq<Step>, i: nat)
    requires IsRun(states, steps) && i < |states| && states[i].receiver == Stopped
    ensures SendPanics in steps[..i]
  {
    if states[i - 1].receiver == Stopped {
      StoppedByPanic(states, steps, i - 1);
    } else {
      assert steps[i - 1] == SendPanics;
      assert steps[..i][i - 1] == SendPanics;
    }
  }

  ghost predicate Takes(s: State, step: Step, t: State)
  {
    Enabled(s, step) && t == Next(s, step)
  }

  function OneCall(c: Call, table: set<nat>, r: Receiver): State
  {
    State(map[0 := c], table, r)
  }

  lemma CallerTakes(c: Call, table: set<nat>, r: Receiver)
    ensures c.pc == Registered ==>
      Takes(OneCall(c, table, r), Publish(0, true), OneCall(c.(pc := Waiting), table, r))
    ensures c.pc == Waiting ==> Takes(OneCall(c, table, r), Expire(0), OneCall(c.(pc := Expired), table, r))
    ensures c.pc == Expired ==>
      Takes(OneCall(c, table, r), CloseCallback(0), OneCall(c.(pc := Closed, closed := true), table, r))
  {
    assert forall d: Call :: map[0 := c][0 := d] == map[0 := d];
  }

  lemma LoopTakes(c: Call, m: Reply)
    requires m.cid == 0
    ensures Takes(OneCall(c, {0}, Idle), Deliver(m), OneCall(c, {0}, Received(m)))
    ensures Takes(OneCall(c, {0}, Received(m)), LookUp, OneCall(c, {0}, LookedUp(m, true)))
    ensures Takes(OneCall(c, {0}, LookedUp(m, true)), DropEntry, OneCall(c, {}, Deleted(m, true)))
    ensures c.closed ==> Takes(OneCall(c, {}, Deleted(m, true)), SendPanics, OneCall(c, {}, Stopped))
  {
    var none: set<nat> := {};
    assert {0} - {0} == none;
  }

  lemma FirstCall(c: Call)
    requires c == Call(Registered, None, false, [])
    ensures Takes(State(map[], {}, Idle), Register(0), OneCall(c, {0}, Idle))
  {
    var none: set<nat> := {};
    var calls: map<nat, Call> := map[];
    assert none + {0} == {0} && calls[0 := c] == map[0 := c];
  }

  /** And it can: a deadline between the loop's lookup and its send. */
  lemma CanStop() returns (states: seq<State>, steps: seq<Step>)
    ensures IsRun(states, steps) && states[|steps|].receiver == Stopped
  {
    hide Takes, IsRun;
    var m := Reply(0, 7);
    var c := Call(Registered, None, false, []);
    var w, x, d := c.(pc := Waiting), c.(pc := Expired), c.(pc := Closed, closed := true);
    FirstCall(c);
    CallerTakes(c, {0}, Idle);
    LoopTakes(w, m);
    CallerTakes(w, {}, Deleted(m, true));
    CallerTakes(x, {}, Deleted(m, true));
    LoopTakes(d, m);
    steps := [Register(0), Publish(0, true), Deliver(m), LookUp, DropEntry, Expire(0), CloseCallback(0), SendPanics];
    states := [State(map[], {}, Idle), OneCall(c, {0}, Idle), OneCall(w, {0}, Idle), OneCall(w, {0}, Received(m)),
               OneCall(w, {0}, LookedUp(m, true)), OneCall(w, {}, Deleted(m, true)), OneCall(x, {}, Deleted(m, true)),
               OneCall(d, {}, Deleted(m, true)), OneCall(d, {}, Stopped)];
    EightSteps(states, steps);
  }

  lemma EightSteps(states: seq<State>, steps: seq<Step>)
    requires |states| == 9 && |steps| == 8 && Init(states[0])
    requires Takes(states[0], steps[0], states[1]) && Takes(states[1], steps[1], states[2])
    requires Takes(states[2], steps[2], states[3]) && Takes(states[3], steps[3], states[4])
    requires Takes(states[4], steps[4], states[5]) && Takes(states[5], steps[5], states[6])
    requires Takes(states[6], steps[6], states[7]) && Takes(states[7], steps[7], states[8])
    ensures IsRun(states, steps)
  {
    hide Enabled, Next;
  }
}
