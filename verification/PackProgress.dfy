/** Progress of the write queue: no flush is lost, and exactly when the lock is. */
module PackProgress {
  import opened Values
  import opened Mqtt
  import opened MqttRoundTrip
  import opened PackQueue

  /** No lost flush: in every reachable healthy state, buffered bytes have a token queued, a call about
      to send one, or a flusher that has one and has not flushed yet, unless a call panicked inside the
      lock, which a run that begins only encodable packs never sees. */
  lemma NoLostFlush(states: seq<State>, steps: seq<Step>, i: nat)
    requires IsRun(states, steps) && i < |states|
    requires Healthy(states[i]) && states[i].wire.buffer != []
    ensures states[i].jammed || FlushComing(states[i])
    ensures BeginsEncodable(steps[..i]) ==> FlushComing(states[i])
  {
    RunKeepsInv(states, steps, i);
    if BeginsEncodable(steps[..i]) {
      NeverJams(states, steps, i);
    }
  }

  // ------------------------------------------------------------ exactly when the lock is lost

  /** The step the lock's holder takes next. */
  ghost function HolderStep(s: State): Step
    requires s.lock != Free
  {
    if s.lock == ByFlusher then Flush
    else if At(s, s.lock.id, Writing) then
      Write(s.lock.id, |s.wire.sent + s.wire.buffer + Encoded(s.calls[s.lock.id].pack)|)
    else Check(s.lock.id)
  }

  /** The lock is lost: its holder is past the checks with a pack that has no encoding. */
  ghost predicate Doomed(s: State)
  {
    && s.lock.ByCall? && s.lock.id in s.calls && !s.wire.broken
    && !s.calls[s.lock.id].pc.Locked? && Encode(s.calls[s.lock.id].pack).None?
  }

  /** No deadlock, exactly: in every reachable state with an unbroken writer, whoever holds the lock can
      move on if and only if it is not past the checks with an unencodable pack. And while tokens are
      queued on a healthy queue (so also while the channel is full and calls block on it) the flusher can
      move on or waits only for that holder. */
  lemma NeverStuck(states: seq<State>, steps: seq<Step>, i: nat)
    requires IsRun(states, steps) && i < |states|
    ensures states[i].lock != Free && !states[i].wire.broken ==>
      (Enabled(states[i], HolderStep(states[i])) <==> !Doomed(states[i]))
    ensures Healthy(states[i]) && states[i].tokens > 0 ==>
      || Enabled(states[i], FlusherCheck) || Enabled(states[i], FlusherReceive)
      || Enabled(states[i], FlusherLock) || Enabled(states[i], Flush)
      || (states[i].flusher == GotToken && states[i].lock.ByCall?)
  {
    hide Encode, Stream, IsRun, FixedHeader, WireOk;
    RunKeepsInv(states, steps, i);
  }

  ghost predicate BeginsEncodable(steps: seq<Step>)
  {
    forall i :: 0 <= i < |steps| && steps[i].Begin? ==> Encode(steps[i].pack).Some?
  }

  /** Every call that may still write has an encodable pack. */
  ghost predicate WritersEncodable(calls: map<nat, Call>)
  {
    forall id :: id in calls && (calls[id].pc.Start? || InCritical(calls[id].pc)) ==> Encode(calls[id].pack).Some?
  }

  /** A run that begins only encodable packs never loses the lock. */
  lemma {:induction false} NeverJams(states: seq<State>, steps: seq<Step>, i: nat)
    requires IsRun(states, steps) && i < |states| && BeginsEncodable(steps[..i])
    ensures !states[i].jammed && !Doomed(states[i]) && WritersEncodable(states[i].calls)
  {
    hide Next, Enabled, WritersEncodable, Encode, Doomed;
    if i == 0 {
      StartsEncodable(states[0]);
    } else {
      assert steps[..i][i - 1] == steps[i - 1];
      forall k | 0 <= k < i - 1 && steps[k].Begin?
        ensures Encode(steps[k].pack).Some?
      {
        assert steps[..i][k] == steps[k];
      }
      NeverJams(states, steps, i - 1);
      StepKeepsEncodable(states[i - 1], steps[i - 1]);
    }
    RunKeepsInv(states, steps, i);
    NotDoomed(states[i]);
  }

  lemma StartsEncodable(s: State)
    requires Init(s)
    ensures WritersEncodable(s.calls) && !s.jammed
  {
  }

  lemma NotDoomed(s: State)
    requires Inv(s) && !s.jammed && WritersEncodable(s.calls)
    ensures !Doomed(s)
  {
    hide Encode, WireOk;
  }

  lemma StepKeepsEncodable(s: State, step: Step)
    requires Enabled(s, step) && WritersEncodable(s.calls) && !s.jammed
    requires step.Begin? ==> Encode(step.pack).Some?
    ensures WritersEncodable(Next(s, step).calls) && !Next(s, step).jammed
  {
    JamsOnlyByPanic(s, step);
    if !step.Begin? && !step.BeginClose? {
      PacksStay(s, step);
      NoneEnters(s, step);
      hide Enabled, Next, Encode;
    } else {
      hide Encode;
    }
  }

  /** No step but Begin puts a call before the checks. */
  lemma NoneEnters(s: State, step: Step)
    requires Enabled(s, step) && WritersEncodable(s.calls) && !step.Begin? && !step.BeginClose?
    ensures !step.WritePanics?
    ensures forall id :: id in s.calls && (Next(s, step).calls[id].pc.Start? || InCritical(Next(s, step).calls[id].pc)) ==>
      s.calls[id].pc.Start? || InCritical(s.calls[id].pc)
  {
    if OfSend(step) {
      SendFrame(s, step);
      hide Encode, Enabled, Next;
    } else {
      hide Encode, Encoded, FixedHeader, Written, WrittenInPart, CanWrite, CanFail;
    }
  }

  /** Whereas one call with an unencodable pack on a free, unbroken queue with room is enough. */
  lemma CallCanJam(s: State, id: nat, p: Pack) returns (states: seq<State>, steps: seq<Step>)
    requires s.connected && !s.writeError && !s.wire.broken && |s.wire.buffer| < s.wire.size && s.lock == Free
    requires id !in s.calls && Encode(p).None?
    ensures IsPath(states, steps) && states[0] == s && states[|steps|].jammed && Doomed(states[|steps|])
    ensures steps == [Begin(id, p), TakeLock(id), Check(id), WritePanics(id)]
  {
    hide Encode, FixedHeader;
    var s1 := Next(s, Begin(id, p));
    var s2 := Next(s1, TakeLock(id));
    var s3 := Next(s2, Check(id));
    var s4 := Next(s3, WritePanics(id));
    steps := [Begin(id, p), TakeLock(id), Check(id), WritePanics(id)];
    states := [s, s1, s2, s3, s4];
    FourSteps(states, steps);
  }

  lemma FourSteps(states: seq<State>, steps: seq<Step>)
    requires |states| == 5 && |steps| == 4
    requires Enabled(states[0], steps[0]) && states[1] == Next(states[0], steps[0])
    requires Enabled(states[1], steps[1]) && states[2] == Next(states[1], steps[1])
    requires Enabled(states[2], steps[2]) && states[3] == Next(states[2], steps[2])
    requires Enabled(states[3], steps[3]) && states[4] == Next(states[3], steps[3])
    ensures IsPath(states, steps)
  {
    hide Enabled, Next;
  }

  /** A message of 256 MiB cannot be encoded. */
  function HugePublish(): Pack
  {
    Pack(PUBLISH, 0, 0, 0, 0, PublishVar([116], 0, seq(268435456, _ => 0)))
  }

  /** So there is a run that loses the lock. */
  lemma CanJam(s: State) returns (states: seq<State>, steps: seq<Step>)
    requires Init(s) && s.wire.size > 0
    ensures IsRun(states, steps) && states[0] == s && states[|steps|].jammed
  {
    hide Enabled, Next, Doomed;
    assert Encode(HugePublish()).None?;
    states, steps := CallCanJam(s, 0, HugePublish());
  }

  /** A lost lock stays lost: no call is accepted and nothing is sent any more. */
  lemma {:induction false} DoomedForGood(states: seq<State>, steps: seq<Step>, i: nat)
    requires IsPath(states, steps) && i < |states| && Inv(states[0]) && Doomed(states[0])
    ensures Inv(states[i]) && Doomed(states[i]) && states[i].lock == states[0].lock
    ensures states[i].wire.sent == states[0].wire.sent && states[i].wire.accepted == states[0].wire.accepted
    ensures states[0].wire.buffer <= states[i].wire.buffer
  {
    hide Inv, Next, Enabled, Doomed;
    if i > 0 {
      DoomedForGood(states, steps, i - 1);
      StepKeepsInv(states[i - 1], steps[i - 1]);
      DoomedStep(states[i - 1], steps[i - 1]);
    }
  }

  lemma DoomedStep(s: State, step: Step)
    requires Inv(s) && Doomed(s) && Enabled(s, step)
    ensures
      var t := Next(s, step);
      && Doomed(t) && t.lock == s.lock
      && t.wire.sent == s.wire.sent && t.wire.accepted == s.wire.accepted && s.wire.buffer <= t.wire.buffer
  {
    if s.jammed {
      JamStep(s, step);
      JamKeepsPc(s, step);
      hide Encode, Enabled, Next, FixedHeader, WireOk;
    } else {
      assert At(s, s.lock.id, Writing);
      if OfWrite(step) {
        hide Encode, FixedHeader, WireOk, WireInv, FlushOk, Written, WrittenInPart;
      } else if OfSend(step) {
        SendFrame(s, step);
        hide Encode, FixedHeader, WireOk, WireInv, FlushOk, Written, WrittenInPart, Enabled, Next;
      } else {
        hide Encode, FixedHeader, WireOk, WireInv, FlushOk, Written, WrittenInPart, CanWrite, CanFail;
      }
    }
  }

  lemma JamKeepsPc(s: State, step: Step)
    requires LockOk(s) && s.jammed && Enabled(s, step)
    ensures s.lock.id in Next(s, step).calls && !Next(s, step).calls[s.lock.id].pc.Locked?
  {
    StepKeepsLock(s, step);
    JamStep(s, step);
    hide Encode, Enabled, Next;
  }

  /** After a panic not even the wire's buffer changes. */
  lemma {:induction false} JammedForGood(states: seq<State>, steps: seq<Step>, i: nat, j: nat)
    requires IsRun(states, steps) && i <= j < |states| && states[i].jammed
    ensures states[j].jammed && states[j].lock == states[i].lock && states[j].lock.ByCall?
    ensures states[j].wire == states[i].wire
    decreases j
  {
    hide LockOk, WireInv, FlushOk, Next, Enabled;
    RunKeepsInv(states, steps, j);
    if i == j {
      JamHolds(states[i]);
    } else {
      JammedForGood(states, steps, i, j - 1);
      RunKeepsInv(states, steps, j - 1);
      JamStep(states[j - 1], steps[j - 1]);
    }
  }

  lemma JamHolds(s: State)
    requires LockOk(s) && s.jammed
    ensures s.lock.ByCall?
  {
  }

  // ------------------------------------------------------------ a way to the flush

  /** The holder, if it is a call, can encode its pack or will be refused. */
  ghost predicate Viable(s: State)
  {
    s.lock.ByCall? ==>
      && s.lock.id in s.calls
      && (|| Encode(s.calls[s.lock.id].pack).Some?
          || (s.calls[s.lock.id].pc.Locked? && (s.writeError || |s.wire.buffer| >= s.wire.size)))
  }

  /** The step that brings the next flush closer: first whoever holds the lock, then the flusher, then,
      if it waits for a token, a call that has one to send. */
  ghost predicate Advances(s: State, step: Step)
  {
    if s.lock != Free then step == HolderStep(s)
    else if s.flusher == Checking then step == FlusherCheck
    else if s.flusher == GotToken then step == FlusherLock
    else if s.tokens > 0 then step == FlusherReceive
    else step.Send? && step.id in s.calls && s.calls[step.id].pc.Sending?
  }

  ghost function Rank(s: State): nat
  {
    (if s.lock.ByCall? then if At(s, s.lock.id, Writing) then 1 else 2 else 0)
    + (match s.flusher
       case Checking => 5
       case Receiving => if s.tokens > 0 then 3 else 4
       case GotToken => 2
       case Flushing => 1
       case Exited => 0)
  }

  lemma CanAdvance(s: State) returns (step: Step)
    requires Inv(s) && Healthy(s) && Viable(s) && s.wire.buffer != []
    ensures Advances(s, step) && Enabled(s, step)
  {
    hide Encode, Encoded, Stream, WireOk, FixedHeader;
    if s.lock != Free {
      step := HolderStep(s);
    } else if s.flusher == Checking {
      step := FlusherCheck;
    } else if s.flusher == GotToken {
      step := FlusherLock;
    } else if s.tokens > 0 {
      step := FlusherReceive;
    } else {
      var id :| id in s.calls && s.calls[id].pc.Sending?;
      step := Send(id);
    }
  }

  lemma AdvanceHelps(s: State, step: Step)
    requires Inv(s) && Healthy(s) && s.wire.buffer != [] && Viable(s)
    requires Advances(s, step) && Enabled(s, step)
    ensures Healthy(Next(s, step)) && Viable(Next(s, step))
    ensures Next(s, step).wire.buffer == [] || Rank(Next(s, step)) < Rank(s)
    ensures s.wire.accepted <= Next(s, step).wire.accepted
  {
    hide Encode, Encoded, FixedHeader, Stream, WireOk, WireInv;
  }

  lemma {:induction false} CanDrain(s: State) returns (states: seq<State>, steps: seq<Step>)
    requires Inv(s) && Healthy(s) && Viable(s)
    ensures IsPath(states, steps) && states[0] == s && |steps| <= Rank(s) <= 7
    ensures
      var w := states[|steps|].wire;
      w.buffer == [] && s.wire.accepted <= w.accepted && w.sent == Stream(w.accepted)
    decreases Rank(s)
  {
    hide Inv, Viable, Enabled, Next, Advances, Rank, Healthy, Stream;
    RankBound(s);
    if s.wire.buffer == [] {
      states, steps := [s], [];
      WholeOnWire(s);
    } else {
      var step := CanAdvance(s);
      AdvanceHelps(s, step);
      StepKeepsInv(s, step);
      var t := Next(s, step);
      RankPositive(s);
      if t.wire.buffer == [] {
        states, steps := [s, t], [step];
        WholeOnWire(t);
      } else {
        states, steps := CanDrain(t);
        states, steps := [s] + states, [step] + steps;
      }
    }
  }

  lemma RankBound(s: State)
    ensures Rank(s) <= 7
  {
  }

  lemma RankPositive(s: State)
    requires Inv(s) && Healthy(s)
    ensures Rank(s) >= 1
  {
    hide WireInv, LockOk;
  }

  lemma WholeOnWire(s: State)
    requires Inv(s) && Healthy(s) && s.wire.buffer == []
    ensures s.wire.sent == Stream(s.wire.accepted)
  {
    hide Stream, LockOk, FlushOk, FixedHeader;
    assert s.wire.sent + [] == s.wire.sent && Stream(s.wire.accepted) + [] == Stream(s.wire.accepted);
  }

  lemma FreshId(ids: set<nat>) returns (id: nat)
    ensures forall k :: k in ids ==> k < id
    decreases ids
  {
    if ids == {} {
      id := 0;
    } else {
      var k :| k in ids;
      var bound := FreshId(ids - {k});
      id := if bound > k then bound else k + 1;
      assert forall j :: j in ids ==> j == k || j in ids - {k};
    }
  }

  /** A flush stays within reach as long as the lock is not lost: from every reachable healthy state in
      which it is not, a path of at most nine steps puts everything accepted on the wire. */
  lemma FlushWithinReach(states: seq<State>, steps: seq<Step>, i: nat) returns (path: seq<State>, moves: seq<Step>)
    requires IsRun(states, steps) && i < |states|
    requires Healthy(states[i]) && !Doomed(states[i])
    ensures IsPath(path, moves) && path[0] == states[i] && |moves| <= 9
    ensures
      var w := path[|moves|].wire;
      w.buffer == [] && states[i].wire.accepted <= w.accepted && w.sent == Stream(w.accepted)
  {
    hide Inv, Viable, Enabled, Next, Healthy, Doomed;
    var s := states[i];
    RunKeepsInv(states, steps, i);
    if Viable(s) {
      path, moves := CanDrain(s);
    } else {
      var id := FreshId(s.calls.Keys);
      ghost var p := HugePublish();
      CloserFrees(s, id, p);
      var s1 := Next(s, BeginClose(id, p));
      var s2 := Next(s1, CloseStep(id));
      StepKeepsInv(s, BeginClose(id, p));
      StepKeepsInv(s1, CloseStep(id));
      path, moves := CanDrain(s2);
      path, moves := [s, s1] + path, [BeginClose(id, p), CloseStep(id)] + moves;
    }
  }

  /** A call before the checks whose pack has no encoding is refused once someone begins to close. */
  lemma CloserFrees(s: State, id: nat, p: Pack)
    requires Inv(s) && Healthy(s) && !Doomed(s) && !Viable(s) && id !in s.calls
    ensures Enabled(s, BeginClose(id, p))
    ensures
      var s1 := Next(s, BeginClose(id, p));
      && Enabled(s1, CloseStep(id))
      && var s2 := Next(s1, CloseStep(id));
         Healthy(s2) && Viable(s2) && s2.wire == s.wire
  {
    hide Encode, WireInv, FlushOk;
  }

  /** And only as long: from a state in which the lock is lost, no path ever flushes. */
  lemma NoFlushOnceLost(states: seq<State>, steps: seq<Step>, i: nat, path: seq<State>, moves: seq<Step>, k: nat)
    requires IsRun(states, steps) && i < |states| && Doomed(states[i])
    requires IsPath(path, moves) && path[0] == states[i] && k < |path|
    ensures path[k].wire.sent == states[i].wire.sent && states[i].wire.buffer <= path[k].wire.buffer
  {
    hide Inv, Next, Enabled, Doomed;
    RunKeepsInv(states, steps, i);
    DoomedForGood(path, moves, k);
  }
}
