/** The write queue of gate/base/mqtt/pack_queue.go as a protocol: any number of WritePack calls, one
    flusher, a lock, a token channel and a buffered writer, interleaved step by step. Close is not
    under the lock, and its three effects are three steps. */
module PackQueue {
  import opened Values
  import opened Mqtt
  import opened MqttRoundTrip

  const TOKENS: nat := 256

  datatype Result = Accepted | Disconnected | WriteError | BufferFull | Failed

  /** Where a call of WritePack, or of Close, stands. */
  datatype Pc =
    | Start                     // before the lock
    | Locked(late: bool)        // has the lock, taken after CLOSED or not; checks to do
    | Writing                   // has the lock and passed the checks
    | Sending(failed: bool)     // lock released, token to send
    | SetError                  // in Close
    | CloseChannel
    | SetStatus
    | Done(result: Result)

  datatype Call = Call(pack: Pack, pc: Pc)

  datatype Flusher = Checking | Receiving | GotToken | Flushing | Exited

  datatype Holder = Free | ByCall(id: nat) | ByFlusher

  /** The buffered writer and the connection behind it, with what has been written so far. */
  datatype Wire = Wire(
    size: nat,                  // of the buffer
    buffer: bytes,
    sent: bytes,                // on the wire
    broken: bool,               // the writer's sticky error
    accepted: seq<Pack>,        // packs written in full, in lock order
    partial: bytes,             // what a failed write left of its pack
    victim: Pack)               // that pack

  datatype State = State(
    calls: map<nat, Call>,
    flusher: Flusher,
    lock: Holder,
    connected: bool,
    writeError: bool,
    tokens: nat,
    closed: bool,               // the token channel
    jammed: bool,               // a call panicked inside the lock
    wire: Wire)

  datatype Step =
    | Begin(id: nat, pack: Pack)
    | BeginClose(id: nat, pack: Pack)
    | TakeLock(id: nat)
    | Check(id: nat)
    | Write(id: nat, onWire: nat)             // onWire: bytes on the wire afterwards
    | WriteFails(id: nat, onWire: nat, cut: nat)
    | WritePanics(id: nat)
    | Send(id: nat)
    | SendPanics(id: nat)
    | CloseStep(id: nat)
    | FlusherCheck
    | FlusherReceive
    | FlusherLock
    | Flush
    | FlushFails(onWire: nat)

  ghost predicate At(s: State, id: nat, pc: Pc)
  {
    id in s.calls && s.calls[id].pc == pc
  }

  // ------------------------------------------------------------ what happens to the wire

  /** Some of the bytes go out, the rest stays buffered. */
  function Spread(w: Wire, all: bytes, onWire: nat): Wire
    requires onWire <= |all|
  {
    w.(sent := all[..onWire], buffer := all[onWire..])
  }

  ghost predicate CanWrite(w: Wire, p: Pack, onWire: nat)
  {
    && !w.broken && Encode(p).Some?
    && |w.sent| <= onWire <= |w.sent + w.buffer + Encoded(p)| <= onWire + w.size
  }

  function Written(w: Wire, p: Pack, onWire: nat): Wire
    requires onWire <= |w.sent + w.buffer + Encoded(p)|
  {
    Spread(w, w.sent + w.buffer + Encoded(p), onWire).(accepted := w.accepted + [p])
  }

  /** A write that fails leaves a proper beginning of the pack; on a broken writer it leaves nothing. */
  ghost predicate CanFail(w: Wire, p: Pack, onWire: nat, cut: nat)
  {
    if w.broken then cut == 0 && onWire == |w.sent|
    else
      && Encode(p).Some? && cut < |Encoded(p)|
      && |w.sent| <= onWire <= |w.sent + w.buffer| + cut <= onWire + w.size
  }

  function WrittenInPart(w: Wire, p: Pack, onWire: nat, cut: nat): Wire
    requires cut <= |Encoded(p)| && onWire <= |w.sent + w.buffer| + cut
  {
    var w' := Spread(w, w.sent + w.buffer + Encoded(p)[..cut], onWire);
    if w.broken then w' else w'.(broken := true, partial := Encoded(p)[..cut], victim := p)
  }

  function Flushed(w: Wire): Wire
  {
    w.(sent := w.sent + w.buffer, buffer := [])
  }

  // ------------------------------------------------------------ steps

  ghost predicate Enabled(s: State, step: Step)
  {
    match step
    case Begin(id, _) => id !in s.calls
    case BeginClose(id, _) => id !in s.calls
    case TakeLock(id) => At(s, id, Start) && s.lock == Free
    case Check(id) => id in s.calls && s.calls[id].pc.Locked?
    case Write(id, onWire) => At(s, id, Writing) && CanWrite(s.wire, s.calls[id].pack, onWire)
    case WriteFails(id, onWire, cut) => At(s, id, Writing) && CanFail(s.wire, s.calls[id].pack, onWire, cut)
    case WritePanics(id) => At(s, id, Writing) && !s.wire.broken && Encode(s.calls[id].pack).None?
    case Send(id) => id in s.calls && s.calls[id].pc.Sending? && !s.closed && s.tokens < TOKENS
    case SendPanics(id) => id in s.calls && s.calls[id].pc.Sending? && s.closed
    case CloseStep(id) => At(s, id, SetError) || At(s, id, CloseChannel) || At(s, id, SetStatus)
    case FlusherCheck => s.flusher == Checking
    case FlusherReceive => s.flusher == Receiving && (s.tokens > 0 || s.closed)
    case FlusherLock => s.flusher == GotToken && s.lock == Free
    case Flush => s.flusher == Flushing && (s.wire.broken && s.connected ==> s.wire.buffer == [])
    case FlushFails(onWire) =>
      && s.flusher == Flushing && s.connected && s.wire.buffer != []
      && |s.wire.sent| <= onWire <= |s.wire.sent + s.wire.buffer|
      && (s.wire.broken ==> onWire == |s.wire.sent|)
  }

  function Goto(calls: map<nat, Call>, id: nat, pc: Pc): map<nat, Call>
    requires id in calls
  {
    calls[id := calls[id].(pc := pc)]
  }

  function AfterCheck(s: State, id: nat): State
    requires id in s.calls
  {
    if !s.connected then s.(calls := Goto(s.calls, id, Done(Disconnected)), lock := Free)
    else if s.writeError then s.(calls := Goto(s.calls, id, Done(WriteError)), lock := Free)
    else if |s.wire.buffer| >= s.wire.size then s.(calls := Goto(s.calls, id, Done(BufferFull)), lock := Free)
    else s.(calls := Goto(s.calls, id, Writing))
  }

  function AfterClose(s: State, id: nat): State
    requires id in s.calls
  {
    match s.calls[id].pc
    case SetError => s.(calls := Goto(s.calls, id, CloseChannel), writeError := true)
    case CloseChannel => s.(calls := Goto(s.calls, id, SetStatus), closed := true)
    case _ => s.(calls := Goto(s.calls, id, Done(Failed)), connected := false)
  }

  ghost function Next(s: State, step: Step): State
    requires Enabled(s, step)
  {
    match step
    case Begin(id, pack) => s.(calls := s.calls[id := Call(pack, Start)])
    case BeginClose(id, pack) => s.(calls := s.calls[id := Call(pack, SetError)])
    case TakeLock(id) => s.(calls := Goto(s.calls, id, Locked(!s.connected)), lock := ByCall(id))
    case Check(id) => AfterCheck(s, id)
    case Write(id, onWire) =>
      s.(calls := Goto(s.calls, id, Sending(false)), lock := Free, wire := Written(s.wire, s.calls[id].pack, onWire))
    case WriteFails(id, onWire, cut) =>
      s.(calls := Goto(s.calls, id, Sending(true)), lock := Free,
         wire := WrittenInPart(s.wire, s.calls[id].pack, onWire, cut))
    case WritePanics(id) =>
      s.(calls := Goto(s.calls, id, SetError), jammed := true,
         wire := s.wire.(buffer := s.wire.buffer + [FixedHeader(s.calls[id].pack)]))
    case Send(id) =>
      s.(calls := Goto(s.calls, id, if s.calls[id].pc.failed then SetError else Done(Accepted)), tokens := s.tokens + 1)
    case SendPanics(id) => s.(calls := Goto(s.calls, id, SetError))
    case CloseStep(id) => AfterClose(s, id)
    case FlusherCheck => s.(flusher := if s.connected then Receiving else Exited)
    case FlusherReceive => if s.tokens > 0 then s.(flusher := GotToken, tokens := s.tokens - 1) else s.(flusher := Exited)
    case FlusherLock => s.(flusher := Flushing, lock := ByFlusher)
    case Flush =>
      if !s.connected then s.(flusher := Exited, lock := Free)
      else s.(flusher := Checking, lock := Free, wire := Flushed(s.wire))
    case FlushFails(onWire) =>
      s.(flusher := Exited, lock := Free,
         wire := Spread(s.wire, s.wire.sent + s.wire.buffer, onWire).(broken := true))
  }

  ghost predicate Init(s: State)
  {
    && s.calls == map[] && s.flusher == Checking && s.lock == Free && s.connected && !s.writeError
    && s.tokens == 0 && !s.closed && !s.jammed
    && s.wire.buffer == [] && s.wire.sent == [] && !s.wire.broken && s.wire.accepted == [] && s.wire.partial == []
  }

  ghost predicate IsRun(states: seq<State>, steps: seq<Step>)
  {
    IsPath(states, steps) && Init(states[0])
  }

  /** A run from anywhere. */
  ghost predicate IsPath(states: seq<State>, steps: seq<Step>)
  {
    && |states| == |steps| + 1
    && forall i :: 0 <= i < |steps| ==> Enabled(states[i], steps[i]) && states[i + 1] == Next(states[i], steps[i])
  }

  predicate OfCall(step: Step)
  {
    step.Begin? || step.BeginClose? || step.TakeLock? || step.Check?
  }

  predicate OfWrite(step: Step)
  {
    step.Write? || step.WriteFails? || step.WritePanics?
  }

  predicate OfSend(step: Step)
  {
    step.Send? || step.SendPanics? || step.CloseStep?
  }

  predicate OfFlusher(step: Step)
  {
    !OfCall(step) && !OfWrite(step) && !OfSend(step)
  }

  // ------------------------------------------------------------ the lock

  predicate InCritical(pc: Pc)
  {
    pc.Locked? || pc.Writing?
  }

  /** The lock is held by exactly the one that is inside, or by a call that panicked there because its
      pack has no encoding. */
  ghost predicate LockOk(s: State)
  {
    && (forall id :: id in s.calls && InCritical(s.calls[id].pc) ==> s.lock == ByCall(id))
    && (s.flusher == Flushing <==> s.lock == ByFlusher)
    && (s.lock.ByCall? ==> s.lock.id in s.calls && (InCritical(s.calls[s.lock.id].pc) <==> !s.jammed))
    && (s.jammed ==> s.lock.ByCall? && !s.wire.broken && Encode(s.calls[s.lock.id].pack).None?)
  }

  lemma CallKeepsLock(s: State, step: Step)
    requires LockOk(s) && Enabled(s, step) && OfCall(step)
    ensures LockOk(Next(s, step))
  {
    hide Encode;
  }

  lemma WriteKeepsLock(s: State, step: Step)
    requires LockOk(s) && Enabled(s, step) && OfWrite(step)
    ensures LockOk(Next(s, step))
  {
    hide Encoded, Encode, FixedHeader, Written, WrittenInPart, CanWrite, CanFail;
    assert s.lock == ByCall(step.id);
  }

  lemma SendKeepsLock(s: State, step: Step)
    requires LockOk(s) && Enabled(s, step) && OfSend(step)
    ensures LockOk(Next(s, step))
  {
    SendFrame(s, step);
    hide Enabled, Next, Encode;
  }

  /** Such a step changes nothing of the lock, and moves its own call from outside to outside. */
  lemma SendFrame(s: State, step: Step)
    requires Enabled(s, step) && OfSend(step)
    ensures
      var t := Next(s, step);
      && step.id in s.calls && !InCritical(s.calls[step.id].pc)
      && t.lock == s.lock && t.jammed == s.jammed && t.flusher == s.flusher && t.wire == s.wire
      && t.calls.Keys == s.calls.Keys && !InCritical(t.calls[step.id].pc)
      && t.calls[step.id].pack == s.calls[step.id].pack
      && forall id :: id in s.calls && id != step.id ==> t.calls[id] == s.calls[id]
  {
    hide Encode, Encoded, FixedHeader, Written, WrittenInPart, CanWrite, CanFail, AfterCheck;
  }

  lemma FlusherKeepsLock(s: State, step: Step)
    requires LockOk(s) && Enabled(s, step) && OfFlusher(step)
    ensures LockOk(Next(s, step)) && Next(s, step).calls == s.calls
  {
    hide Encode;
  }

  lemma StepKeepsLock(s: State, step: Step)
    requires LockOk(s) && Enabled(s, step)
    ensures LockOk(Next(s, step))
  {
    hide LockOk, Enabled, Next;
    if OfCall(step) {
      CallKeepsLock(s, step);
    } else if OfWrite(step) {
      WriteKeepsLock(s, step);
    } else if OfSend(step) {
      SendKeepsLock(s, step);
    } else {
      FlusherKeepsLock(s, step);
    }
  }

  // ------------------------------------------------------------ the wire

  /** Wire and buffer together hold the encodings of the accepted packs, in lock order, and at most a
      proper beginning of one more. */
  ghost predicate WireOk(w: Wire)
  {
    && w.sent + w.buffer == Stream(w.accepted) + w.partial
    && (!w.broken ==> w.partial == [])
    && (w.partial != [] ==> w.partial < Encoded(w.victim))
  }

  lemma SpreadKeepsAll(w: Wire, all: bytes, onWire: nat)
    requires onWire <= |all|
    ensures Spread(w, all, onWire).sent + Spread(w, all, onWire).buffer == all
  {
  }

  lemma WriteKeepsWire(w: Wire, p: Pack, onWire: nat)
    requires WireOk(w) && CanWrite(w, p, onWire)
    ensures WireOk(Written(w, p, onWire))
  {
    hide Encode, Stream, Encoded;
    SpreadKeepsAll(w, w.sent + w.buffer + Encoded(p), onWire);
    StreamAppend(w.accepted, p);
    assert Stream(w.accepted) + [] == Stream(w.accepted);
  }

  lemma FailKeepsWire(w: Wire, p: Pack, onWire: nat, cut: nat)
    requires WireOk(w) && CanFail(w, p, onWire, cut)
    ensures WireOk(WrittenInPart(w, p, onWire, cut))
  {
    hide Encode, Stream, Encoded;
    var e := Encoded(p)[..cut];
    SpreadKeepsAll(w, w.sent + w.buffer + e, onWire);
    if w.broken {
      assert w.sent + w.buffer + e == w.sent + w.buffer;
    } else {
      assert Stream(w.accepted) + [] == Stream(w.accepted);
    }
  }

  /** A step that does not panic keeps the wire in order. */
  lemma StepKeepsWire(s: State, step: Step)
    requires WireOk(s.wire) && Enabled(s, step) && !step.WritePanics?
    ensures WireOk(Next(s, step).wire)
  {
    hide Encode, Stream, Encoded, CanWrite, CanFail, Written, WrittenInPart;
    match step
    case Write(id, onWire) => WriteKeepsWire(s.wire, s.calls[id].pack, onWire);
    case WriteFails(id, onWire, cut) => FailKeepsWire(s.wire, s.calls[id].pack, onWire, cut);
    case FlushFails(onWire) => SpreadKeepsAll(s.wire, s.wire.sent + s.wire.buffer, onWire);
    case Flush => assert s.wire.sent + s.wire.buffer + [] == s.wire.sent + s.wire.buffer;
    case _ =>
  }

  // ------------------------------------------------------------ no lost flush

  /** Nobody has closed the channel yet, and the connection is not lost. */
  ghost predicate Healthy(s: State)
  {
    s.connected && !s.closed && !s.wire.broken
  }

  ghost predicate SomeoneSends(calls: map<nat, Call>)
  {
    exists id :: id in calls && calls[id].pc.Sending?
  }

  ghost predicate FlushComing(s: State)
  {
    s.tokens > 0 || SomeoneSends(s.calls) || s.flusher == GotToken || s.flusher == Flushing
  }

  ghost predicate FlushOk(s: State)
  {
    && (Healthy(s) && !s.jammed && s.wire.buffer != [] ==> FlushComing(s))
    && (Healthy(s) ==> s.flusher != Exited)
    && s.tokens <= TOKENS
  }

  lemma StillSends(calls: map<nat, Call>, id: nat, c: Call)
    requires SomeoneSends(calls) && (id in calls ==> !calls[id].pc.Sending?)
    ensures SomeoneSends(calls[id := c])
  {
    var k :| k in calls && calls[k].pc.Sending?;
    assert k in calls[id := c] && calls[id := c][k].pc.Sending?;
  }

  lemma CallKeepsFlush(s: State, step: Step)
    requires FlushOk(s) && Enabled(s, step) && OfCall(step)
    ensures FlushOk(Next(s, step))
  {
    var t := Next(s, step);
    if SomeoneSends(s.calls) {
      StillSends(s.calls, step.id, t.calls[step.id]);
    }
  }

  lemma WriteKeepsFlush(s: State, step: Step)
    requires FlushOk(s) && Enabled(s, step) && OfWrite(step)
    ensures FlushOk(Next(s, step))
  {
    hide Encoded, Encode, FixedHeader, CanWrite, CanFail;
    var t := Next(s, step);
    if !step.WritePanics? {
      assert t.calls[step.id].pc.Sending?;
    }
  }

  lemma SendKeepsFlush(s: State, step: Step)
    requires FlushOk(s) && Enabled(s, step) && OfSend(step)
    ensures FlushOk(Next(s, step))
  {
    var t := Next(s, step);
    if step.CloseStep? && SomeoneSends(s.calls) {
      StillSends(s.calls, step.id, t.calls[step.id]);
    }
  }

  lemma StepKeepsFlush(s: State, step: Step)
    requires LockOk(s) && FlushOk(s) && Enabled(s, step)
    ensures FlushOk(Next(s, step))
  {
    if OfCall(step) {
      CallKeepsFlush(s, step);
    } else if OfWrite(step) {
      WriteKeepsFlush(s, step);
    } else if OfSend(step) {
      SendKeepsFlush(s, step);
    } else {
      FlusherKeepsFlush(s, step);
    }
  }

  lemma FlusherKeepsFlush(s: State, step: Step)
    requires FlushOk(s) && Enabled(s, step) && OfFlusher(step)
    ensures FlushOk(Next(s, step))
  {
    hide SomeoneSends;
  }

  // ------------------------------------------------------------ which packs the calls hold

  lemma PacksStay(s: State, step: Step)
    requires Enabled(s, step) && !step.Begin? && !step.BeginClose?
    ensures Next(s, step).calls.Keys == s.calls.Keys
    ensures forall id :: id in s.calls ==> Next(s, step).calls[id].pack == s.calls[id].pack
  {
    if OfCall(step) {
      CallMoves(s, step);
    } else if OfWrite(step) {
      WriteMoves(s, step);
    } else if OfSend(step) {
      SendMoves(s, step);
    } else {
      FlusherMoves(s, step);
    }
    hide Enabled, Next;
  }

  lemma CallMoves(s: State, step: Step)
    requires Enabled(s, step) && (step.TakeLock? || step.Check?)
    ensures step.id in s.calls && Next(s, step).calls == Goto(s.calls, step.id, Next(s, step).calls[step.id].pc)
  {
  }

  lemma WriteMoves(s: State, step: Step)
    requires Enabled(s, step) && OfWrite(step)
    ensures step.id in s.calls && Next(s, step).calls == Goto(s.calls, step.id, Next(s, step).calls[step.id].pc)
  {
    hide Encode, Encoded, Written, WrittenInPart, CanWrite, CanFail, FixedHeader;
  }

  lemma SendMoves(s: State, step: Step)
    requires Enabled(s, step) && OfSend(step)
    ensures step.id in s.calls && Next(s, step).calls == Goto(s.calls, step.id, Next(s, step).calls[step.id].pc)
  {
  }

  lemma FlusherMoves(s: State, step: Step)
    requires Enabled(s, step) && OfFlusher(step)
    ensures Next(s, step).calls == s.calls
  {
  }

  // ------------------------------------------------------------ runs

  /** The wire without the last buffered byte. */
  function Shorn(w: Wire): Wire
    requires w.buffer != []
  {
    w.(buffer := w.buffer[..|w.buffer| - 1])
  }

  /** The wire is in order; after a panic it is so but for the one header byte the panicking call left in
      the buffer. */
  ghost predicate WireInv(s: State)
  {
    if !s.jammed then WireOk(s.wire)
    else
      && s.lock.ByCall? && s.lock.id in s.calls
      && s.wire.buffer != [] && WireOk(Shorn(s.wire))
      && s.wire.buffer[|s.wire.buffer| - 1] == FixedHeader(s.calls[s.lock.id].pack)
  }

  ghost predicate Inv(s: State)
  {
    LockOk(s) && FlushOk(s) && WireInv(s)
  }

  lemma PanicKeepsWire(s: State, step: Step)
    requires LockOk(s) && WireInv(s) && Enabled(s, step) && step.WritePanics?
    ensures WireInv(Next(s, step))
  {
    hide Encode, Stream, FixedHeader, WireOk;
    var t := Next(s, step);
    assert s.lock == ByCall(step.id) && !s.jammed;
    assert Shorn(t.wire) == s.wire by { assert t.wire.buffer[..|s.wire.buffer|] == s.wire.buffer; }
  }

  /** Once a call panicked inside the lock, no step touches lock or wire. */
  lemma JamStep(s: State, step: Step)
    requires LockOk(s) && s.jammed && Enabled(s, step)
    ensures Next(s, step).jammed && Next(s, step).lock == s.lock && Next(s, step).wire == s.wire
    ensures s.lock.ByCall? && s.lock.id in Next(s, step).calls
    ensures Next(s, step).calls[s.lock.id].pack == s.calls[s.lock.id].pack
  {
    assert forall id :: id in s.calls ==> !InCritical(s.calls[id].pc);
    if OfSend(step) {
      SendFrame(s, step);
      hide Encode, Enabled, Next;
    } else {
      hide Encode, Encoded, FixedHeader, CanWrite, CanFail, Written, WrittenInPart;
    }
  }

  lemma StepKeepsWireInv(s: State, step: Step)
    requires LockOk(s) && WireInv(s) && Enabled(s, step)
    ensures WireInv(Next(s, step))
  {
    hide Encode, Encoded, FixedHeader, LockOk, WireOk, Written, WrittenInPart;
    if s.jammed {
      JamStep(s, step);
    } else if step.WritePanics? {
      PanicKeepsWire(s, step);
    } else {
      StepKeepsWire(s, step);
      JamsOnlyByPanic(s, step);
    }
  }

  lemma JamsOnlyByPanic(s: State, step: Step)
    requires Enabled(s, step)
    ensures Next(s, step).jammed <==> s.jammed || step.WritePanics?
  {
    hide Encode, Encoded, FixedHeader, Written, WrittenInPart;
  }

  lemma StepKeepsInv(s: State, step: Step)
    requires Inv(s) && Enabled(s, step)
    ensures Inv(Next(s, step))
  {
    hide LockOk, FlushOk, WireInv, Enabled, Next;
    StepKeepsLock(s, step);
    StepKeepsFlush(s, step);
    StepKeepsWireInv(s, step);
  }

  lemma InitIsInv(s: State)
    requires Init(s)
    ensures Inv(s)
  {
    assert s.wire.sent + s.wire.buffer == [];
  }

  lemma {:induction false} RunKeepsInv(states: seq<State>, steps: seq<Step>, i: nat)
    requires IsRun(states, steps) && i < |states|
    ensures Inv(states[i])
  {
    hide Inv, Next;
    if i == 0 {
      InitIsInv(states[0]);
    } else {
      RunKeepsInv(states, steps, i - 1);
      StepKeepsInv(states[i - 1], steps[i - 1]);
    }
  }

  /** A call that takes the lock after CLOSED is refused: it never writes. */
  lemma {:induction false} LateIsRefused(states: seq<State>, steps: seq<Step>, i: nat, j: nat, id: nat)
    requires IsRun(states, steps) && i < j < |states|
    requires steps[i] == TakeLock(id) && !states[i].connected
    ensures RefusedOrLate(states[j], id)
    decreases j
  {
    hide Next, Enabled, RefusedOrLate;
    if j > i + 1 {
      LateIsRefused(states, steps, i, j - 1, id);
      StaysRefused(states[j - 1], steps[j - 1], id);
    } else {
      TakenLate(states[i], id);
    }
  }

  ghost predicate RefusedOrLate(s: State, id: nat)
  {
    !s.connected && (At(s, id, Locked(true)) || At(s, id, Done(Disconnected)))
  }

  lemma TakenLate(s: State, id: nat)
    requires Enabled(s, TakeLock(id)) && !s.connected
    ensures RefusedOrLate(Next(s, TakeLock(id)), id)
  {
  }

  lemma StaysRefused(s: State, step: Step, id: nat)
    requires RefusedOrLate(s, id) && Enabled(s, step)
    ensures RefusedOrLate(Next(s, step), id)
  {
    hide Encode, Encoded, FixedHeader, Written, WrittenInPart, CanWrite, CanFail;
  }

  /** Wire refinement: in every reachable state, what is on the wire and in the buffer is the accepted
      packs' encodings in lock order, plus at most a proper beginning of the one pack whose write failed.
      After a panic inside the lock the buffer ends in one byte more, the header of the pack that could
      not be encoded. */
  lemma WireRefinement(states: seq<State>, steps: seq<Step>, i: nat)
    requires IsRun(states, steps) && i < |states|
    ensures !states[i].jammed ==> WireOk(states[i].wire)
    ensures states[i].jammed ==>
      var s := states[i];
      && s.lock.ByCall? && s.lock.id in s.calls && Encode(s.calls[s.lock.id].pack).None?
      && s.wire.buffer != [] && WireOk(Shorn(s.wire))
      && s.wire.buffer[|s.wire.buffer| - 1] == FixedHeader(s.calls[s.lock.id].pack)
  {
    hide Encode, Stream, FixedHeader, WireOk, IsRun;
    RunKeepsInv(states, steps, i);
  }

  /** A peer reading the wire with ReadPack gets a prefix of exactly the accepted packs, at every point of
      every run, and all of them once the buffer is flushed. */
  lemma PeerReadsAccepted(states: seq<State>, steps: seq<Step>, i: nat, maxLength: int)
    requires IsRun(states, steps) && i < |states|
    requires AllSendable(states[i].wire.accepted, maxLength)
    requires states[i].wire.partial != [] ==> Sendable(states[i].wire.victim, maxLength)
    ensures
      var w := states[i].wire;
      && ParseUpTo(w.sent, |w.accepted| + 1, maxLength).0 <= ReceivedAll(w.accepted)
      && (w.buffer == [] && w.partial == [] ==> ParseUpTo(w.sent, |w.accepted|, maxLength).0 == ReceivedAll(w.accepted))
  {
    hide Encode, FixedHeader, WireOk, AllSendable, Sendable, ParseUpTo, ReceivedAll, IsRun;
    WireRefinement(states, steps, i);
    WireIsRead(if states[i].jammed then Shorn(states[i].wire) else states[i].wire, maxLength);
  }

  lemma WireIsRead(w: Wire, maxLength: int)
    requires WireOk(w) && AllSendable(w.accepted, maxLength)
    requires w.partial != [] ==> Sendable(w.victim, maxLength)
    ensures ParseUpTo(w.sent, |w.accepted| + 1, maxLength).0 <= ReceivedAll(w.accepted)
    ensures w.buffer == [] && w.partial == [] ==>
      ParseUpTo(w.sent, |w.accepted|, maxLength).0 == ReceivedAll(w.accepted)
  {
    hide Encode, Encoded, Stream, Sendable, ParseUpTo, ReceivedAll;
    if w.partial == [] {
      assert w.sent + w.buffer == Stream(w.accepted);
      CutStream(w.accepted, w.sent, w.buffer, maxLength);
      PrefixStops(w.sent, w.accepted, maxLength);
    } else {
      var e := Encoded(w.victim);
      var rest := e[|w.partial|..];
      var ps := w.accepted + [w.victim];
      StreamAppend(w.accepted, w.victim);
      assert w.partial + rest == e;
      Assoc(w.sent, w.buffer, rest);
      Assoc(Stream(w.accepted), w.partial, rest);
      CutStream(ps, w.sent, w.buffer + rest, maxLength);
      ReceivedAppend(w.accepted, w.victim);
    }
  }

  lemma ReceivedAppend(ps: seq<Pack>, p: Pack)
    ensures ReceivedAll(ps + [p]) == ReceivedAll(ps) + [Received(p)] && |ReceivedAll(ps)| == |ps|
  {
    assert (ps + [p])[..|ps|] == ps;
    ReceivedAllLength(ps);
  }

  lemma PrefixStops(s: bytes, ps: seq<Pack>, maxLength: int)
    requires ParseUpTo(s, |ps|, maxLength).0 <= ReceivedAll(ps)
    requires |ParseUpTo(s, |ps|, maxLength).0| < |ps| || ParseUpTo(s, |ps|, maxLength) == (ReceivedAll(ps), [])
    ensures ParseUpTo(s, |ps| + 1, maxLength).0 <= ReceivedAll(ps)
  {
    ReceivedAllLength(ps);
    if |ParseUpTo(s, |ps|, maxLength).0| < |ps| {
      UpToShort(s, |ps|, maxLength);
    } else {
      UpToNext(s, |ps|, maxLength);
    }
  }
}
