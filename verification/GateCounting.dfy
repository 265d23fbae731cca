/** The connection counts of the gate: agents of gate/base/mqtt_agent.go come and go in goroutines of
    their own, and each announces itself to the handler of gate/base/gate_handler.go, which keeps a
    session map and a counter. Every update is a step of its own, and steps interleave at will. */
module GateCounting {
  import opened Values

  /** Where the goroutine of an agent stands. */
  datatype Pc =
    | Handshake               // in Run, before the handshake is over
    | Storing                 // in Connect, session to store
    | Counting                // in Connect, counter to raise
    | Listening
    | Admitted                // has a token, worker to start
    | Deleting                // in DisConnect, session to delete
    | Uncounting              // in DisConnect, counter to lower
    | Gone

  datatype Agent = Agent(
    pc: Pc,
    session: Option<string>,
    ok: bool,                 // protocol_ok
    tokens: nat,              // in the channel ch
    workers: set<nat>,
    swept: bool)              // its session was deleted by OnDestroy

  datatype State = State(limit: nat, agents: map<nat, Agent>, sessions: map<string, nat>, agentNum: int)

  datatype Step =
    | Accept(a: nat)
    | MakeSession(a: nat, sid: string)
    | FailHandshake(a: nat)
    | Acknowledge(a: nat)
    | Store(a: nat)
    | Count(a: nat)
    | Wait(a: nat)
    | Spawn(a: nat, w: nat)
    | Finish(a: nat, w: nat)
    | EndRun(a: nat)
    | Delete(a: nat)
    | Uncount(a: nat)
    | Sweep(sid: string)

  ghost predicate At(s: State, a: nat, pc: Pc)
  {
    a in s.agents && s.agents[a].pc == pc
  }

  ghost predicate Enabled(s: State, step: Step)
  {
    match step
    case Accept(a) => a !in s.agents
    case MakeSession(a, _) => At(s, a, Handshake) && s.agents[a].session.None?
    case FailHandshake(a) => At(s, a, Handshake)
    case Acknowledge(a) => At(s, a, Handshake) && s.agents[a].session.Some?
    case Store(a) => At(s, a, Storing) && s.agents[a].session.Some?
    case Count(a) => At(s, a, Counting)
    case Wait(a) => At(s, a, Listening) && s.agents[a].tokens < s.limit
    case Spawn(a, w) => At(s, a, Admitted) && w !in s.agents[a].workers
    case Finish(a, w) => a in s.agents && w in s.agents[a].workers
    case EndRun(a) => At(s, a, Listening)
    case Delete(a) => At(s, a, Deleting)
    case Uncount(a) => At(s, a, Uncounting)
    case Sweep(sid) => sid in s.sessions && s.sessions[sid] in s.agents
  }

  /** What a step makes of the one agent it is about. */
  ghost function Moved(s: State, step: Step): Agent
    requires Enabled(s, step)
  {
    match step
    case Accept(a) => Agent(Handshake, None, false, 0, {}, false)
    case MakeSession(a, sid) => s.agents[a].(session := Some(sid))
    case FailHandshake(a) => s.agents[a].(pc := Deleting)
    case Acknowledge(a) => s.agents[a].(pc := Storing, ok := true)
    case Store(a) => s.agents[a].(pc := Counting)
    case Count(a) => s.agents[a].(pc := Listening)
    case Wait(a) => s.agents[a].(pc := Admitted, tokens := s.agents[a].tokens + 1)
    case Spawn(a, w) => s.agents[a].(pc := Listening, workers := s.agents[a].workers + {w})
    case Finish(a, w) =>
      s.agents[a].(workers := s.agents[a].workers - {w}, tokens := if s.agents[a].tokens > 0 then s.agents[a].tokens - 1 else 0)
    case EndRun(a) => s.agents[a].(pc := Deleting)
    case Delete(a) => s.agents[a].(pc := Uncounting)
    case Uncount(a) => s.agents[a].(pc := Gone)
    case Sweep(sid) => s.agents[s.sessions[sid]].(swept := true)
  }

  ghost function Mover(s: State, step: Step): nat
    requires Enabled(s, step)
  {
    if step.Sweep? then s.sessions[step.sid] else step.a
  }

  ghost function NextSessions(s: State, step: Step): map<string, nat>
    requires Enabled(s, step)
  {
    match step
    case Store(a) => s.sessions[s.agents[a].session.value := a]
    case Delete(a) => if s.agents[a].session.Some? then s.sessions - {s.agents[a].session.value} else s.sessions
    case Sweep(sid) => s.sessions - {sid}
    case _ => s.sessions
  }

  ghost function NextNum(s: State, step: Step): int
    requires Enabled(s, step)
  {
    match step
    case Count(a) => if s.agents[a].session.Some? && s.agents[a].ok then s.agentNum + 1 else s.agentNum
    case Uncount(a) => if s.agents[a].session.Some? && s.agents[a].ok then s.agentNum - 1 else s.agentNum
    case _ => s.agentNum
  }

  ghost function Next(s: State, step: Step): State
    requires Enabled(s, step)
  {
    State(s.limit, s.agents[Mover(s, step) := Moved(s, step)], NextSessions(s, step), NextNum(s, step))
  }

  ghost predicate IsRun(states: seq<State>, steps: seq<Step>)
  {
    && |states| == |steps| + 1
    && states[0] == State(states[0].limit, map[], map[], 0)
    && forall i :: 0 <= i < |steps| ==> Enabled(states[i], steps[i]) && states[i + 1] == Next(states[i], steps[i])
  }

  // ------------------------------------------------------------ invariants

  /** Connected and not yet disconnected, as the counter sees it. */
  predicate Counted(g: Agent)
  {
    g.pc == Listening || g.pc == Admitted || (g.ok && (g.pc == Deleting || g.pc == Uncounting))
  }

  /** Connected and not yet disconnected, as the session map sees it. */
  predicate Stored(g: Agent)
  {
    g.ok && g.session.Some? && (g.pc == Counting || g.pc == Listening || g.pc == Admitted || g.pc == Deleting)
  }

  ghost predicate AgentOk(g: Agent, limit: nat)
  {
    && g.tokens == |g.workers| + (if g.pc == Admitted then 1 else 0) <= limit
    && (g.pc == Handshake ==> !g.ok)
    && (g.ok ==> g.session.Some?)
    && (g.pc == Storing || g.pc == Counting || g.pc == Listening || g.pc == Admitted ==> g.ok)
  }

  ghost function CountedIds(agents: map<nat, Agent>): set<nat>
  {
    set a | a in agents && Counted(agents[a])
  }

  /** The map names only agents that are stored under that session. */
  ghost predicate SessionsOk(s: State)
  {
    forall sid :: sid in s.sessions ==>
      s.sessions[sid] in s.agents && Stored(s.agents[s.sessions[sid]]) && s.agents[s.sessions[sid]].session == Some(sid)
  }

  ghost predicate Inv(s: State)
  {
    && (forall a :: a in s.agents ==> AgentOk(s.agents[a], s.limit))
    && s.agentNum == |CountedIds(s.agents)|
    && SessionsOk(s)
  }

  lemma MovedIsOk(s: State, step: Step)
    requires Enabled(s, step) && forall a :: a in s.agents ==> AgentOk(s.agents[a], s.limit)
    ensures AgentOk(Moved(s, step), s.limit)
  {
    if step.Finish? {
      assert s.agents[step.a].workers == s.agents[step.a].workers - {step.w} + {step.w};
    }
  }

  lemma CountedUpdate(agents: map<nat, Agent>, a: nat, g: Agent)
    ensures CountedIds(agents[a := g]) == if Counted(g) then CountedIds(agents) + {a} else CountedIds(agents) - {a}
  {
  }

  /** The counter changes exactly with its agent. */
  lemma CountMoves(s: State, step: Step)
    requires Enabled(s, step) && forall a :: a in s.agents ==> AgentOk(s.agents[a], s.limit)
    ensures
      var a := Mover(s, step);
      var before := a in s.agents && Counted(s.agents[a]);
      NextNum(s, step) - s.agentNum == (if Counted(Moved(s, step)) then 1 else 0) - (if before then 1 else 0)
  {
    var a := Mover(s, step);
    if a in s.agents {
      assert AgentOk(s.agents[a], s.limit);
    }
  }

  lemma StepKeepsCount(s: State, step: Step)
    requires Inv(s) && Enabled(s, step)
    ensures Next(s, step).agentNum == |CountedIds(Next(s, step).agents)|
  {
    CountMoves(s, step);
    hide Enabled, Mover, Moved, NextNum, NextSessions, AgentOk, SessionsOk;
    var a, g, ids := Mover(s, step), Moved(s, step), CountedIds(s.agents);
    CountedUpdate(s.agents, a, g);
    assert a in ids <==> a in s.agents && Counted(s.agents[a]);
    if Counted(g) && a in ids {
      assert ids + {a} == ids;
    } else if !Counted(g) && a !in ids {
      assert ids - {a} == ids;
    }
  }

  predicate OfMap(step: Step)
  {
    step.Store? || step.Delete? || step.Sweep?
  }

  /** A step that leaves the map alone leaves its agent as connected as it was. */
  lemma OtherStepFrame(s: State, step: Step)
    requires Inv(s) && Enabled(s, step) && !OfMap(step)
    ensures
      var a, g := Mover(s, step), Moved(s, step);
      && NextSessions(s, step) == s.sessions
      && (Stored(g) <==> a in s.agents && Stored(s.agents[a]))
      && (a in s.agents && s.agents[a].session.Some? ==> g.session == s.agents[a].session && g.swept == s.agents[a].swept)
  {
    var a := Mover(s, step);
    if a in s.agents {
      assert AgentOk(s.agents[a], s.limit);
    }
  }

  lemma StepKeepsSessions(s: State, step: Step)
    requires Inv(s) && Enabled(s, step)
    ensures SessionsOk(Next(s, step))
  {
    if OfMap(step) {
      assert AgentOk(s.agents[Mover(s, step)], s.limit);
    } else {
      OtherStepFrame(s, step);
      hide Enabled, Mover, Moved, NextSessions;
    }
  }

  lemma StepKeepsInv(s: State, step: Step)
    requires Inv(s) && Enabled(s, step)
    ensures Inv(Next(s, step))
  {
    MovedIsOk(s, step);
    StepKeepsCount(s, step);
    StepKeepsSessions(s, step);
  }

  lemma {:induction false} RunKeepsInv(states: seq<State>, steps: seq<Step>, i: nat)
    requires IsRun(states, steps) && i < |states|
    ensures Inv(states[i])
  {
    hide Enabled, Next;
    if i == 0 {
      assert CountedIds(states[0].agents) == {};
    } else {
      RunKeepsInv(states, steps, i - 1);
      StepKeepsInv(states[i - 1], steps[i - 1]);
    }
  }

  // ------------------------------------------------------------ results

  /** On every interleaving, the counter is the number of agents counted and not yet uncounted, and the
      session map names only agents that are connected, each under its own session id. */
  lemma CounterIsExact(states: seq<State>, steps: seq<Step>, i: nat)
    requires IsRun(states, steps) && i < |states|
    ensures states[i].agentNum == |CountedIds(states[i].agents)| >= 0
    ensures SessionsOk(states[i])
  {
    RunKeepsInv(states, steps, i);
  }

  /** Once every agent is gone, nothing is counted and no session is left. */
  lemma NothingLeft(states: seq<State>, steps: seq<Step>, i: nat)
    requires IsRun(states, steps) && i < |states|
    requires forall a :: a in states[i].agents ==> states[i].agents[a].pc == Gone
    ensures states[i].agentNum == 0 && states[i].sessions == map[]
  {
    RunKeepsInv(states, steps, i);
    assert CountedIds(states[i].agents) == {};
    assert forall sid :: sid !in states[i].sessions;
  }

  /** Tokens are running workers, plus one while a worker is being started, and never more than the
      channel holds; a pack is refused exactly while that many workers run; and a worker that ends
      always finds its token. */
  lemma TokensAreWorkers(states: seq<State>, steps: seq<Step>, i: nat, a: nat)
    requires IsRun(states, steps) && i < |states| && a in states[i].agents
    ensures
      var g := states[i].agents[a];
      && g.tokens == |g.workers| + (if g.pc == Admitted then 1 else 0) <= states[i].limit
      && (g.pc == Listening ==> (Enabled(states[i], Wait(a)) <==> |g.workers| < states[i].limit))
      && (g.workers != {} ==> g.tokens > 0)
  {
    RunKeepsInv(states, steps, i);
    assert AgentOk(states[i].agents[a], states[i].limit);
  }

  ghost predicate DistinctSessions(s: State)
  {
    forall a, b :: a in s.agents && b in s.agents && s.agents[a].session.Some? ==>
      s.agents[a].session != s.agents[b].session || a == b
  }

  /** Every stored agent that was not swept is found under its session. */
  ghost predicate Found(s: State)
  {
    forall a :: a in s.agents && Stored(s.agents[a]) && !s.agents[a].swept ==>
      s.agents[a].session.value in s.sessions && s.sessions[s.agents[a].session.value] == a
  }

  lemma SessionsStay(s: State, step: Step)
    requires Enabled(s, step) && DistinctSessions(Next(s, step))
    ensures DistinctSessions(s)
  {
    forall a, b | a in s.agents && b in s.agents && s.agents[a].session.Some? && s.agents[a].session == s.agents[b].session
      ensures a == b
    {
      var t := Next(s, step);
      assert t.agents[a].session == s.agents[a].session && t.agents[b].session == s.agents[b].session;
    }
  }

  lemma StepKeepsFound(s: State, step: Step)
    requires Inv(s) && Enabled(s, step) && Found(s) && DistinctSessions(s)
    ensures Found(Next(s, step))
  {
    if OfMap(step) {
      assert AgentOk(s.agents[Mover(s, step)], s.limit);
    } else {
      OtherStepFrame(s, step);
      hide Enabled, Mover, Moved, NextSessions;
    }
  }

  /** With distinct session ids the map is exact: it holds precisely the connected agents, except those
      OnDestroy took out. */
  lemma {:induction false} SessionsAreExact(states: seq<State>, steps: seq<Step>, i: nat)
    requires IsRun(states, steps) && i < |states| && DistinctSessions(states[i])
    ensures Found(states[i])
  {
    hide Enabled, Next, DistinctSessions;
    if i > 0 {
      SessionsStay(states[i - 1], steps[i - 1]);
      SessionsAreExact(states, steps, i - 1);
      RunKeepsInv(states, steps, i - 1);
      StepKeepsFound(states[i - 1], steps[i - 1]);
    }
  }

  /** The step puts an agent under the session. */
  ghost predicate Stores(s: State, step: Step, sid: string)
  {
    step.Store? && step.a in s.agents && s.agents[step.a].session == Some(sid)
  }

  /** The step takes the session out: OnDestroy, or an agent that disconnects. */
  ghost predicate TakesOut(s: State, step: Step, sid: string)
  {
    || step == Sweep(sid)
    || (step.Delete? && step.a in s.agents && s.agents[step.a].session == Some(sid))
  }

  /** A session that was taken out is not found again until an agent is stored under it. */
  lemma {:induction false} GoneUntilStored(states: seq<State>, steps: seq<Step>, i: nat, j: nat, sid: string)
    requires IsRun(states, steps) && i < j < |states| && TakesOut(states[i], steps[i], sid)
    requires forall k :: i < k < j ==> !Stores(states[k], steps[k], sid)
    ensures sid !in states[j].sessions
    decreases j
  {
    if j > i + 1 {
      GoneUntilStored(states, steps, i, j - 1, sid);
    }
  }

  /** An agent is gone only once it has disconnected: whether or not its handshake came through, its session
      was deleted first and the counter seen to after that. */
  lemma {:induction false} GoneDisconnected(states: seq<State>, steps: seq<Step>, i: nat, a: nat)
    requires IsRun(states, steps) && i < |states|
    ensures At(states[i], a, Uncounting) || At(states[i], a, Gone) ==> Delete(a) in steps[..i]
    ensures At(states[i], a, Gone) ==> Uncount(a) in steps[..i]
  {
    if i > 0 {
      GoneDisconnected(states, steps, i - 1, a);
      assert steps[..i] == steps[..i - 1] + [steps[i - 1]];
      IntoGone(states[i - 1], steps[i - 1], a);
      hide Enabled, Next;
    }
  }

  lemma IntoGone(s: State, step: Step, a: nat)
    requires Enabled(s, step)
    ensures At(Next(s, step), a, Uncounting) ==> At(s, a, Uncounting) || step == Delete(a)
    ensures At(Next(s, step), a, Gone) ==> At(s, a, Gone) || (step == Uncount(a) && At(s, a, Uncounting))
  {
  }
}
