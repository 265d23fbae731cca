/** The wheel itself: an array of slots, each a list of tasks with a circle counter, and a map from
    key to slot. Every operation refines one step of Countdown. */
module TimingWheel {
  import opened Values
  import opened Countdown
  import opened Bits

  /** A task in a slot; circle is how many more turns of the wheel it sits out. */
  datatype Task = Task(id: nat, key: Key, job: string, circle: nat)

  function TaskOf(e: Entry, now: nat, slots: nat): Task
    requires slots > 0 && now <= e.due
  {
    Task(e.id, e.key, e.job, (e.due - now) / slots)
  }

  ghost predicate NoneLate(es: seq<Entry>, now: nat)
  {
    forall e :: e in es ==> now <= e.due
  }

  /** The list a slot must hold: the pending tasks due in it, in insertion order. */
  ghost function SlotOf(es: seq<Entry>, now: nat, slots: nat, p: nat): seq<Task>
    requires slots > 0 && NoneLate(es, now)
  {
    if es == [] then [] else
      var init, e := es[..|es| - 1], es[|es| - 1];
      if e.due % slots == p then SlotOf(init, now, slots, p) + [TaskOf(e, now, slots)]
      else SlotOf(init, now, slots, p)
  }

  // ------------------------------------------------------------ what a scan does

  function Sat(l: seq<Task>): seq<Task>
  {
    if l == [] then [] else
      var init, t := l[..|l| - 1], l[|l| - 1];
      if t.circle > 0 then Sat(init) + [t.(circle := t.circle - 1)] else Sat(init)
  }

  function Fired(l: seq<Task>): seq<Task>
  {
    if l == [] then [] else
      var init, t := l[..|l| - 1], l[|l| - 1];
      if t.circle > 0 then Fired(init) else Fired(init) + [t]
  }

  function TaskKeys(l: seq<Task>): set<Key>
  {
    set t | t in l :: t.key
  }

  lemma SatAppend(l: seq<Task>, t: Task)
    ensures Sat(l + [t]) == Sat(l) + if t.circle > 0 then [t.(circle := t.circle - 1)] else []
    ensures Fired(l + [t]) == Fired(l) + if t.circle > 0 then [] else [t]
  {
    assert (l + [t])[..|l|] == l;
  }

  /** One turn of the scan: the part walked so far grows by one task. */
  lemma ScanNext(l: seq<Task>, n: nat)
    requires n < |l|
    ensures (Sat(l[..n]) + l[n..])[|Sat(l[..n])|] == l[n]
    ensures l[n].circle > 0 ==>
      && (Sat(l[..n]) + l[n..])[|Sat(l[..n])| := l[n].(circle := l[n].circle - 1)] == Sat(l[..n + 1]) + l[n + 1..]
      && |Sat(l[..n + 1])| == |Sat(l[..n])| + 1
      && Fired(l[..n + 1]) == Fired(l[..n])
    ensures l[n].circle == 0 ==>
      && (Sat(l[..n]) + l[n..])[..|Sat(l[..n])|] + (Sat(l[..n]) + l[n..])[|Sat(l[..n])| + 1..] == Sat(l[..n + 1]) + l[n + 1..]
      && |Sat(l[..n + 1])| == |Sat(l[..n])|
      && Fired(l[..n + 1]) == Fired(l[..n]) + [l[n]]
  {
    assert l[..n + 1] == l[..n] + [l[n]];
    SatAppend(l[..n], l[n]);
    assert l[n..] == [l[n]] + l[n + 1..];
    if l[n].circle > 0 {
      ReplaceMiddle(Sat(l[..n]), l[n], l[n + 1..], l[n].(circle := l[n].circle - 1));
    } else {
      CutMiddle(Sat(l[..n]), l[n], l[n + 1..]);
    }
  }

  lemma MoreKeys(m: map<Key, nat>, l: seq<Task>, t: Task)
    ensures m - TaskKeys(l) - {t.key} == m - TaskKeys(l + [t])
  {
    assert t in l + [t];
    assert forall x :: x in l + [t] <==> x in l || x == t;
    assert TaskKeys(l + [t]) == TaskKeys(l) + {t.key};
  }

  function WithoutFirst(l: seq<Task>, key: Key): seq<Task>
  {
    if l == [] then [] else
      var init, t := l[..|l| - 1], l[|l| - 1];
      if exists x :: x in init && x.key == key then WithoutFirst(init, key) + [t]
      else if t.key == key then init
      else l
  }

  lemma ReplaceMiddle(a: seq<Task>, t: Task, b: seq<Task>, x: Task)
    ensures (a + ([t] + b))[|a| := x] == (a + [x]) + b
  {
  }

  lemma CutMiddle(a: seq<Task>, t: Task, b: seq<Task>)
    ensures (a + ([t] + b))[..|a|] + (a + ([t] + b))[|a| + 1..] == a + b
  {
  }

  // ------------------------------------------------------------ arithmetic of turns

  lemma AddTurns(now: nat, k: nat, slots: nat)
    requires slots > 0
    ensures (now % slots + k) % slots == (now + k) % slots
  {
    var q, r := (now % slots + k) / slots, (now % slots + k) % slots;
    assert now == now / slots * slots + now % slots;
    assert now + k == (now / slots + q) * slots + r;
    RemainderIs(now + k, slots, now / slots + q, r);
  }

  lemma NextPos(now: nat, slots: nat)
    requires slots > 0
    ensures (now + 1) % slots == if now % slots == slots - 1 then 0 else now % slots + 1
  {
    var q, r := now / slots, now % slots;
    assert now == q * slots + r;
    if r == slots - 1 {
      assert now + 1 == (q + 1) * slots + 0;
      RemainderIs(now + 1, slots, q + 1, 0);
    } else {
      RemainderIs(now + 1, slots, q, r + 1);
    }
  }

  /** Only tasks in the current slot lose a turn at a tick, and they have no turn left exactly
      when they are due. */
  lemma TurnStep(due: nat, now: nat, slots: nat)
    requires slots > 0 && now <= due
    ensures due % slots == now % slots ==> (due == now <==> (due - now) / slots == 0)
    ensures due % slots == now % slots && now < due ==> (due - (now + 1)) / slots == (due - now) / slots - 1
    ensures due % slots != now % slots ==> now < due && (due - (now + 1)) / slots == (due - now) / slots
  {
    var d := due - now;
    var q, r := d / slots, d % slots;
    assert d == q * slots + r;
    AddTurns(now, d, slots);
    if r == 0 {
      SameSlot(now, q, slots);
      if q > 0 {
        assert d - 1 == (q - 1) * slots + (slots - 1);
        RemainderIs(d - 1, slots, q - 1, slots - 1);
      }
    } else {
      OtherSlot(now, d, slots);
      RemainderIs(d - 1, slots, q, r - 1);
    }
  }

  lemma SameSlot(now: nat, q: nat, slots: nat)
    requires slots > 0
    ensures (now + q * slots) % slots == now % slots
  {
    assert now + q * slots == (now / slots + q) * slots + now % slots;
    RemainderIs(now + q * slots, slots, now / slots + q, now % slots);
  }

  lemma OtherSlot(now: nat, d: nat, slots: nat)
    requires slots > 0 && d % slots != 0
    ensures (now + d) % slots != now % slots
  {
    var q, r := d / slots, d % slots;
    var m := now % slots;
    var base := now / slots + q;
    assert now + d == base * slots + (m + r);
    if m + r < slots {
      RemainderIs(now + d, slots, base, m + r);
    } else {
      assert now + d == (base + 1) * slots + (m + r - slots);
      RemainderIs(now + d, slots, base + 1, m + r - slots);
    }
  }

  // ------------------------------------------------------------ slots against entries

  ghost function TasksOf(es: seq<Entry>, now: nat, slots: nat): seq<Task>
    requires slots > 0 && NoneLate(es, now)
  {
    seq(|es|, i requires 0 <= i < |es| => assert es[i] in es; TaskOf(es[i], now, slots))
  }

  lemma SlotAppend(es: seq<Entry>, e: Entry, now: nat, slots: nat, p: nat)
    requires slots > 0 && NoneLate(es, now) && now <= e.due
    ensures NoneLate(es + [e], now)
    ensures SlotOf(es + [e], now, slots, p) ==
      if e.due % slots == p then SlotOf(es, now, slots, p) + [TaskOf(e, now, slots)] else SlotOf(es, now, slots, p)
  {
    assert (es + [e])[..|es|] == es;
  }

  lemma TasksAppend(es: seq<Entry>, e: Entry, now: nat, slots: nat)
    requires slots > 0 && NoneLate(es, now) && now <= e.due
    ensures NoneLate(es + [e], now)
    ensures TasksOf(es + [e], now, slots) == TasksOf(es, now, slots) + [TaskOf(e, now, slots)]
  {
  }

  ghost predicate ScanOk(es: seq<Entry>, now: nat, slots: nat)
    requires slots > 0 && NoneLate(es, now)
  {
    && NoneLate(Later(es, now), now + 1)
    && NoneLate(Due(es, now), now)
    && Fired(SlotOf(es, now, slots, now % slots)) == TasksOf(Due(es, now), now, slots)
    && Sat(SlotOf(es, now, slots, now % slots)) == SlotOf(Later(es, now), now + 1, slots, now % slots)
  }

  /** Scanning the current slot fires exactly the due tasks, in insertion order, and leaves what
      the slot must hold after the tick. */
  lemma {:induction false} ScanCurrent(es: seq<Entry>, now: nat, slots: nat)
    requires slots > 0 && NoneLate(es, now)
    ensures ScanOk(es, now, slots)
  {
    if es != [] {
      var init, e := es[..|es| - 1], es[|es| - 1];
      assert e in es && es == init + [e];
      ScanCurrent(init, now, slots);
      ScanOneMore(init, e, now, slots);
    }
  }

  lemma ScanOneMore(init: seq<Entry>, e: Entry, now: nat, slots: nat)
    requires slots > 0 && NoneLate(init, now) && now <= e.due && ScanOk(init, now, slots)
    ensures NoneLate(init + [e], now) && ScanOk(init + [e], now, slots)
  {
    hide SlotOf, Sat, Fired, Due, Later;
    SplitAppend(init, e, now);
    SlotAppend(init, e, now, slots, now % slots);
    TurnStep(e.due, now, slots);
    if e.due == now {
      DueOneMore(init, e, now, slots);
    } else {
      LaterOneMore(init, e, now, slots);
    }
  }

  lemma SplitAppend(init: seq<Entry>, e: Entry, now: nat)
    ensures Due(init + [e], now) == if e.due == now then Due(init, now) + [e] else Due(init, now)
    ensures Later(init + [e], now) == if e.due == now then Later(init, now) else Later(init, now) + [e]
  {
    assert (init + [e])[..|init|] == init;
  }

  lemma DueOneMore(init: seq<Entry>, e: Entry, now: nat, slots: nat)
    requires slots > 0 && NoneLate(init, now) && e.due == now && ScanOk(init, now, slots)
    ensures NoneLate(Due(init, now) + [e], now)
    ensures Fired(SlotOf(init, now, slots, now % slots) + [TaskOf(e, now, slots)]) == TasksOf(Due(init, now) + [e], now, slots)
    ensures Sat(SlotOf(init, now, slots, now % slots) + [TaskOf(e, now, slots)]) ==
      SlotOf(Later(init, now), now + 1, slots, now % slots)
  {
    hide SlotOf, Sat, Fired, Due, Later;
    assert TaskOf(e, now, slots).circle == 0;
    SatAppend(SlotOf(init, now, slots, now % slots), TaskOf(e, now, slots));
    TasksAppend(Due(init, now), e, now, slots);
  }

  lemma LaterOneMore(init: seq<Entry>, e: Entry, now: nat, slots: nat)
    requires slots > 0 && NoneLate(init, now) && now < e.due && ScanOk(init, now, slots)
    ensures NoneLate(Later(init, now) + [e], now + 1)
    ensures
      var p := now % slots;
      var l, later := SlotOf(init, now, slots, p), SlotOf(Later(init, now) + [e], now + 1, slots, p);
      if e.due % slots == p then
        && Sat(l + [TaskOf(e, now, slots)]) == later
        && Fired(l + [TaskOf(e, now, slots)]) == TasksOf(Due(init, now), now, slots)
      else Sat(l) == later
  {
    hide SlotOf, Sat, Fired, Due, Later;
    TurnStep(e.due, now, slots);
    SlotAppend(Later(init, now), e, now + 1, slots, now % slots);
    SatAppend(SlotOf(init, now, slots, now % slots), TaskOf(e, now, slots));
  }

  lemma {:induction false} ScanOthers(es: seq<Entry>, now: nat, slots: nat, p: nat)
    requires slots > 0 && NoneLate(es, now) && NoneLate(Later(es, now), now + 1)
    requires p != now % slots
    ensures SlotOf(es, now, slots, p) == SlotOf(Later(es, now), now + 1, slots, p)
  {
    if es != [] {
      var init, e := es[..|es| - 1], es[|es| - 1];
      SplitMembers(init, now);
      ScanOthers(init, now, slots, p);
      assert e in es;
      TurnStep(e.due, now, slots);
    }
  }

  ghost predicate DropOk(es: seq<Entry>, key: Key, slot: nat, now: nat, slots: nat, p: nat)
    requires slots > 0 && NoneLate(es, now)
  {
    && NoneLate(DropFirst(es, key, slot, slots), now)
    && SlotOf(DropFirst(es, key, slot, slots), now, slots, p) ==
      if p == slot then WithoutFirst(SlotOf(es, now, slots, p), key) else SlotOf(es, now, slots, p)
  }

  lemma {:induction false} DropInSlot(es: seq<Entry>, key: Key, slot: nat, now: nat, slots: nat, p: nat)
    requires slots > 0 && NoneLate(es, now)
    ensures DropOk(es, key, slot, now, slots, p)
  {
    if es != [] {
      var init, e := es[..|es| - 1], es[|es| - 1];
      assert e in es && es == init + [e];
      if Holds(init, key, slot, slots) {
        DropInSlot(init, key, slot, now, slots, p);
        DropBefore(init, e, key, slot, now, slots, p);
      } else {
        DropHere(init, e, key, slot, now, slots, p);
      }
    }
  }

  lemma DropBefore(init: seq<Entry>, e: Entry, key: Key, slot: nat, now: nat, slots: nat, p: nat)
    requires slots > 0 && NoneLate(init, now) && now <= e.due
    requires Holds(init, key, slot, slots) && DropOk(init, key, slot, now, slots, p)
    ensures NoneLate(init + [e], now) && DropOk(init + [e], key, slot, now, slots, p)
  {
    SlotHolds(init, key, now, slots, slot);
    hide Holds, Matches;
    var d := DropFirst(init, key, slot, slots);
    assert (init + [e])[..|init|] == init;
    assert DropFirst(init + [e], key, slot, slots) == d + [e];
    SlotAppend(d, e, now, slots, p);
    SlotAppend(init, e, now, slots, p);
    if p == slot && e.due % slots == p {
      AppendWithout(SlotOf(init, now, slots, p), TaskOf(e, now, slots), key);
    }
  }

  lemma DropHere(init: seq<Entry>, e: Entry, key: Key, slot: nat, now: nat, slots: nat, p: nat)
    requires slots > 0 && NoneLate(init, now) && now <= e.due && !Holds(init, key, slot, slots)
    ensures NoneLate(init + [e], now) && DropOk(init + [e], key, slot, now, slots, p)
  {
    SlotHolds(init, key, now, slots, slot);
    hide Holds;
    assert (init + [e])[..|init|] == init;
    assert DropFirst(init + [e], key, slot, slots) == if Matches(e, key, slot, slots) then init else init + [e];
    SlotAppend(init, e, now, slots, p);
    if p == slot {
      AppendWithout(SlotOf(init, now, slots, p), TaskOf(e, now, slots), key);
      NothingToCut(SlotOf(init, now, slots, p), key);
    }
  }

  lemma AppendWithout(l: seq<Task>, t: Task, key: Key)
    ensures WithoutFirst(l + [t], key) ==
      if exists x :: x in l && x.key == key then WithoutFirst(l, key) + [t]
      else if t.key == key then l else l + [t]
  {
    assert (l + [t])[..|l|] == l;
  }

  lemma NothingToCut(l: seq<Task>, key: Key)
    requires forall x :: x in l ==> x.key != key
    ensures WithoutFirst(l, key) == l
  {
  }

  lemma {:induction false} SlotHolds(es: seq<Entry>, key: Key, now: nat, slots: nat, p: nat)
    requires slots > 0 && NoneLate(es, now)
    ensures Holds(es, key, p, slots) <==> exists t :: t in SlotOf(es, now, slots, p) && t.key == key
  {
    if es != [] {
      var init, e := es[..|es| - 1], es[|es| - 1];
      assert es == init + [e];
      SlotHolds(init, key, now, slots, p);
      if Holds(init, key, p, slots) {
        var x :| x in init && Matches(x, key, p, slots);
        assert x in es;
      }
      if Matches(e, key, p, slots) {
        assert TaskOf(e, now, slots) in SlotOf(es, now, slots, p);
      }
    }
  }

  // ------------------------------------------------------------ all slots at once

  ghost function AllSlots(s: State, c: Config): (r: seq<seq<Task>>)
    requires ConfigOk(c) && Ok(s, c)
    ensures |r| == c.slots
    ensures forall p :: 0 <= p < c.slots ==> r[p] == SlotOf(s.pending, s.now, c.slots, p)
  {
    seq(c.slots, p requires 0 <= p => SlotOf(s.pending, s.now, c.slots, p))
  }

  function Hand(s: State, c: Config): (p: nat)
    requires ConfigOk(c)
    ensures p < c.slots
  {
    s.now % c.slots
  }

  lemma TickCurrentSlot(s: State, c: Config)
    requires ConfigOk(c) && Ok(s, c)
    ensures NoneLate(Launched(s, Tick), s.now) && Ok(Step(s, Tick, c), c)
    ensures AllSlots(Step(s, Tick, c), c)[Hand(s, c)] == Sat(AllSlots(s, c)[Hand(s, c)])
    ensures Fired(AllSlots(s, c)[Hand(s, c)]) == TasksOf(Launched(s, Tick), s.now, c.slots)
  {
    StepKeepsOk(s, Tick, c);
    ScanCurrent(s.pending, s.now, c.slots);
  }

  lemma TickOtherSlots(s: State, c: Config)
    requires ConfigOk(c) && Ok(s, c) && Ok(Step(s, Tick, c), c)
    ensures forall p :: 0 <= p < c.slots && p != Hand(s, c) ==>
      AllSlots(Step(s, Tick, c), c)[p] == AllSlots(s, c)[p]
  {
    forall p | 0 <= p < c.slots && p != Hand(s, c)
      ensures AllSlots(Step(s, Tick, c), c)[p] == AllSlots(s, c)[p]
    {
      ScanOthers(s.pending, s.now, c.slots, p);
    }
  }

  /** A tick replaces the current slot by what its scan leaves, and touches no other. */
  lemma TickSlots(s: State, c: Config)
    requires ConfigOk(c) && Ok(s, c)
    ensures NoneLate(Launched(s, Tick), s.now) && Ok(Step(s, Tick, c), c)
    ensures AllSlots(Step(s, Tick, c), c) == AllSlots(s, c)[Hand(s, c) := Sat(AllSlots(s, c)[Hand(s, c)])]
    ensures Fired(AllSlots(s, c)[Hand(s, c)]) == TasksOf(Launched(s, Tick), s.now, c.slots)
    ensures Hand(Step(s, Tick, c), c) == if Hand(s, c) == c.slots - 1 then 0 else Hand(s, c) + 1
  {
    TickCurrentSlot(s, c);
    TickOtherSlots(s, c);
    NextPos(s.now, c.slots);
  }

  /** An add appends the task to the slot its delay ends in. */
  lemma AddSlots(s: State, op: Op, c: Config, pos: nat, circle: nat)
    requires ConfigOk(c) && Ok(s, c) && op.Add? && op.delay > 0
    requires pos == Hand(s.(now := NewEntry(s, op, c).due), c)
    requires circle * c.slots <= NewEntry(s, op, c).due - s.now < (circle + 1) * c.slots
    ensures Ok(Step(s, op, c), c) && pos < c.slots
    ensures Hand(Step(s, op, c), c) == Hand(s, c)
    ensures Step(s, op, c).index == s.index[KeyOf(s, op.key) := pos]
    ensures TaskOf(NewEntry(s, op, c), s.now, c.slots) == Task(s.added, KeyOf(s, op.key), op.job, circle)
    ensures AllSlots(Step(s, op, c), c) ==
      AllSlots(s, c)[pos := AllSlots(s, c)[pos] + [TaskOf(NewEntry(s, op, c), s.now, c.slots)]]
  {
    StepKeepsOk(s, op, c);
    var e := NewEntry(s, op, c);
    RemainderIs(e.due - s.now, c.slots, circle, e.due - s.now - circle * c.slots);
    AddEverySlot(s.pending, e, s.now, c.slots);
  }

  lemma AddEverySlot(es: seq<Entry>, e: Entry, now: nat, slots: nat)
    requires slots > 0 && NoneLate(es, now) && now <= e.due
    ensures NoneLate(es + [e], now)
    ensures forall p :: 0 <= p < slots ==>
      SlotOf(es + [e], now, slots, p) ==
        if e.due % slots == p then SlotOf(es, now, slots, p) + [TaskOf(e, now, slots)] else SlotOf(es, now, slots, p)
  {
    forall p | 0 <= p < slots
      ensures SlotOf(es + [e], now, slots, p) ==
        if e.due % slots == p then SlotOf(es, now, slots, p) + [TaskOf(e, now, slots)] else SlotOf(es, now, slots, p)
    {
      SlotAppend(es, e, now, slots, p);
    }
  }

  /** A removal cuts the first task with the key out of the slot the index names. */
  lemma RemoveSlots(s: State, key: Key, c: Config)
    requires ConfigOk(c) && Ok(s, c) && key in s.index
    ensures Ok(Step(s, Remove(key), c), c) && s.index[key] < c.slots
    ensures exists t :: t in AllSlots(s, c)[s.index[key]] && t.key == key
    ensures AllSlots(Step(s, Remove(key), c), c) ==
      AllSlots(s, c)[s.index[key] := WithoutFirst(AllSlots(s, c)[s.index[key]], key)]
  {
    StepKeepsOk(s, Remove(key), c);
    assert Holds(s.pending, key, s.index[key], c.slots);
    SlotHolds(s.pending, key, s.now, c.slots, s.index[key]);
    forall p | 0 <= p < c.slots
      ensures AllSlots(Step(s, Remove(key), c), c)[p] ==
        if p == s.index[key] then WithoutFirst(AllSlots(s, c)[p], key) else AllSlots(s, c)[p]
    {
      DropInSlot(s.pending, key, s.index[key], s.now, c.slots, p);
    }
  }

  // ------------------------------------------------------------ the wheel

  class TimeWheel {
    const config: Config
    var slots: array<seq<Task>>
    var timer: map<Key, nat>
    var currentPos: nat
    var accumulator: int
    var created: nat
    ghost var state: State

    ghost predicate Valid()
      reads this, slots
    {
      && ConfigOk(config)
      && Ok(state, config)
      && currentPos == Hand(state, config)
      && timer == state.index && accumulator == state.last && created == state.added
      && slots[..] == AllSlots(state, config)
    }

    constructor (slotNum: nat, intervalMs: nat)
      requires slotNum > 0 && intervalMs > 0
      ensures Valid() && state == EMPTY && config == Config(slotNum, intervalMs) && fresh(slots)
    {
      config := Config(slotNum, intervalMs);
      slots := new seq<Task>[slotNum](_ => []);
      timer, currentPos, accumulator, created := map[], 0, 0, 0;
      state := EMPTY;
    }

    /** Advances the hand by one slot and runs what is due there. */
    method TickHandler() returns (launched: seq<Task>)
      requires Valid()
      modifies this, slots
      ensures Valid() && slots == old(slots)
      ensures state == Step(old(state), Tick, config)
      ensures NoneLate(Launched(old(state), Tick), old(state).now)
      ensures launched == TasksOf(Launched(old(state), Tick), old(state).now, config.slots)
    {
      TickSlots(state, config);
      KeysOfTasks(Launched(state, Tick), state.now, config.slots);
      var pos := currentPos;
      if currentPos == config.slots - 1 {
        currentPos := 0;
      } else {
        currentPos := currentPos + 1;
      }
      var rest;
      rest, launched := ScanAndRunTask(slots[pos]);
      slots[pos] := rest;
      state := Step(state, Tick, config);
    }

    /** Walks a slot's list from the front, taking a turn off each waiting task and unlinking and
        launching the others; rest is what the list then holds. */
    method ScanAndRunTask(l: seq<Task>) returns (rest: seq<Task>, launched: seq<Task>)
      modifies this`timer
      ensures rest == Sat(l) && launched == Fired(l)
      ensures timer == old(timer) - TaskKeys(launched)
    {
      ghost var n := 0;
      var i := 0;
      rest, launched := l, [];
      assert l[..0] == [] && l[0..] == l && Sat(l[..0]) == [] && Fired(l[..0]) == [];
      assert TaskKeys(launched) == {};
      hide Sat, Fired, TaskKeys;
      while i < |rest|
        invariant 0 <= n <= |l|
        invariant rest == Sat(l[..n]) + l[n..] && i == |Sat(l[..n])|
        invariant launched == Fired(l[..n])
        invariant timer == old(timer) - TaskKeys(launched)
        decreases |l| - n
      {
        ScanNext(l, n);
        var task := rest[i];
        if task.circle > 0 {
          rest := rest[i := task.(circle := task.circle - 1)];
          i := i + 1;
        } else {
          rest := rest[..i] + rest[i + 1..];
          MoreKeys(old(timer), launched, task);
          timer := timer - {task.key};
          launched := launched + [task];
        }
        n := n + 1;
      }
      assert l[..n] == l;
    }

    /** For a delay of k whole intervals: the slot the hand stands at k ticks from now, and the whole turns
        it makes until then. */
    method GetPositionAndCircle(delay: int) returns (pos: nat, circle: nat)
      requires ConfigOk(config) && currentPos == Hand(state, config) && delay > 0
      ensures forall k :: 0 <= k && Lasts(delay, k, config) ==>
        && pos == (state.now + k) % config.slots
        && circle * config.slots <= k < (circle + 1) * config.slots
      ensures Lasts(delay, Intervals(delay, config), config)
    {
      var delayMillisecond := delay / NANOS_PER_MILLI;
      circle := delayMillisecond / config.interval / config.slots;
      pos := (currentPos + delayMillisecond / config.interval) % config.slots;
      AddTurns(state.now, Intervals(delay, config), config.slots);
      forall k ensures Lasts(delay, k, config) <==> k == Intervals(delay, config) {
        LastsIntervals(delay, k, config);
      }
    }

    /** AddTimer and AddTimerCustom: a delay of nothing is ignored. */
    method AddTimer(delay: int, key: Option<Key>, job: string)
      requires Valid()
      modifies this, slots
      ensures Valid() && slots == old(slots)
      ensures state == Step(old(state), Add(delay, key, job), config)
    {
      if delay <= 0 {
        return;
      }
      var k := AddTaskKey(key);
      var pos, circle := GetPositionAndCircle(delay);
      AddSlots(state, Add(delay, key, job), config, pos, circle);
      slots[pos] := slots[pos] + [Task(created, k, job, circle)];
      timer := timer[k := pos];
      created := created + 1;
      state := Step(state, Add(delay, key, job), config);
    }

    /** A task without a key gets the next number, which starts over after the largest int64. */
    method AddTaskKey(key: Option<Key>) returns (k: Key)
      modifies this`accumulator
      ensures k == if key.Some? then key.value else Number(NextNumber(old(accumulator)))
      ensures accumulator == if key.Some? then old(accumulator) else NextNumber(old(accumulator))
    {
      if key.Some? {
        return key.value;
      }
      if accumulator >= MAX_INT64 {
        accumulator := 0;
      }
      accumulator := accumulator + 1;
      k := Number(accumulator);
    }

    /** RemoveTimer: unlinks the first task with the key in the slot the index names. The element
        just unlinked has no successor, which ends the walk. */
    method RemoveTask(key: Key)
      requires Valid()
      modifies this, slots
      ensures Valid() && slots == old(slots)
      ensures state == Step(old(state), Remove(key), config)
    {
      if key !in timer {
        return;
      }
      RemoveSlots(state, key, config);
      var position := timer[key];
      var i := FirstWithKey(slots[position], key);
      timer := timer - {key};
      slots[position] := slots[position][..i] + slots[position][i + 1..];
      state := Step(state, Remove(key), config);
    }
  }

  ghost predicate LogMatches(log: seq<seq<Task>>, ops: seq<Op>, c: Config)
    requires ConfigOk(c) && |log| <= |ops|
  {
    forall j :: 0 <= j < |log| ==> LaunchMatches(log[j], Run(ops[..j], c), ops[j], c)
  }

  /** The tasks launched are those Countdown launches: same tasks, same order. */
  ghost predicate LaunchMatches(launched: seq<Task>, s: State, op: Op, c: Config)
    requires ConfigOk(c)
  {
    NoneLate(Launched(s, op), s.now) && launched == TasksOf(Launched(s, op), s.now, c.slots)
  }

  /** Whole runs: the wheel launches, operation by operation, exactly what Countdown launches. */
  method Drive(slotNum: nat, intervalMs: nat, ops: seq<Op>) returns (log: seq<seq<Task>>)
    requires slotNum > 0 && intervalMs > 0
    ensures |log| == |ops| && LogMatches(log, ops, Config(slotNum, intervalMs))
  {
    hide Step, Launched, Ok, LaunchMatches, Ticks, Hand;
    var w := new TimeWheel(slotNum, intervalMs);
    log := [];
    for n := 0 to |ops|
      invariant w.Valid() && fresh(w) && fresh(w.slots) && w.config == Config(slotNum, intervalMs)
      invariant |log| == n && LogMatches(log, ops, w.config)
      invariant w.state == Run(ops[..n], w.config)
    {
      OneStepBack(ops, n + 1, w.config);
      var launched := Handle(w, ops[n]);
      log := log + [launched];
    }
  }

  /** One turn of the loop in Start. */
  method Handle(w: TimeWheel, op: Op) returns (launched: seq<Task>)
    requires w.Valid()
    modifies w, w.slots
    ensures w.Valid() && w.slots == old(w.slots)
    ensures w.state == Step(old(w.state), op, w.config)
    ensures LaunchMatches(launched, old(w.state), op, w.config)
  {
    launched := [];
    match op
    case Tick => launched := w.TickHandler();
    case Add(delay, key, job) => w.AddTimer(delay, key, job);
    case Remove(key) => w.RemoveTask(key);
  }

  /** The walk to the first task with the key. */
  method FirstWithKey(l: seq<Task>, key: Key) returns (i: nat)
    requires exists t :: t in l && t.key == key
    ensures i < |l| && l[i].key == key && forall j :: 0 <= j < i ==> l[j].key != key
    ensures WithoutFirst(l, key) == l[..i] + l[i + 1..]
  {
    i := 0;
    while l[i].key != key
      invariant 0 <= i < |l|
      invariant forall j :: 0 <= j < i ==> l[j].key != key
      decreases |l| - i
    {
      i := i + 1;
    }
    CutFirst(l, key, i);
  }

  lemma {:induction false} CutFirst(l: seq<Task>, key: Key, i: nat)
    requires i < |l| && l[i].key == key && forall j :: 0 <= j < i ==> l[j].key != key
    ensures WithoutFirst(l, key) == l[..i] + l[i + 1..]
  {
    var init := l[..|l| - 1];
    if i < |init| {
      CutFirst(init, key, i);
      assert init[i] in init;
      assert l[i + 1..] == init[i + 1..] + [l[|l| - 1]];
    }
  }

  lemma KeysOfTasks(es: seq<Entry>, now: nat, slots: nat)
    requires slots > 0 && NoneLate(es, now)
    ensures TaskKeys(TasksOf(es, now, slots)) == Keys(es)
  {
    var ts := TasksOf(es, now, slots);
    forall k | k in Keys(es)
      ensures k in TaskKeys(ts)
    {
      var i :| 0 <= i < |es| && es[i].key == k;
      assert ts[i] in ts && ts[i].key == k;
    }
    forall k | k in TaskKeys(ts)
      ensures k in Keys(es)
    {
      var i :| 0 <= i < |ts| && ts[i].key == k;
      assert es[i] in es;
    }
  }
}
