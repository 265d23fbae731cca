/** What the timing wheel of module/modules/timer/timingwheel.go stands for: a list of pending
    tasks, each with the number of the tick that launches it. Ticks are numbered from 0. */
module Countdown {
  import opened Values

  /** A timer key: the numbers the wheel hands out, or a value of the caller's. */
  datatype Key = Number(n: int) | Custom(name: string)

  /** A pending task. The id numbers the adds, standing for the task's address. */
  datatype Entry = Entry(id: nat, key: Key, job: string, due: nat)

  datatype State = State(
    now: nat,                // ticks so far
    pending: seq<Entry>,     // in insertion order
    index: map<Key, nat>,    // the slot last recorded for a key
    last: int,               // the last number handed out as a key
    added: nat)              // adds so far

  /** Slot count and tick interval in milliseconds. */
  datatype Config = Config(slots: nat, interval: nat)

  predicate ConfigOk(c: Config) { c.slots > 0 && c.interval > 0 }

  /** Delays are in nanoseconds. */
  datatype Op = Tick | Add(delay: int, key: Option<Key>, job: string) | Remove(target: Key)

  const MAX_INT64: int := 0x7fff_ffff_ffff_ffff
  const NANOS_PER_MILLI: int := 1_000_000

  const EMPTY: State := State(0, [], map[], 0, 0)

  function NextNumber(last: int): int
  {
    (if last >= MAX_INT64 then 0 else last) + 1
  }

  function KeyOf(s: State, key: Option<Key>): Key
  {
    if key.Some? then key.value else Number(NextNumber(s.last))
  }

  /** Whole intervals in a delay. */
  function Intervals(delay: int, c: Config): nat
    requires ConfigOk(c) && delay > 0
  {
    delay / NANOS_PER_MILLI / c.interval
  }

  // Entries due now, entries due later, keys of a list.

  function Due(es: seq<Entry>, now: nat): seq<Entry>
  {
    if es == [] then [] else
      var init, e := es[..|es| - 1], es[|es| - 1];
      if e.due == now then Due(init, now) + [e] else Due(init, now)
  }

  function Later(es: seq<Entry>, now: nat): seq<Entry>
  {
    if es == [] then [] else
      var init, e := es[..|es| - 1], es[|es| - 1];
      if e.due == now then Later(init, now) else Later(init, now) + [e]
  }

  function Keys(es: seq<Entry>): set<Key>
  {
    set e | e in es :: e.key
  }

  predicate Matches(e: Entry, key: Key, slot: nat, slots: nat)
    requires slots > 0
  {
    e.key == key && e.due % slots == slot
  }

  predicate Holds(es: seq<Entry>, key: Key, slot: nat, slots: nat)
    requires slots > 0
  {
    exists e :: e in es && Matches(e, key, slot, slots)
  }

  /** Drops the first entry with the key in the slot. */
  function DropFirst(es: seq<Entry>, key: Key, slot: nat, slots: nat): seq<Entry>
    requires slots > 0
  {
    if es == [] then [] else
      var init, e := es[..|es| - 1], es[|es| - 1];
      if Holds(init, key, slot, slots) then DropFirst(init, key, slot, slots) + [e]
      else if Matches(e, key, slot, slots) then init
      else es
  }

  function Step(s: State, op: Op, c: Config): State
    requires ConfigOk(c)
  {
    match op
    case Tick =>
      s.(now := s.now + 1, pending := Later(s.pending, s.now), index := s.index - Keys(Due(s.pending, s.now)))
    case Add(delay, key, job) =>
      if delay <= 0 then s else
      var k := KeyOf(s, key);
      var due := s.now + Intervals(delay, c);
      State(s.now, s.pending + [Entry(s.added, k, job, due)], s.index[k := due % c.slots],
            if key.Some? then s.last else NextNumber(s.last), s.added + 1)
    case Remove(key) =>
      if key !in s.index then s else
      s.(pending := DropFirst(s.pending, key, s.index[key], c.slots), index := s.index - {key})
  }

  /** The tasks an operation launches, in launch order. */
  function Launched(s: State, op: Op): seq<Entry>
  {
    if op.Tick? then Due(s.pending, s.now) else []
  }

  function Run(ops: seq<Op>, c: Config): State
    requires ConfigOk(c)
  {
    if ops == [] then EMPTY else Step(Run(ops[..|ops| - 1], c), ops[|ops| - 1], c)
  }

  function Ticks(ops: seq<Op>): nat
  {
    if ops == [] then 0 else Ticks(ops[..|ops| - 1]) + if ops[|ops| - 1].Tick? then 1 else 0
  }

  // ------------------------------------------------------------------ invariants

  /** Ids increase along a list, so a list is in insertion order and holds no task twice. */
  ghost predicate Increasing(es: seq<Entry>)
  {
    forall i, j :: 0 <= i < j < |es| ==> es[i].id < es[j].id
  }

  /** Every indexed key names a slot that holds a task with that key. */
  ghost predicate IndexSound(s: State, c: Config)
    requires ConfigOk(c)
  {
    forall k :: k in s.index ==> Holds(s.pending, k, s.index[k], c.slots)
  }

  ghost predicate Ok(s: State, c: Config)
    requires ConfigOk(c)
  {
    && Increasing(s.pending)
    && (forall e :: e in s.pending ==> s.now <= e.due && e.id < s.added)
    && IndexSound(s, c)
  }

  lemma {:induction false} SplitMembers(es: seq<Entry>, now: nat)
    ensures forall e :: e in Due(es, now) <==> e in es && e.due == now
    ensures forall e :: e in Later(es, now) <==> e in es && e.due != now
  {
    if es != [] {
      var init, last := es[..|es| - 1], es[|es| - 1];
      SplitMembers(init, now);
      assert es == init + [last];
      assert forall e :: e in es <==> e in init || e == last;
    }
  }

  lemma {:induction false} SplitIncreasing(es: seq<Entry>, now: nat)
    requires Increasing(es)
    ensures Increasing(Due(es, now)) && Increasing(Later(es, now))
  {
    if es != [] {
      var init, last := es[..|es| - 1], es[|es| - 1];
      SplitIncreasing(init, now);
      SplitMembers(init, now);
      AppendIncreasing(Due(init, now), last, init);
      AppendIncreasing(Later(init, now), last, init);
    }
  }

  lemma AppendIncreasing(part: seq<Entry>, last: Entry, init: seq<Entry>)
    requires Increasing(part) && Increasing(init + [last])
    requires forall e :: e in part ==> e in init
    ensures Increasing(part + [last])
  {
    forall i | 0 <= i < |part|
      ensures part[i].id < last.id
    {
      assert part[i] in init;
      var j :| 0 <= j < |init| && init[j] == part[i];
      assert (init + [last])[j] == part[i] && (init + [last])[|init|] == last;
    }
  }

  lemma {:induction false} DropMembers(es: seq<Entry>, key: Key, slot: nat, slots: nat)
    requires slots > 0 && Increasing(es)
    ensures Increasing(DropFirst(es, key, slot, slots))
    ensures forall e :: e in DropFirst(es, key, slot, slots) ==> e in es
    ensures forall e :: e in es && !Matches(e, key, slot, slots) ==> e in DropFirst(es, key, slot, slots)
  {
    if es != [] {
      var init, last := es[..|es| - 1], es[|es| - 1];
      assert es == init + [last];
      DropMembers(init, key, slot, slots);
      AppendIncreasing(DropFirst(init, key, slot, slots), last, init);
    }
  }

  lemma {:induction false} DropLoses(es: seq<Entry>, key: Key, slot: nat, slots: nat) returns (x: Entry)
    requires slots > 0 && Increasing(es)
    requires Holds(es, key, slot, slots)
    ensures x in es && Matches(x, key, slot, slots) && x !in DropFirst(es, key, slot, slots)
  {
    var init, last := es[..|es| - 1], es[|es| - 1];
    assert es == init + [last];
    NotBefore(init, last);
    if Holds(init, key, slot, slots) {
      x := DropLoses(init, key, slot, slots);
      assert DropFirst(es, key, slot, slots) == DropFirst(init, key, slot, slots) + [last];
      assert x in init && x != last;
    } else {
      x := last;
      assert DropFirst(es, key, slot, slots) == init;
    }
  }

  lemma NotBefore(init: seq<Entry>, last: Entry)
    requires Increasing(init + [last])
    ensures last !in init
  {
    var es := init + [last];
    forall i | 0 <= i < |init|
      ensures init[i] != last
    {
      assert es[i].id < es[|init|].id;
    }
  }

  lemma StepKeepsOk(s: State, op: Op, c: Config)
    requires ConfigOk(c) && Ok(s, c)
    ensures Ok(Step(s, op, c), c)
  {
    match op
    case Tick =>
      SplitMembers(s.pending, s.now);
      SplitIncreasing(s.pending, s.now);
    case Add(delay, key, job) =>
      if delay > 0 {
        var t := Step(s, op, c);
        var e := t.pending[|s.pending|];
        assert Matches(e, e.key, t.index[e.key], c.slots) && e in t.pending;
        forall k | k in t.index
          ensures Holds(t.pending, k, t.index[k], c.slots)
        {
          if k != e.key {
            var x :| x in s.pending && Matches(x, k, s.index[k], c.slots);
            assert x in t.pending;
          }
        }
      }
    case Remove(key) =>
      if key in s.index {
        DropMembers(s.pending, key, s.index[key], c.slots);
      }
  }

  lemma {:induction false} RunIsOk(ops: seq<Op>, c: Config)
    requires ConfigOk(c)
    ensures Ok(Run(ops, c), c) && Run(ops, c).now == Ticks(ops)
  {
    if ops != [] {
      RunIsOk(ops[..|ops| - 1], c);
      StepKeepsOk(Run(ops[..|ops| - 1], c), ops[|ops| - 1], c);
    }
  }

  // ------------------------------------------------------------------ main results

  /** On every run each tick launches each task at most once, in insertion order, and each indexed
      key names a slot that holds a task with that key, even when keys are reused. */
  lemma LaunchOrder(ops: seq<Op>, op: Op, c: Config)
    requires ConfigOk(c)
    ensures Increasing(Launched(Run(ops, c), op))
    ensures IndexSound(Run(ops, c), c)
  {
    RunIsOk(ops, c);
    SplitIncreasing(Run(ops, c).pending, Run(ops, c).now);
  }

  ghost predicate HasId(es: seq<Entry>, id: nat)
  {
    exists e :: e in es && e.id == id
  }

  /** A task that is no longer pending never becomes pending again. */
  lemma {:induction false} GoneForGood(ops: seq<Op>, i: nat, j: nat, id: nat, c: Config)
    requires ConfigOk(c) && i <= j <= |ops|
    requires id < Run(ops[..i], c).added && !HasId(Run(ops[..i], c).pending, id)
    ensures id < Run(ops[..j], c).added && !HasId(Run(ops[..j], c).pending, id)
    decreases j
  {
    if i < j {
      GoneForGood(ops, i, j - 1, id, c);
      OneStepBack(ops, j, c);
      RunIsOk(ops[..j - 1], c);
      var s := Run(ops[..j - 1], c);
      StepMembers(s, ops[j - 1], c);
    }
  }

  lemma OneStepBack(ops: seq<Op>, j: nat, c: Config)
    requires ConfigOk(c) && 0 < j <= |ops|
    ensures Run(ops[..j], c) == Step(Run(ops[..j - 1], c), ops[j - 1], c)
    ensures Ticks(ops[..j]) == Ticks(ops[..j - 1]) + if ops[j - 1].Tick? then 1 else 0
  {
    assert ops[..j][..j - 1] == ops[..j - 1];
  }

  /** A step adds no task but a new one, and loses none but those launched or removed. */
  lemma StepMembers(s: State, op: Op, c: Config)
    requires ConfigOk(c) && Ok(s, c)
    ensures Step(s, op, c).added >= s.added
    ensures forall e :: e in Step(s, op, c).pending ==> e in s.pending || e.id == s.added < Step(s, op, c).added
    ensures forall e :: e in s.pending && e !in Step(s, op, c).pending ==> e in Launched(s, op) || op == Remove(e.key)
    ensures forall e :: e in Launched(s, op) ==> e in s.pending && e !in Step(s, op, c).pending
  {
    match op
    case Tick => SplitMembers(s.pending, s.now);
    case Add(_, _, _) =>
    case Remove(key) =>
      if key in s.index {
        DropMembers(s.pending, key, s.index[key], c.slots);
      }
  }

  /** A task that was just added. */
  function NewEntry(s: State, op: Op, c: Config): Entry
    requires ConfigOk(c) && op.Add? && op.delay > 0
  {
    Entry(s.added, KeyOf(s, op.key), op.job, s.now + Intervals(op.delay, c))
  }

  ghost predicate NoRemove(ops: seq<Op>, key: Key)
  {
    Remove(key) !in ops
  }

  /** The task is pending up to its tick and gone after it. */
  ghost predicate OnSchedule(s: State, e: Entry)
  {
    e.id < s.added && if s.now <= e.due then e in s.pending else !HasId(s.pending, e.id)
  }

  lemma StepKeepsSchedule(s: State, op: Op, e: Entry, c: Config)
    requires ConfigOk(c) && Ok(s, c) && OnSchedule(s, e) && op != Remove(e.key)
    ensures OnSchedule(Step(s, op, c), e)
  {
    StepMembers(s, op, c);
    SplitMembers(s.pending, s.now);
    if op.Tick? && s.now == e.due {
      forall x | x in s.pending && x.id == e.id ensures x == e { UniqueId(s.pending, x, e); }
    }
  }

  lemma {:induction false} StaysUntilDue(ops: seq<Op>, i: nat, j: nat, e: Entry, c: Config)
    requires ConfigOk(c) && i <= j <= |ops|
    requires e in Run(ops[..i], c).pending && NoRemove(ops[i..j], e.key)
    ensures OnSchedule(Run(ops[..j], c), e)
    decreases j
  {
    if j == i {
      RunIsOk(ops[..i], c);
    } else {
      OneStepBack(ops, j, c);
      assert ops[i..j] == ops[i..j - 1] + [ops[j - 1]];
      StaysUntilDue(ops, i, j - 1, e, c);
      RunIsOk(ops[..j - 1], c);
      StepKeepsSchedule(Run(ops[..j - 1], c), ops[j - 1], e, c);
    }
  }

  /** A pending task that nobody removes is launched by the tick it is due at and by no other operation. */
  lemma LaunchedWhenDue(ops: seq<Op>, i: nat, j: nat, e: Entry, c: Config)
    requires ConfigOk(c) && i <= j < |ops|
    requires e in Run(ops[..i], c).pending && NoRemove(ops[i..j], e.key)
    ensures
      var launched := Launched(Run(ops[..j], c), ops[j]);
      && (HasId(launched, e.id) <==> ops[j].Tick? && Ticks(ops[..j]) == e.due)
      && (HasId(launched, e.id) <==> e in launched)
      && multiset(launched)[e] <= 1
  {
    var s := Run(ops[..j], c);
    RunIsOk(ops[..j], c);
    StaysUntilDue(ops, i, j, e, c);
    SplitMembers(s.pending, s.now);
    SplitIncreasing(s.pending, s.now);
    OnceInIncreasing(Launched(s, ops[j]), e);
    if e in s.pending {
      forall x | x in s.pending && x.id == e.id ensures x == e { UniqueId(s.pending, x, e); }
    }
  }

  lemma UniqueId(es: seq<Entry>, x: Entry, y: Entry)
    requires Increasing(es) && x in es && y in es
    ensures x.id == y.id ==> x == y
  {
    var i :| 0 <= i < |es| && es[i] == x;
    var j :| 0 <= j < |es| && es[j] == y;
  }

  /** A delay of nanoseconds lasts k whole intervals, of milliseconds. */
  ghost predicate Lasts(delay: int, k: int, c: Config)
  {
    k * c.interval * 1_000_000 <= delay < (k + 1) * c.interval * 1_000_000
  }

  lemma LastsIntervals(delay: int, k: int, c: Config)
    requires ConfigOk(c) && delay > 0
    ensures Lasts(delay, k, c) <==> k == Intervals(delay, c)
  {
    var d := delay / 1_000_000;
    assert delay == d * 1_000_000 + delay % 1_000_000;
    QuotientIs(d, c.interval, k);
    assert k * c.interval * 1_000_000 == (k * c.interval) * 1_000_000;
    assert (k + 1) * c.interval * 1_000_000 == ((k + 1) * c.interval) * 1_000_000;
  }

  lemma QuotientIs(d: nat, m: nat, k: int)
    requires m > 0
    ensures k * m <= d < (k + 1) * m <==> k == d / m
  {
    var q := d / m;
    assert d == q * m + d % m;
    assert q * m <= d < (q + 1) * m;
    if k < q {
      assert (k + 1) * m <= q * m;
    } else if k > q {
      assert (q + 1) * m <= k * m;
    }
  }

  /** A task added with a delay of k whole intervals and never removed is launched by the (k+1)-th
      later tick and by no other operation, exactly once; it is the job that was added. */
  lemma LaunchedOnTime(ops: seq<Op>, i: nat, j: nat, c: Config)
    requires ConfigOk(c) && i < j < |ops|
    requires ops[i].Add? && ops[i].delay > 0
    requires NoRemove(ops[i + 1..j], NewEntry(Run(ops[..i], c), ops[i], c).key)
    ensures
      var e := NewEntry(Run(ops[..i], c), ops[i], c);
      var launched := Launched(Run(ops[..j], c), ops[j]);
      && e.id == Run(ops[..i], c).added && e.job == ops[i].job && (ops[i].key.Some? ==> e.key == ops[i].key.value)
      && (HasId(launched, e.id) <==> ops[j].Tick? && Lasts(ops[i].delay, Ticks(ops[..j]) - Ticks(ops[..i]), c))
      && (HasId(launched, e.id) <==> e in launched)
      && multiset(launched)[e] <= 1
  {
    RunIsOk(ops[..i], c);
    OneStepBack(ops, i + 1, c);
    hide Run, Lasts, Intervals, Launched, Ticks;
    LaunchedWhenDue(ops, i + 1, j, NewEntry(Run(ops[..i], c), ops[i], c), c);
    LastsIntervals(ops[i].delay, Ticks(ops[..j]) - Ticks(ops[..i]), c);
  }

  lemma {:induction false} OnceInIncreasing(es: seq<Entry>, e: Entry)
    requires Increasing(es)
    ensures multiset(es)[e] <= 1
  {
    if es != [] {
      var init, last := es[..|es| - 1], es[|es| - 1];
      assert es == init + [last];
      OnceInIncreasing(init, e);
      if e == last {
        forall i | 0 <= i < |init| ensures init[i] != e { assert es[i].id < es[|init|].id; }
        assert e !in multiset(init);
      }
    }
  }

  // ------------------------------------------------- the index when keys are distinct

  ghost predicate DistinctKeys(es: seq<Entry>)
  {
    forall x, y :: x in es && y in es && x.key == y.key ==> x == y
  }

  /** The index holds exactly the pending keys, each with the slot of its task. */
  ghost predicate IndexExact(s: State, c: Config)
    requires ConfigOk(c)
  {
    && s.index.Keys == Keys(s.pending)
    && forall e :: e in s.pending ==> e.key in s.index && s.index[e.key] == e.due % c.slots
  }

  lemma StepKeepsIndexExact(s: State, op: Op, c: Config)
    requires ConfigOk(c) && Ok(s, c) && IndexExact(s, c)
    requires DistinctKeys(s.pending) && DistinctKeys(Step(s, op, c).pending)
    ensures IndexExact(Step(s, op, c), c)
  {
    match op
    case Tick => TickKeepsExact(s, c);
    case Add(delay, key, job) =>
      if delay > 0 {
        AddKeepsExact(s, op, c);
      }
    case Remove(key) =>
      if key in s.index {
        RemoveKeepsExact(s, key, c);
      }
  }

  lemma TickKeepsExact(s: State, c: Config)
    requires ConfigOk(c) && IndexExact(s, c) && DistinctKeys(s.pending)
    ensures IndexExact(Step(s, Tick, c), c)
  {
    hide Due, Later;
    SplitMembers(s.pending, s.now);
    var t := Step(s, Tick, c);
    forall k
      ensures k in t.index.Keys <==> k in Keys(t.pending)
    {
    }
  }

  lemma RemoveKeepsExact(s: State, key: Key, c: Config)
    requires ConfigOk(c) && Ok(s, c) && IndexExact(s, c) && DistinctKeys(s.pending) && key in s.index
    ensures IndexExact(Step(s, Remove(key), c), c)
  {
    RemoveDropsOne(s, key, c);
    hide DropFirst, Ok;
    var t := Step(s, Remove(key), c);
    assert forall k :: k in t.index.Keys <==> k in Keys(t.pending);
  }

  lemma AddKeepsExact(s: State, op: Op, c: Config)
    requires ConfigOk(c) && IndexExact(s, c) && op.Add? && op.delay > 0
    requires DistinctKeys(Step(s, op, c).pending) && Ok(s, c)
    ensures IndexExact(Step(s, op, c), c)
  {
    var t := Step(s, op, c);
    var e := NewEntry(s, op, c);
    assert t.pending == s.pending + [e];
    assert e in t.pending;
    forall x | x in s.pending ensures x.key != e.key
    {
      assert x in t.pending;
    }
    assert Keys(t.pending) == Keys(s.pending) + {e.key};
  }

  /** With distinct keys, removing a key drops exactly its task. */
  lemma RemoveDropsOne(s: State, key: Key, c: Config)
    requires ConfigOk(c) && Ok(s, c) && IndexExact(s, c) && DistinctKeys(s.pending)
    requires key in s.index
    ensures forall e :: e in Step(s, Remove(key), c).pending <==> e in s.pending && e.key != key
  {
    DropMembers(s.pending, key, s.index[key], c.slots);
    assert key in Keys(s.pending);
    var x :| x in s.pending && x.key == key;
    assert Matches(x, key, s.index[key], c.slots);
    var y := DropLoses(s.pending, key, s.index[key], c.slots);
  }

  ghost predicate KeysStayDistinct(ops: seq<Op>, c: Config)
    requires ConfigOk(c)
  {
    forall i :: 0 <= i <= |ops| ==> DistinctKeys(Run(ops[..i], c).pending)
  }

  lemma {:induction false} RunKeepsIndexExact(ops: seq<Op>, i: nat, c: Config)
    requires ConfigOk(c) && i <= |ops| && KeysStayDistinct(ops, c)
    ensures IndexExact(Run(ops[..i], c), c)
  {
    if i > 0 {
      RunKeepsIndexExact(ops, i - 1, c);
      RunIsOk(ops[..i - 1], c);
      OneStepBack(ops, i, c);
      assert DistinctKeys(Run(ops[..i], c).pending);
      StepKeepsIndexExact(Run(ops[..i - 1], c), ops[i - 1], c);
    }
  }

  /** On a run whose pending keys stay distinct, removing a pending key takes out that task and
      nothing else, and the task is launched by no later operation. */
  lemma RemovedNeverLaunched(ops: seq<Op>, i: nat, j: nat, e: Entry, c: Config)
    requires ConfigOk(c) && i < j < |ops| && KeysStayDistinct(ops, c)
    requires e in Run(ops[..i], c).pending && ops[i] == Remove(e.key)
    ensures forall x :: x in Run(ops[..i + 1], c).pending <==> x in Run(ops[..i], c).pending && x != e
    ensures !HasId(Launched(Run(ops[..j], c), ops[j]), e.id)
  {
    var s := Run(ops[..i], c);
    RunIsOk(ops[..i], c);
    RunKeepsIndexExact(ops, i, c);
    assert DistinctKeys(s.pending);
    RemoveDropsOne(s, e.key, c);
    OneStepBack(ops, i + 1, c);
    forall x | x in s.pending && x.id == e.id ensures x == e { UniqueId(s.pending, x, e); }
    GoneForGood(ops, i + 1, j, e.id, c);
    SplitMembers(Run(ops[..j], c).pending, Run(ops[..j], c).now);
  }

  // ------------------------------------------------- keys that stay distinct

  /** Keys given by callers are not numbers, and no two adds give the same one. */
  ghost predicate OwnKeysDiffer(ops: seq<Op>)
  {
    && (forall i :: 0 <= i < |ops| && ops[i].Add? && ops[i].key.Some? ==> ops[i].key.value.Custom?)
    && forall i, j :: 0 <= i < j < |ops| && ops[i].Add? && ops[j].Add? && ops[i].key.Some? ==> ops[i].key != ops[j].key
  }

  function KeylessAdds(ops: seq<Op>): nat
  {
    if ops == [] then 0 else
      var last := ops[|ops| - 1];
      KeylessAdds(ops[..|ops| - 1]) + if last.Add? && last.delay > 0 && last.key.None? then 1 else 0
  }

  /** Where a pending key comes from: the numbers handed out so far, or an add that gave it. */
  ghost predicate KeyFrom(key: Key, ops: seq<Op>)
  {
    match key
    case Number(n) => 0 < n <= KeylessAdds(ops)
    case Custom(_) => exists i :: 0 <= i < |ops| && ops[i].Add? && ops[i].key == Some(key)
  }

  /** Fewer than 2^63 adds without a key, and different keys in the others, keep pending keys distinct. */
  lemma DistinctByOperations(ops: seq<Op>, c: Config)
    requires ConfigOk(c) && OwnKeysDiffer(ops) && KeylessAdds(ops) < 0x8000_0000_0000_0000
    ensures KeysStayDistinct(ops, c)
  {
    forall i | 0 <= i <= |ops|
      ensures DistinctKeys(Run(ops[..i], c).pending)
    {
      DistinctUpTo(ops, i, c);
    }
  }

  lemma {:induction false} KeylessMonotone(ops: seq<Op>, i: nat)
    requires i <= |ops|
    ensures KeylessAdds(ops[..i]) <= KeylessAdds(ops)
  {
    if i == |ops| {
      assert ops[..i] == ops;
    } else {
      var init := ops[..|ops| - 1];
      assert init[..i] == ops[..i];
      KeylessMonotone(init, i);
    }
  }

  lemma {:induction false} DistinctUpTo(ops: seq<Op>, i: nat, c: Config)
    requires ConfigOk(c) && i <= |ops| && OwnKeysDiffer(ops) && KeylessAdds(ops) <= MAX_INT64
    ensures
      var s := Run(ops[..i], c);
      && DistinctKeys(s.pending) && s.last == KeylessAdds(ops[..i])
      && forall e :: e in s.pending ==> KeyFrom(e.key, ops[..i])
  {
    if i > 0 {
      DistinctUpTo(ops, i - 1, c);
      KeylessMonotone(ops, i);
      OneStepBack(ops, i, c);
      RunIsOk(ops[..i - 1], c);
      var s, op := Run(ops[..i - 1], c), ops[i - 1];
      assert ops[..i] == ops[..i - 1] + [op];
      assert ops[..i][..i - 1] == ops[..i - 1];
      KeyStaysFrom(s.pending, ops[..i - 1], op);
      StepMembers(s, op, c);
      if op.Add? && op.delay > 0 {
        var e := NewEntry(s, op, c);
        assert Step(s, op, c).pending == s.pending + [e];
        assert KeyFrom(e.key, ops[..i]) by { assert ops[..i][i - 1] == op; }
        forall x | x in s.pending ensures x.key != e.key {
          assert KeyFrom(x.key, ops[..i - 1]);
        }
      }
    }
  }

  lemma KeyStaysFrom(es: seq<Entry>, ops: seq<Op>, op: Op)
    requires forall e :: e in es ==> KeyFrom(e.key, ops)
    ensures forall e :: e in es ==> KeyFrom(e.key, ops + [op])
  {
    assert (ops + [op])[..|ops|] == ops;
    forall e | e in es ensures KeyFrom(e.key, ops + [op]) {
      if e.key.Custom? {
        var i :| 0 <= i < |ops| && ops[i].Add? && ops[i].key == Some(e.key);
        assert (ops + [op])[i] == ops[i];
      }
    }
  }

  /** The number the n-th keyless add hands out runs from 1 to the largest int64 and then over again. */
  lemma {:induction false} NumbersHandedOut(ops: seq<Op>, c: Config)
    requires ConfigOk(c)
    ensures
      var n := KeylessAdds(ops);
      Run(ops, c).last == if n == 0 then 0 else (n - 1) % 0x7fff_ffff_ffff_ffff + 1
  {
    if ops != [] {
      var init := ops[..|ops| - 1];
      NumbersHandedOut(init, c);
      NextInCycle(KeylessAdds(init), Run(init, c).last);
    }
  }

  lemma NextInCycle(n: nat, last: int)
    requires last == if n == 0 then 0 else (n - 1) % 0x7fff_ffff_ffff_ffff + 1
    ensures NextNumber(last) == n % 0x7fff_ffff_ffff_ffff + 1
  {
  }

  // ------------------------------------------------- when a removal is complete

  lemma {:induction false} DropLosesOne(es: seq<Entry>, key: Key, slot: nat, slots: nat, x: Entry, y: Entry)
    requires slots > 0 && Increasing(es) && x in es && y in es
    requires x !in DropFirst(es, key, slot, slots) && y !in DropFirst(es, key, slot, slots)
    ensures x == y
  {
    var init, last := es[..|es| - 1], es[|es| - 1];
    assert es == init + [last];
    if Holds(init, key, slot, slots) {
      assert DropFirst(es, key, slot, slots) == DropFirst(init, key, slot, slots) + [last];
      DropLosesOne(init, key, slot, slots, x, y);
    }
  }

  ghost predicate Pending(s: State, key: Key)
  {
    exists e :: e in s.pending && e.key == key
  }

  ghost predicate AtMostOnePending(s: State, key: Key)
  {
    forall x, y :: x in s.pending && y in s.pending && x.key == key && y.key == key ==> x == y
  }

  /** Removing a key leaves no task with it if and only if at most one was pending, and the index still
      knew the key if one was. */
  lemma RemoveCompleteIff(ops: seq<Op>, key: Key, c: Config)
    requires ConfigOk(c)
    ensures
      var s := Run(ops, c);
      !Pending(Run(ops + [Remove(key)], c), key) <==> AtMostOnePending(s, key) && (Pending(s, key) ==> key in s.index)
  {
    var s := Run(ops, c);
    RunIsOk(ops, c);
    assert (ops + [Remove(key)])[..|ops|] == ops;
    if key in s.index {
      var rest := DropFirst(s.pending, key, s.index[key], c.slots);
      DropMembers(s.pending, key, s.index[key], c.slots);
      var lost := DropLoses(s.pending, key, s.index[key], c.slots);
      forall x | x in s.pending && x !in rest ensures x == lost {
        DropLosesOne(s.pending, key, s.index[key], c.slots, x, lost);
      }
    }
  }

  /** After an incomplete removal a task with the removed key is launched when it is due, unless the key
      is removed once more. */
  lemma LeftoverIsLaunched(ops: seq<Op>, i: nat, j: nat, key: Key, c: Config) returns (e: Entry)
    requires ConfigOk(c) && i < j < |ops| && ops[i] == Remove(key)
    requires Pending(Run(ops[..i + 1], c), key)
    requires NoRemove(ops[i + 1..j], key)
    ensures e in Run(ops[..i], c).pending && e.key == key
    ensures ops[j].Tick? && Ticks(ops[..j]) == e.due ==> e in Launched(Run(ops[..j], c), ops[j])
  {
    e :| e in Run(ops[..i + 1], c).pending && e.key == key;
    OneStepBack(ops, i + 1, c);
    RunIsOk(ops[..i], c);
    StepMembers(Run(ops[..i], c), ops[i], c);
    LaunchedWhenDue(ops, i + 1, j, e, c);
  }

  /** Two tasks under one key, whatever key, and every removal asked for: the second is launched all the same. */
  lemma RemovedKeyFires(key: Key, a: string, b: string, c: Config)
    requires ConfigOk(c)
    ensures
      var before := [Add(1, Some(key), a), Add(1, Some(key), b), Remove(key), Remove(key)];
      exists e :: e in Launched(Run(before, c), Tick) && e.key == key && e.job == b
  {
    hide DropFirst, Due, Later, Step, Run;
    var op0, op1, gone := Add(1, Some(key), a), Add(1, Some(key), b), Remove(key);
    var before := [op0, op1, gone, gone];
    RunSnoc([op0, op1, gone], gone, c);
    RunSnoc([op0, op1], gone, c);
    assert before == [op0, op1, gone] + [gone] && [op0, op1, gone] == [op0, op1] + [gone];
    TwoAdds(key, a, b, c);
    FirstDropped(key, a, b, c);
    TwoRemoves(key, b, c, Run([op0, op1], c));
    var e1 := Entry(1, key, b, 0);
    SplitMembers([e1], 0);
    assert e1 in [e1];
  }

  lemma RunSnoc(ops: seq<Op>, op: Op, c: Config)
    requires ConfigOk(c)
    ensures Run(ops + [op], c) == Step(Run(ops, c), op, c)
  {
    assert (ops + [op])[..|ops|] == ops;
  }

  lemma TwoRemoves(key: Key, b: string, c: Config, s: State)
    requires ConfigOk(c) && s.now == 0 && s.index == map[key := 0]
    requires DropFirst(s.pending, key, 0, c.slots) == [Entry(1, key, b, 0)]
    ensures
      var t := Step(Step(s, Remove(key), c), Remove(key), c);
      t.pending == [Entry(1, key, b, 0)] && t.now == 0
  {
    hide DropFirst;
  }

  lemma AddOne(s: State, key: Key, job: string, c: Config)
    requires ConfigOk(c) && s.now == 0
    ensures Step(s, Add(1, Some(key), job), c) ==
      State(0, s.pending + [Entry(s.added, key, job, 0)], s.index[key := 0], s.last, s.added + 1)
  {
    assert Intervals(1, c) == 0;
    SmallRemainder(c.slots);
  }

  lemma SmallRemainder(m: nat)
    requires m > 0
    ensures 0 % m == 0
  {
  }

  lemma TwoAdds(key: Key, a: string, b: string, c: Config)
    requires ConfigOk(c)
    ensures Run([Add(1, Some(key), a), Add(1, Some(key), b)], c) ==
      State(0, [Entry(0, key, a, 0), Entry(1, key, b, 0)], map[key := 0], 0, 2)
  {
    var op0, op1 := Add(1, Some(key), a), Add(1, Some(key), b);
    RunSnoc([], op0, c);
    RunSnoc([op0], op1, c);
    assert [] + [op0] == [op0] && [op0] + [op1] == [op0, op1];
    AddOne(EMPTY, key, a, c);
    AddOne(Run([op0], c), key, b, c);
    assert Run([], c) == EMPTY;
    hide Step, Run;
    assert [Entry(0, key, a, 0)] + [Entry(1, key, b, 0)] == [Entry(0, key, a, 0), Entry(1, key, b, 0)];
  }

  lemma FirstDropped(key: Key, a: string, b: string, c: Config)
    requires ConfigOk(c)
    ensures DropFirst([Entry(0, key, a, 0), Entry(1, key, b, 0)], key, 0, c.slots) == [Entry(1, key, b, 0)]
  {
    var e0, e1 := Entry(0, key, a, 0), Entry(1, key, b, 0);
    assert Matches(e0, key, 0, c.slots) && e0 in [e0];
    assert [e0, e1][..1] == [e0] && [e0][..0] == [];
    assert !Holds([], key, 0, c.slots);
    assert DropFirst([e0], key, 0, c.slots) == [];
  }
}
