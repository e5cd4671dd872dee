/** The clipboard transfer budget of src/clipboard_transfer.rs: two atomic counters
    shared by any number of threads, each of which reserves with a compare-exchange
    loop per counter, rolls back, or drops its permit.  One step is one atomic
    operation of one thread; a run is any interleaving. */
module TransferBudget {
  import opened Keys

  const MAX_TRANSFERS := 8
  const MAX_TRANSFER_BYTES := 64 * 1024 * 1024
  const MAX_TOTAL_BYTES := 128 * 1024 * 1024
  const WORD := 0x1_0000_0000_0000_0000

  /** Where a thread is.  `used` is the value it last saw of the counter it is
      adding to. */
  datatype Thread =
    | Idle
    | AddingActive(used: nat, amount: nat)  // in try_add(active, 1)
    | LoadingBytes(amount: nat)             // active added, bytes not yet read
    | AddingBytes(used: nat, amount: nat)   // in try_add(bytes, amount)
    | RollingBack(amount: nat)              // bytes refused, active to be given back
    | Holding(amount: nat)                  // has the permit
    | Dropping(amount: nat)                 // bytes given back, active not yet

  datatype State = State(active: nat, bytes: nat, threads: map<nat, Thread>)

  /** One atomic operation of one thread.  A weak compare-exchange may fail although
      the counter has not changed. */
  datatype Step =
    | Reserve(t: nat, amount: nat)
    | Exchange(t: nat, spurious: bool)
    | Load(t: nat)
    | Rollback(t: nat)
    | DropBytes(t: nat)
    | DropActive(t: nat)

  /** How much of each counter a thread has added and not given back. */
  function Slots(h: Thread): nat {
    if h.Idle? || h.AddingActive? then 0 else 1
  }

  function Held(h: Thread): nat { if h.Holding? then h.amount else 0 }

  /** fetch_sub, which wraps. */
  function Minus(counter: nat, amount: nat): nat { (counter - amount) % WORD }

  /** checked_add, then the limit. */
  predicate Fits(used: nat, amount: nat, limit: nat) { used + amount < WORD && used + amount <= limit }

  function Become(s: State, t: nat, h: Thread): State { s.(threads := s.threads[t := h]) }

  predicate Can(s: State, step: Step) {
    && step.t in s.threads
    && var h := s.threads[step.t];
    match step
    case Reserve(_, _) => h.Idle?
    case Exchange(_, _) => h.AddingActive? || h.AddingBytes?
    case Load(_) => h.LoadingBytes?
    case Rollback(_) => h.RollingBack?
    case DropBytes(_) => h.Holding?
    case DropActive(_) => h.Dropping?
  }

  function Do(s: State, step: Step): State
    requires Can(s, step)
  {
    var t, h := step.t, s.threads[step.t];
    match step
    case Reserve(_, amount) =>
      if amount > MAX_TRANSFER_BYTES then s else Become(s, t, AddingActive(s.active, amount))
    case Exchange(_, spurious) =>
      if h.AddingActive? then ExchangeActive(s, t, h, spurious) else ExchangeBytes(s, t, h, spurious)
    case Load(_) => Become(s, t, AddingBytes(s.bytes, h.amount))
    case Rollback(_) => Become(s.(active := Minus(s.active, 1)), t, Idle)
    case DropBytes(_) => Become(s.(bytes := Minus(s.bytes, h.amount)), t, Dropping(h.amount))
    case DropActive(_) => Become(s.(active := Minus(s.active, 1)), t, Idle)
  }

  function ExchangeActive(s: State, t: nat, h: Thread, spurious: bool): State
    requires h.AddingActive?
  {
    if !Fits(h.used, 1, MAX_TRANSFERS) then Become(s, t, Idle)
    else if s.active == h.used && !spurious then Become(s.(active := h.used + 1), t, LoadingBytes(h.amount))
    else Become(s, t, AddingActive(s.active, h.amount))
  }

  function ExchangeBytes(s: State, t: nat, h: Thread, spurious: bool): State
    requires h.AddingBytes?
  {
    if !Fits(h.used, h.amount, MAX_TOTAL_BYTES) then Become(s, t, RollingBack(h.amount))
    else if s.bytes == h.used && !spurious then Become(s.(bytes := h.used + h.amount), t, Holding(h.amount))
    else Become(s, t, AddingBytes(s.bytes, h.amount))
  }

  // --------------------------------------------------------------- the invariant

  /** Both limits hold, and each counter is exactly what the threads hold of it. */
  ghost predicate Inv(s: State) {
    && s.active == Total(s.threads, Slots) <= MAX_TRANSFERS
    && s.bytes == Total(s.threads, Held) <= MAX_TOTAL_BYTES
  }

  /** A thread changes what it holds, and the counters with it. */
  lemma Changes(s: State, t: nat, h: Thread, active: nat, bytes: nat)
    requires Inv(s) && t in s.threads
    requires active == s.active - Slots(s.threads[t]) + Slots(h) <= MAX_TRANSFERS
    requires bytes == s.bytes - Held(s.threads[t]) + Held(h) <= MAX_TOTAL_BYTES
    ensures Inv(State(active, bytes, s.threads[t := h]))
  {
    TotalUpdate(s.threads, Slots, t, h);
    TotalUpdate(s.threads, Held, t, h);
  }

  /** What a thread gives back it holds, so the counters never wrap. */
  lemma NoUnderflow(s: State, t: nat)
    requires Inv(s) && t in s.threads
    ensures Slots(s.threads[t]) <= s.active && Held(s.threads[t]) <= s.bytes
    ensures s.threads[t].RollingBack? || s.threads[t].Dropping? ==> Minus(s.active, 1) == s.active - 1
    ensures s.threads[t].Holding? ==> Minus(s.bytes, s.threads[t].amount) == s.bytes - s.threads[t].amount
  {
    TotalUpdate(s.threads, Slots, t, s.threads[t]);
    TotalUpdate(s.threads, Held, t, s.threads[t]);
  }

  lemma InvStep(s: State, step: Step)
    requires Inv(s) && Can(s, step)
    ensures Inv(Do(s, step))
  {
    var t, s' := step.t, Do(s, step);
    NoUnderflow(s, t);
    assert s.threads[t := s.threads[t]] == s.threads;
    Changes(s, t, s'.threads[t], s'.active, s'.bytes);
  }

  // ------------------------------------------------------------------------ runs

  /** The counters start at zero and no thread has begun. */
  ghost predicate Init(s: State) { s.active == 0 && s.bytes == 0 && forall t | t in s.threads :: s.threads[t].Idle? }

  lemma {:induction false} AllIdle(threads: map<nat, Thread>)
    requires forall t | t in threads :: threads[t].Idle?
    ensures Total(threads, Slots) == 0 && Total(threads, Held) == 0
    decreases |threads|
  {
    if threads != map[] {
      var t :| t in threads;
      TotalRemove(threads, Slots, t);
      TotalRemove(threads, Held, t);
      assert |threads - {t}| < |threads| by { assert (threads - {t}).Keys == threads.Keys - {t}; }
      AllIdle(threads - {t});
    }
  }

  /** The state after each step of a run. */
  ghost predicate IsRun(states: seq<State>, steps: seq<Step>) {
    && |states| == |steps| + 1 && Init(states[0])
    && forall i | 0 <= i < |steps| :: Can(states[i], steps[i]) && states[i + 1] == Do(states[i], steps[i])
  }

  /** Over every run, at every moment: at most eight transfers and 128 MiB, both
      counters exact; and whenever no thread is inside, both are zero. */
  lemma {:induction false} EveryRun(states: seq<State>, steps: seq<Step>, i: nat)
    requires IsRun(states, steps) && i < |states|
    ensures Inv(states[i])
    ensures (forall t | t in states[i].threads :: states[i].threads[t].Idle?) ==>
              states[i].active == 0 && states[i].bytes == 0
  {
    if i == 0 {
      AllIdle(states[0].threads);
    } else {
      EveryRun(states, steps, i - 1);
      InvStep(states[i - 1], steps[i - 1]);
      if forall t | t in states[i].threads :: states[i].threads[t].Idle? { AllIdle(states[i].threads); }
    }
  }

  /** A refusal is never spurious: the value it rests on is one the counter had. */
  lemma {:induction false} SawTheCounter(states: seq<State>, steps: seq<Step>, i: nat, t: nat)
    requires IsRun(states, steps) && i < |states| && t in states[i].threads
    ensures states[i].threads[t].AddingActive? ==>
              exists j :: 0 <= j <= i && states[j].active == states[i].threads[t].used
    ensures states[i].threads[t].AddingBytes? ==>
              exists j :: 0 <= j <= i && states[j].bytes == states[i].threads[t].used
  {
    if i > 0 {
      assert t in states[i - 1].threads;
      SawTheCounter(states, steps, i - 1, t);
      assert states[i - 1].active == states[i - 1].active && states[i - 1].bytes == states[i - 1].bytes;
    }
  }
}
