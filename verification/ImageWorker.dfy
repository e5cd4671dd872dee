/** The single-flight image worker of src/clipboard_transfer.rs: a caller with one
    pending job and one job in flight, a worker thread, and two channels of capacity
    one between them.  The caller's methods and the thread's steps interleave. */
module ImageWorker {
  import opened Basics

  /** The thread: absent or gone, waiting for a job, converting, or about to send. */
  datatype Thread = Gone | Waiting | Running(token: nat) | Finished(token: nat)

  /** What the caller and its environment saw, in order. */
  datatype Event = Replaced(job: Option<nat>) | Started(token: nat) | Lost(token: nat) | Completed(token: nat)

  /** `worker` says the caller has its channel ends; `jobs` and `results` are the
      channels' contents. */
  datatype State = State(pending: Option<nat>, inFlight: Option<nat>, worker: bool,
                         thread: Thread, jobs: Option<nat>, results: Option<nat>, history: seq<Event>)

  const INITIAL := State(None, None, false, Gone, None, None, [])

  datatype Step =
    | Replace(job: Option<nat>)
    | Start(spawned: bool)   // whether a thread could be spawned, if one is needed
    | Poll
    | Receive                // the thread takes the queued job
    | Convert
    | Send                   // the thread's send; blocks while a result is unread
    | Die                    // the thread ends for any reason, dropping its channel ends

  predicate Can(s: State, step: Step) {
    match step
    case Receive => s.thread.Waiting? && s.jobs.Some?
    case Convert => s.thread.Running?
    case Send => s.thread.Finished? && s.results.None?
    case Die => !s.thread.Gone?
    case _ => true
  }

  function Saw(s: State, e: Event): State { s.(history := s.history + [e]) }

  /** start_pending's job is taken, and either reaches the channel or is lost. */
  function Launched(s: State, token: nat, spawned: bool): State {
    var taken := s.(pending := None);
    if !s.worker && !spawned then Saw(taken, Lost(token))
    else
      var ready := if s.worker then taken else taken.(worker := true, thread := Waiting, jobs := None, results := None);
      if ready.thread.Gone? || ready.jobs.Some? then Saw(ready.(worker := false, results := None), Lost(token))
      else Saw(ready.(jobs := Some(token), inFlight := Some(token)), Started(token))
  }

  function Do(s: State, step: Step): State
    requires Can(s, step)
  {
    match step
    case Replace(job) => Saw(s.(pending := job), Replaced(job))
    case Start(spawned) => if s.inFlight.Some? || s.pending.None? then s else Launched(s, s.pending.value, spawned)
    case Poll =>
      if s.inFlight.None? || !s.worker then s
      else if s.results.Some? then Saw(s.(results := None, inFlight := None), Completed(s.results.value))
      else if s.thread.Gone? then Saw(s.(worker := false, inFlight := None), Completed(s.inFlight.value))
      else s
    case Receive => s.(thread := Running(s.jobs.value), jobs := None)
    case Convert => s.(thread := Finished(s.thread.token))
    case Send => s.(results := Some(s.thread.token), thread := Waiting)
    case Die => s.(thread := Gone, jobs := None)
  }

  // --------------------------------------------------------------- the invariant

  function One(b: bool): nat { if b then 1 else 0 }

  /** Queued job, running job and unread result. */
  function Outstanding(s: State): nat {
    One(s.jobs.Some?) + One(s.thread.Running? || s.thread.Finished?) + One(s.results.Some?)
  }

  /** Every token under way is the one in flight. */
  predicate Tokens(s: State) {
    && (s.jobs.Some? ==> s.jobs == s.inFlight)
    && (s.thread.Running? || s.thread.Finished? ==> Some(s.thread.token) == s.inFlight)
    && (s.results.Some? ==> s.results == s.inFlight)
  }

  /** What the caller should hold, from the events alone: Started and Completed
      alternate with the same token; None once they do not. */
  function Flying(history: seq<Event>): Option<Option<nat>> {
    if history == [] then Some(None)
    else
      var before, e := Flying(history[..|history| - 1]), history[|history| - 1];
      match e
      case Started(token) => if before == Some(None) then Some(Some(token)) else None
      case Completed(token) => if before == Some(Some(token)) then Some(None) else None
      case _ => before
  }

  /** The latest pending job, from the events alone: a start or a loss takes exactly
      that one; None once they do not. */
  function Latest(history: seq<Event>): Option<Option<nat>> {
    if history == [] then Some(None)
    else
      var before, e := Latest(history[..|history| - 1]), history[|history| - 1];
      match e
      case Replaced(job) => if before.None? then None else Some(job)
      case Started(token) => if before == Some(Some(token)) then Some(None) else None
      case Lost(token) => if before == Some(Some(token)) then Some(None) else None
      case Completed(_) => before
  }

  ghost predicate Inv(s: State) {
    && Tokens(s)
    && (s.thread.Gone? ==> s.jobs.None?)
    && (!s.worker ==> s.thread.Gone? && s.inFlight.None? && s.results.None?)
    && (!s.thread.Gone? ==> Outstanding(s) == One(s.inFlight.Some?))
    && Flying(s.history) == Some(s.inFlight)
    && Latest(s.history) == Some(s.pending)
  }

  lemma SawOne(h: seq<Event>, e: Event)
    ensures (h + [e])[..|h + [e]| - 1] == h && (h + [e])[|h + [e]| - 1] == e && h + [e] != []
  {
  }

  lemma InvStart(s: State, spawned: bool)
    requires Inv(s) && s.inFlight.None? && s.pending.Some?
    ensures Inv(Launched(s, s.pending.value, spawned))
    ensures s.worker && !s.thread.Gone? ==> s.jobs.None?
  {
    SawOne(s.history, Started(s.pending.value));
    SawOne(s.history, Lost(s.pending.value));
  }

  lemma InvStep(s: State, step: Step)
    requires Inv(s) && Can(s, step)
    ensures Inv(Do(s, step))
  {
    match step
    case Replace(job) => SawOne(s.history, Replaced(job));
    case Start(spawned) => if s.inFlight.None? && s.pending.Some? { InvStart(s, spawned); }
    case Poll => if s.inFlight.Some? { SawOne(s.history, Completed(s.inFlight.value)); }
    case _ =>
  }

  ghost predicate IsRun(states: seq<State>, steps: seq<Step>) {
    && |states| == |steps| + 1 && states[0] == INITIAL
    && forall i | 0 <= i < |steps| :: Can(states[i], steps[i]) && states[i + 1] == Do(states[i], steps[i])
  }

  lemma {:induction false} EveryRun(states: seq<State>, steps: seq<Step>, i: nat)
    requires IsRun(states, steps) && i < |states|
    ensures Inv(states[i])
  {
    if i > 0 {
      EveryRun(states, steps, i - 1);
      InvStep(states[i - 1], steps[i - 1]);
    }
  }

  /** While the worker lives there is exactly one outstanding job when one is in
      flight and none otherwise; so the job channel is never full when a job starts,
      the worker's send never blocks, and a result carries the token in flight. */
  lemma SingleFlight(states: seq<State>, steps: seq<Step>, i: nat)
    requires IsRun(states, steps) && i < |states|
    ensures var s := states[i];
            && (!s.thread.Gone? ==> Outstanding(s) == One(s.inFlight.Some?))
            && (s.inFlight.None? ==> s.jobs.None?)
            && (s.thread.Finished? ==> s.results.None?)
            && (s.results.Some? ==> s.results == s.inFlight)
            && (!s.worker ==> s.thread.Gone?)
  {
    EveryRun(states, steps, i);
  }

  /** Over every run, starts and completions alternate with the same token, and
      every start or loss is of the latest job handed in and not yet taken. */
  lemma OrderlyHistory(states: seq<State>, steps: seq<Step>, i: nat)
    requires IsRun(states, steps) && i < |states|
    ensures Flying(states[i].history).Some? && Latest(states[i].history).Some?
  {
    EveryRun(states, steps, i);
  }

  // ------------------------------------------------------------ the caller's code

  /** HostImageWorker, with the channels and the thread it shares. */
  class HostImageWorker {
    var pending: Option<nat>
    var inFlight: Option<nat>
    var worker: bool
    var thread: Thread
    var jobs: Option<nat>
    var results: Option<nat>
    ghost var history: seq<Event>

    ghost function Value(): State
      reads this
    {
      State(pending, inFlight, worker, thread, jobs, results, history)
    }

    constructor ()
      ensures Value() == INITIAL && Inv(Value())
    {
      pending, inFlight, worker := None, None, false;
      thread, jobs, results, history := Gone, None, None, [];
    }

    method ReplacePending(job: Option<nat>)
      requires Inv(Value())
      modifies this
      ensures Value() == Do(old(Value()), Replace(job)) && Inv(Value())
    {
      InvStep(Value(), Replace(job));
      pending := job;
      history := history + [Replaced(job)];
    }

    /** Whether the job was taken but could not be handed to a worker. */
    method StartPending(spawned: bool) returns (ok: bool)
      requires Inv(Value())
      modifies this
      ensures Value() == Do(old(Value()), Start(spawned)) && Inv(Value())
      ensures !ok ==> old(pending).Some? && pending.None? && inFlight.None?
      ensures !ok ==> if old(worker) then old(thread).Gone? else !spawned
    {
      InvStep(Value(), Start(spawned));
      ok := true;
      if inFlight.Some? || pending.None? {
        return;
      }
      var token := pending.value;
      pending := None;
      if !worker {
        if !spawned {
          history := history + [Lost(token)];
          return false;
        }
        worker, thread, jobs, results := true, Waiting, None, None;
      }
      if thread.Gone? || jobs.Some? {
        worker, results := false, None;
        history := history + [Lost(token)];
        return false;
      }
      jobs, inFlight := Some(token), Some(token);
      history := history + [Started(token)];
    }

    method PollResult() returns (completion: Option<nat>)
      requires Inv(Value())
      modifies this
      ensures Value() == Do(old(Value()), Poll) && Inv(Value())
      ensures completion.Some? ==> completion == old(inFlight) && inFlight.None?
      ensures completion.None? ==> Value() == old(Value())
      ensures old(inFlight).Some? && (old(results).Some? || old(thread).Gone?) ==> completion.Some?
    {
      InvStep(Value(), Poll);
      completion := None;
      if inFlight.None? || !worker {
        return;
      }
      if results.Some? {
        completion := results;
        results := None;
      } else if thread.Gone? {
        worker := false;
        completion := inFlight;
      } else {
        return;
      }
      inFlight := None;
      history := history + [Completed(completion.value)];
    }
  }
}
