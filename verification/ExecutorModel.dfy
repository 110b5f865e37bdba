/** The thread pool executor and its task queue as a transition system.
    Any number of workers, any number of submitting threads and any number of calls of `stop`. A critical section
    of the queue's mutex is one step; reads made without the mutex are steps of their own. */
module ExecutorModel {

  datatype Job = Real(task: nat) | Noop

  /** Where a worker is in its loop. */
  datatype Worker =
    | AtStop            // about to read `stop_`
    | AtEmpty           // has read `stop_` as true, about to read `empty()`
    | AtFetch           // about to take the mutex and look whether there is something to fetch
    | Asleep            // waits on the condition variable
    | Running(job: Job)
    | Exited

  /** Where a submitting thread is. */
  datatype Submitter =
    | Idle
    | Admitted(task: nat)  // has read `stop_` as false, about to push
    | Pushed               // has pushed, about to notify

  /** Where the one call of `stop` is that set `stop_`. Every other call returns at once. */
  datatype Phase =
    | NotStopped
    | Marked            // `stop_` is set, `terminate_` is not
    | Draining          // about to read `empty()`
    | Poking            // has read that the queue is not empty, about to notify one worker
    | Broadcasting      // has read that the queue is empty, about to notify all workers
    | Pooling           // about to terminate the thread pool
    | Joining(joined: nat)
    | Returned

  /** The shared state, the threads, and the history of the tasks. */
  datatype State = State(
    queue: seq<nat>, stop: bool, terminate: bool, poolStop: bool,
    workers: seq<Worker>, submitters: seq<Submitter>, phase: Phase,
    pushed: seq<nat>,    // all tasks ever pushed, in order
    popped: seq<nat>,    // all tasks ever fetched, in order
    finished: seq<nat>,  // all tasks run to completion
    noops: seq<nat>,     // how often each worker fetched the no-op
    next: nat,           // the tasks so far are below
    mark: nat,           // how many tasks were pushed when `stop_` was set
    quiet: bool          // nobody was between the read of `stop_` and the push when `stop_` was set
  )

  datatype Woken = Nobody | Somebody(worker: nat)

  datatype Label =
    | ReadStop(i: nat)
    | ReadEmpty(i: nat)
    | Fetch(i: nat)
    | WakeUp(i: nat)     // spurious
    | Finish(i: nat)
    | Submit(j: nat)
    | Push(j: nat)
    | Notify(j: nat, woken: Woken)
    | Stop
    | SetTerminate
    | LookEmpty
    | Poke(woken: Woken)
    | Broadcast
    | EnterPool
    | Join

  /** A pool that is started. */
  function Started(workers: nat, submitters: nat): State {
    State([], false, false, false, seq(workers, _ => AtStop), seq(submitters, _ => Idle), NotStopped,
          [], [], [], seq(workers, _ => 0), 0, 0, false)
  }

  // ------------------------------------------------------------------ the steps

  predicate At(s: State, i: nat, w: Worker) {
    i < |s.workers| && s.workers[i] == w
  }

  /** A notification wakes one sleeping worker, if there is one. */
  predicate Wakes(s: State, woken: Woken) {
    match woken
    case Nobody => forall i | 0 <= i < |s.workers| :: s.workers[i] != Asleep
    case Somebody(i) => At(s, i, Asleep)
  }

  function Wake(s: State, woken: Woken): State
    requires Wakes(s, woken)
  {
    match woken
    case Nobody => s
    case Somebody(i) => Moved(s, i, AtFetch)
  }

  function Moved(s: State, i: nat, w: Worker): State
    requires i < |s.workers|
  {
    s.(workers := s.workers[i := w])
  }

  /** Nobody has read `stop_` as false and has yet to push. */
  predicate NoneAdmitted(s: State) {
    forall j | 0 <= j < |s.submitters| :: !s.submitters[j].Admitted?
  }

  predicate Enabled(s: State, l: Label) {
    match l
    case ReadStop(i) => At(s, i, AtStop)
    case ReadEmpty(i) => At(s, i, AtEmpty)
    case Fetch(i) => At(s, i, AtFetch) && |s.noops| == |s.workers|
    case WakeUp(i) => At(s, i, Asleep)
    case Finish(i) => i < |s.workers| && s.workers[i].Running?
    case Submit(j) => j < |s.submitters| && s.submitters[j] == Idle
    case Push(j) => j < |s.submitters| && s.submitters[j].Admitted?
    case Notify(j, woken) => j < |s.submitters| && s.submitters[j] == Pushed && Wakes(s, woken)
    case Stop => true
    case SetTerminate => s.phase == Marked
    case LookEmpty => s.phase == Draining
    case Poke(woken) => s.phase == Poking && Wakes(s, woken)
    case Broadcast => s.phase == Broadcasting
    case EnterPool => s.phase == Pooling
    case Join => s.phase.Joining? && (s.phase.joined < |s.workers| ==> s.workers[s.phase.joined] == Exited)
  }

  /** The critical section of `fetch`: sleep, take the first task, or take the no-op if terminated and empty. */
  function Fetched(s: State, i: nat): State
    requires i < |s.workers| == |s.noops|
  {
    if s.queue == [] then
      if s.terminate then Moved(s, i, Running(Noop)).(noops := s.noops[i := s.noops[i] + 1]) else Moved(s, i, Asleep)
    else
      Moved(s, i, Running(Real(s.queue[0]))).(queue := s.queue[1..], popped := s.popped + [s.queue[0]])
  }

  function WakeAll(ws: seq<Worker>): (r: seq<Worker>)
    ensures |r| == |ws|
    ensures forall i | 0 <= i < |ws| :: r[i] == if ws[i] == Asleep then AtFetch else ws[i]
  {
    seq(|ws|, i requires 0 <= i < |ws| => if ws[i] == Asleep then AtFetch else ws[i])
  }

  function Apply(s: State, l: Label): State
    requires Enabled(s, l)
  {
    match l
    case ReadStop(i) => Moved(s, i, if s.stop then AtEmpty else AtFetch)
    case ReadEmpty(i) => Moved(s, i, if s.queue == [] then Exited else AtFetch)
    case Fetch(i) => Fetched(s, i)
    case WakeUp(i) => Moved(s, i, AtFetch)
    case Finish(i) =>
      var job := s.workers[i].job;
      Moved(s, i, AtStop).(finished := match job case Real(t) => s.finished + [t] case Noop => s.finished)
    case Submit(j) =>
      if s.stop then s
      else s.(submitters := s.submitters[j := Admitted(s.next)], next := s.next + 1)
    case Push(j) =>
      var t := s.submitters[j].task;
      s.(submitters := s.submitters[j := Pushed], queue := s.queue + [t], pushed := s.pushed + [t])
    case Notify(j, woken) => Wake(s.(submitters := s.submitters[j := Idle]), woken)
    case Stop =>
      if s.stop then s else s.(stop := true, phase := Marked, mark := |s.pushed|, quiet := NoneAdmitted(s))
    case SetTerminate =>
      if s.terminate then s.(phase := Pooling) else s.(terminate := true, phase := Draining)
    case LookEmpty => s.(phase := if s.queue == [] then Broadcasting else Poking)
    case Poke(woken) => Wake(s, woken).(phase := Draining)
    case Broadcast => s.(workers := WakeAll(s.workers), phase := Pooling)
    case EnterPool =>
      if s.poolStop then s.(phase := Returned) else s.(poolStop := true, phase := Joining(0))
    case Join =>
      s.(phase := if s.phase.joined < |s.workers| then Joining(s.phase.joined + 1) else Returned)
  }

  /** The labels can be taken one after the other. */
  predicate Path(s: State, ls: seq<Label>)
    decreases |ls|
  {
    ls == [] || (Enabled(s, ls[0]) && Path(Apply(s, ls[0]), ls[1..]))
  }

  function After(s: State, ls: seq<Label>): State
    requires Path(s, ls)
    decreases |ls|
  {
    if ls == [] then s else After(Apply(s, ls[0]), ls[1..])
  }

  lemma {:induction false} PathAppend(s: State, ls: seq<Label>, ms: seq<Label>)
    requires Path(s, ls) && Path(After(s, ls), ms)
    ensures Path(s, ls + ms) && After(s, ls + ms) == After(After(s, ls), ms)
    decreases |ls|
  {
    if ls == [] {
      assert ls + ms == ms;
    } else {
      assert (ls + ms)[0] == ls[0] && (ls + ms)[1..] == ls[1..] + ms;
      PathAppend(Apply(s, ls[0]), ls[1..], ms);
    }
  }
}
