/** The executor, its queue and its pool as objects. Each method is one stretch of the source between two places where
    another thread can come in; which thread goes next is the caller's choice. */
module Executors {
  import opened Texts
  import opened ExecutorModel

  class TaskQueue {
    var tasks: seq<nat>
    var terminated: bool

    constructor ()
      ensures tasks == [] && !terminated
    {
      tasks, terminated := [], false;
    }

    method Empty() returns (empty: bool)
      ensures empty <==> tasks == []
    {
      empty := |tasks| == 0;
    }

    /** The critical section of `add`. */
    method Add(task: nat)
      modifies this
      ensures tasks == old(tasks) + [task] && terminated == old(terminated)
    {
      tasks := tasks + [task];
    }

    /** The front of the queue, or the no-op when there is none. */
    method Next() returns (job: Job)
      modifies this
      ensures old(tasks) == [] ==> job == Noop && tasks == []
      ensures old(tasks) != [] ==> job == Real(old(tasks)[0]) && tasks == old(tasks)[1..]
      ensures terminated == old(terminated)
    {
      if |tasks| == 0 {
        return Noop;
      }
      job := Real(tasks[0]);
      tasks := tasks[1..];
    }

    /** The critical section of `fetch`: no job while there is nothing to wait for any more. */
    method Fetch() returns (job: Option<Job>)
      modifies this
      ensures job == None <==> !terminated && old(tasks) == []
      ensures job == Some(Noop) <==> terminated && old(tasks) == []
      ensures old(tasks) != [] ==> job == Some(Real(old(tasks)[0]))
      ensures tasks == if old(tasks) == [] then [] else old(tasks)[1..]
      ensures terminated == old(terminated)
    {
      if !(terminated || |tasks| != 0) {
        return None;
      }
      var fn := Next();
      job := Some(fn);
    }

    /** The critical section of `terminate`. */
    method Terminate() returns (first: bool)
      modifies this
      ensures first <==> !old(terminated)
      ensures terminated && tasks == old(tasks)
    {
      if terminated {
        return false;
      }
      terminated := true;
      first := true;
    }
  }

  class ThreadPool {
    var stop: bool
    var workers: seq<Worker>

    constructor ()
      ensures !stop && workers == []
    {
      stop, workers := false, [];
    }

    method Add(worker: Worker)
      modifies this
      ensures workers == old(workers) + [worker] && stop == old(stop)
    {
      workers := workers + [worker];
    }

    method MoveTo(i: nat, worker: Worker)
      requires i < |workers|
      modifies this
      ensures workers == old(workers)[i := worker] && stop == old(stop)
    {
      workers := workers[i := worker];
    }

    /** Wakes one sleeping thread, if there is one; which one is not determined. */
    method NotifyOne(woken: Woken)
      requires match woken
               case Nobody => forall i | 0 <= i < |workers| :: workers[i] != Asleep
               case Somebody(i) => i < |workers| && workers[i] == Asleep
      modifies this
      ensures workers == match woken case Nobody => old(workers) case Somebody(i) => old(workers)[i := AtFetch]
      ensures stop == old(stop)
    {
      if woken.Somebody? {
        MoveTo(woken.worker, AtFetch);
      }
    }

    method NotifyAll()
      modifies this
      ensures workers == WakeAll(old(workers)) && stop == old(stop)
    {
      for i := 0 to |workers|
        invariant |workers| == |old(workers)| && stop == old(stop)
        invariant forall k | 0 <= k < |workers| ::
                    workers[k] == if k < i && old(workers)[k] == Asleep then AtFetch else old(workers)[k]
      {
        if workers[i] == Asleep {
          workers := workers[i := AtFetch];
        }
      }
    }
  }

  class ThreadPoolExecutor {
    const tasks: TaskQueue
    const pool: ThreadPool
    const maxWorkers: nat
    var init: bool
    var stop: bool
    var submitters: seq<Submitter>
    var phase: Phase
    var next: nat
    ghost var pushed: seq<nat>
    ghost var popped: seq<nat>
    ghost var finished: seq<nat>
    ghost var noops: seq<nat>
    ghost var mark: nat
    ghost var quiet: bool

    /** The state of the protocol. */
    ghost function View(): State
      reads this, tasks, pool
    {
      State(tasks.tasks, stop, tasks.terminated, pool.stop, pool.workers, submitters, phase,
            pushed, popped, finished, noops, next, mark, quiet)
    }

    constructor (maxWorkers: nat, clients: nat, autoStart: bool)
      ensures this.maxWorkers == maxWorkers && init == autoStart
      ensures View() == Started(if autoStart then maxWorkers else 0, clients)
      ensures fresh(tasks) && fresh(pool)
    {
      this.maxWorkers := maxWorkers;
      tasks := new TaskQueue();
      pool := new ThreadPool();
      init, stop, phase, next := false, false, NotStopped, 0;
      submitters := seq(clients, _ => Idle);
      pushed, popped, finished, noops, mark, quiet := [], [], [], [], 0, false;
      new;
      assert seq(0, _ => AtStop) == [] && seq(0, _ => 0) == [];
      if autoStart {
        Start();
      }
    }

    /** `init`: the workers are started once, however often it is called. */
    method Start()
      modifies this`init, this`noops, pool
      ensures init && (old(init) ==> View() == old(View()) && unchanged(pool))
      ensures !old(init) && old(pool.workers) == [] && old(noops) == [] ==>
                View() == old(View()).(workers := seq(maxWorkers, _ => AtStop), noops := seq(maxWorkers, _ => 0))
    {
      if init {
        return;
      }
      init := true;
      for i := 0 to maxWorkers
        invariant init && pool.stop == old(pool.stop)
        invariant old(pool.workers) == [] && old(noops) == [] ==>
                    pool.workers == seq(i, _ => AtStop) && noops == seq(i, _ => 0)
      {
        pool.Add(AtStop);
        noops := noops + [0];
      }
    }

    // ------------------------------------------------------------------ a submitter

    method Submit(j: nat)
      requires Enabled(View(), Label.Submit(j))
      modifies this
      ensures View() == Apply(old(View()), Label.Submit(j))
    {
      if stop {
        return;
      }
      submitters := submitters[j := Admitted(next)];
      next := next + 1;
    }

    method Push(j: nat)
      requires Enabled(View(), Label.Push(j))
      modifies this, tasks
      ensures View() == Apply(old(View()), Label.Push(j))
    {
      var task := submitters[j].task;
      tasks.Add(task);
      submitters := submitters[j := Pushed];
      pushed := pushed + [task];
    }

    method Notify(j: nat, woken: Woken)
      requires Enabled(View(), Label.Notify(j, woken))
      modifies this, pool
      ensures View() == Apply(old(View()), Label.Notify(j, woken))
    {
      submitters := submitters[j := Idle];
      pool.NotifyOne(woken);
    }

    // ------------------------------------------------------------------ a worker

    method ReadStop(i: nat)
      requires Enabled(View(), Label.ReadStop(i))
      modifies pool
      ensures View() == Apply(old(View()), Label.ReadStop(i))
    {
      pool.MoveTo(i, if stop then AtEmpty else AtFetch);
    }

    method ReadEmpty(i: nat)
      requires Enabled(View(), Label.ReadEmpty(i))
      modifies pool
      ensures View() == Apply(old(View()), Label.ReadEmpty(i))
    {
      var empty := tasks.Empty();
      pool.MoveTo(i, if empty then Exited else AtFetch);
    }

    method Fetch(i: nat)
      requires Enabled(View(), Label.Fetch(i))
      modifies this, tasks, pool
      ensures View() == Apply(old(View()), Label.Fetch(i))
    {
      var job := tasks.Fetch();
      if job == None {
        pool.MoveTo(i, Asleep);
        return;
      }
      pool.MoveTo(i, Running(job.value));
      if job.value.Real? {
        popped := popped + [job.value.task];
      } else {
        noops := noops[i := noops[i] + 1];
      }
    }

    method WakeUp(i: nat)
      requires Enabled(View(), Label.WakeUp(i))
      modifies pool
      ensures View() == Apply(old(View()), Label.WakeUp(i))
    {
      pool.MoveTo(i, AtFetch);
    }

    method Finish(i: nat)
      requires Enabled(View(), Label.Finish(i))
      modifies this, pool
      ensures View() == Apply(old(View()), Label.Finish(i))
    {
      var job := pool.workers[i].job;
      pool.MoveTo(i, AtStop);
      if job.Real? {
        finished := finished + [job.task];
      }
    }

    // ------------------------------------------------------------------ the stopper

    method Stop()
      modifies this
      ensures View() == Apply(old(View()), Label.Stop)
    {
      if stop {
        return;
      }
      quiet, mark := NoneAdmitted(View()), |pushed|;
      stop, phase := true, Marked;
    }

    method SetTerminate()
      requires Enabled(View(), Label.SetTerminate)
      modifies this, tasks
      ensures View() == Apply(old(View()), Label.SetTerminate)
    {
      var first := tasks.Terminate();
      phase := if first then Draining else Pooling;
    }

    method LookEmpty()
      requires Enabled(View(), Label.LookEmpty)
      modifies this
      ensures View() == Apply(old(View()), Label.LookEmpty)
    {
      var empty := tasks.Empty();
      phase := if empty then Broadcasting else Poking;
    }

    method Poke(woken: Woken)
      requires Enabled(View(), Label.Poke(woken))
      modifies this, pool
      ensures View() == Apply(old(View()), Label.Poke(woken))
    {
      pool.NotifyOne(woken);
      phase := Draining;
    }

    method Broadcast()
      requires Enabled(View(), Label.Broadcast)
      modifies this, pool
      ensures View() == Apply(old(View()), Label.Broadcast)
    {
      pool.NotifyAll();
      phase := Pooling;
    }

    method EnterPool()
      requires Enabled(View(), Label.EnterPool)
      modifies this, pool
      ensures View() == Apply(old(View()), Label.EnterPool)
    {
      if pool.stop {
        phase := Returned;
        return;
      }
      pool.stop := true;
      phase := Joining(0);
    }

    method Join()
      requires Enabled(View(), Label.Join)
      modifies this
      ensures View() == Apply(old(View()), Label.Join)
    {
      phase := if phase.joined < |pool.workers| then Joining(phase.joined + 1) else Returned;
    }

    // ------------------------------------------------------------------ schedules

    method Step(l: Label)
      requires Enabled(View(), l)
      modifies this, tasks, pool
      ensures View() == Apply(old(View()), l)
    {
      hide Apply;
      match l
      case ReadStop(i) => ReadStop(i);
      case ReadEmpty(i) => ReadEmpty(i);
      case Fetch(i) => Fetch(i);
      case WakeUp(i) => WakeUp(i);
      case Finish(i) => Finish(i);
      case Submit(j) => Submit(j);
      case Push(j) => Push(j);
      case Notify(j, woken) => Notify(j, woken);
      case Stop => Stop();
      case SetTerminate => SetTerminate();
      case LookEmpty => LookEmpty();
      case Poke(woken) => Poke(woken);
      case Broadcast => Broadcast();
      case EnterPool => EnterPool();
      case Join => Join();
    }

    /** Every schedule of the threads takes the objects where the transition system goes. */
    method Run(schedule: seq<Label>)
      requires Path(View(), schedule)
      modifies this, tasks, pool
      ensures View() == After(old(View()), schedule)
    {
      hide Apply, Enabled;
      for i := 0 to |schedule|
        invariant Path(View(), schedule[i..])
        invariant After(View(), schedule[i..]) == After(old(View()), schedule)
      {
        assert schedule[i..][1..] == schedule[i + 1..];
        Step(schedule[i]);
      }
    }
  }
}
