/** What the executor promises over whole runs: no lost wake-up, and a shutdown that drains and ends. */
module ExecutorTheorems {
  import opened ExecutorModel
  import opened ExecutorInvariants

  lemma SizesKept(s: State, l: Label)
    requires Enabled(s, l)
    ensures |Apply(s, l).workers| == |s.workers| && |Apply(s, l).submitters| == |s.submitters|
  {
    match l
    case Broadcast =>
    case _ =>
  }

  lemma {:induction false} SizesAfter(s: State, ls: seq<Label>)
    requires Path(s, ls)
    ensures |After(s, ls).workers| == |s.workers| && |After(s, ls).submitters| == |s.submitters|
    decreases |ls|
  {
    hide Enabled, Apply;
    if ls != [] {
      SizesKept(s, ls[0]);
      SizesAfter(Apply(s, ls[0]), ls[1..]);
    }
  }

  // ------------------------------------------------------------ no lost wake-up

  predicate Awake(s: State, i: nat) {
    i < |s.workers| && s.workers[i] != Asleep && s.workers[i] != Exited
  }

  /** A step of a worker that does not sleep, of a notification to come, or of the call that stops. */
  predicate Proceeds(l: Label) {
    l.ReadStop? || l.ReadEmpty? || l.Fetch? || l.Finish? || l.Notify? || l.SetTerminate?
  }

  /** The next step of a worker that is awake. */
  function NextStep(s: State, i: nat): (l: Label)
    requires Awake(s, i) && |s.noops| == |s.workers|
    ensures Enabled(s, l) && Proceeds(l) && WorkerLabel(l)
  {
    match s.workers[i]
    case AtStop => ReadStop(i)
    case AtEmpty => ReadEmpty(i)
    case AtFetch => Fetch(i)
    case Running(_) => Finish(i)
  }

  /** A way in which a notification can go. */
  lemma SomeWoken(s: State) returns (woken: Woken)
    ensures Wakes(s, woken)
    ensures woken == Nobody ==> forall i | 0 <= i < |s.workers| :: s.workers[i] != Asleep
  {
    if i: nat :| i < |s.workers| && s.workers[i] == Asleep {
      woken := Somebody(i);
    } else {
      woken := Nobody;
    }
  }

  /** If tasks are queued and termination is not announced, somebody is on the way to them:
      a worker that is awake, a notification, or the call that has set `stop_`. */
  lemma NoLostWakeUp(workers: nat, submitters: nat, ls: seq<Label>)
    requires workers >= 1 && Path(Started(workers, submitters), ls)
    ensures var s := After(Started(workers, submitters), ls);
            s.queue != [] && !s.terminate ==>
              || (exists i :: 0 <= i < |s.workers| && Awake(s, i))
              || (exists j :: 0 <= j < |s.submitters| && s.submitters[j] == Pushed)
              || s.phase == Marked
  {
    AlwaysInv(workers, submitters, ls);
    SizesAfter(Started(workers, submitters), ls);
    var s := After(Started(workers, submitters), ls);
    if s.queue != [] && !s.terminate && s.phase != Marked {
      AwakeOrPending(s);
    }
  }

  lemma AwakeOrPending(s: State)
    requires Inv(s) && |s.workers| >= 1 && s.queue != [] && !s.stop
    ensures (exists i :: 0 <= i < |s.workers| && Awake(s, i)) || (exists j :: 0 <= j < |s.submitters| && s.submitters[j] == Pushed)
  {
    hide Fifo, Fresh, Ran, Joined, Quiet, NoNoopYet;
    assert WorkerMayBe(s, s.workers[0]);
    if s.workers[0] == Asleep {
      if Sum(s.workers, READY) > 0 {
        var i := SumSome(s.workers, READY);
        assert Awake(s, i);
      } else {
        var j := PendingSome(s.submitters);
        assert s.submitters[j] == Pushed;
      }
    } else {
      assert Awake(s, 0);
    }
  }

  /** So no run with queued tasks is stuck. */
  lemma NeverStuckBeforeTermination(workers: nat, submitters: nat, ls: seq<Label>)
    requires workers >= 1 && Path(Started(workers, submitters), ls)
    ensures var s := After(Started(workers, submitters), ls);
            s.queue != [] && !s.terminate ==> exists l :: Proceeds(l) && Enabled(s, l)
  {
    NoLostWakeUp(workers, submitters, ls);
    AlwaysInv(workers, submitters, ls);
    var s := After(Started(workers, submitters), ls);
    if s.queue != [] && !s.terminate {
      if i :| 0 <= i < |s.workers| && Awake(s, i) {
        var l := NextStep(s, i);
        assert Proceeds(l) && Enabled(s, l);
      } else if j :| 0 <= j < |s.submitters| && s.submitters[j] == Pushed {
        var woken := SomeWoken(s);
        assert Proceeds(Notify(j, woken)) && Enabled(s, Notify(j, woken));
      } else {
        assert Proceeds(SetTerminate) && Enabled(s, SetTerminate);
      }
    }
  }

  // ---------------------------------------------------------- every task once, in order

  lemma {:induction false} OnceInMultiset(ts: seq<nat>, t: nat)
    requires NoTaskTwice(ts)
    ensures multiset(ts)[t] == if t in ts then 1 else 0
    decreases |ts|
  {
    if ts != [] {
      var n := |ts| - 1;
      assert ts == ts[..n] + [ts[n]];
      OnceInMultiset(ts[..n], t);
      assert multiset(ts) == multiset(ts[..n]) + multiset{ts[n]};
      if t == ts[n] {
        assert forall i | 0 <= i < n :: ts[i] != ts[n];
      }
    }
  }

  /** In every run tasks are fetched in the order of their pushes, and each is run at most once:
      a task is in the hands of one worker or finished, but never both and never twice. */
  lemma InOrderAndOnce(workers: nat, submitters: nat, ls: seq<Label>, t: nat)
    requires Path(Started(workers, submitters), ls)
    ensures var s := After(Started(workers, submitters), ls);
            && s.pushed == s.popped + s.queue
            && multiset(s.finished)[t] + InHand(s.workers)[t] == (if t in s.popped then 1 else 0)
  {
    AlwaysInv(workers, submitters, ls);
    var s := After(Started(workers, submitters), ls);
    PoppedOnce(s, t);
  }

  lemma PoppedOnce(s: State, t: nat)
    requires Inv(s)
    ensures multiset(s.finished)[t] + InHand(s.workers)[t] == (if t in s.popped then 1 else 0)
  {
    hide Flags, NoNeedlessSleep, Exits, Joined, Quiet, NoNoopYet, InHand;
    assert forall i | 0 <= i < |s.popped| :: s.pushed[i] == s.popped[i];
    OnceInMultiset(s.popped, t);
    assert (multiset(s.finished) + InHand(s.workers))[t] == multiset(s.popped)[t];
  }

  // ---------------------------------------------------------------- the shutdown

  /** When the call of `stop` that set `stop_` returns, all workers are gone, nothing is being run,
      and every task that was pushed before `stop_` was set has been run to completion exactly once. */
  lemma ShutdownDrains(workers: nat, submitters: nat, ls: seq<Label>)
    requires Path(Started(workers, submitters), ls)
    requires After(Started(workers, submitters), ls).phase == Returned && workers >= 1
    ensures var s := After(Started(workers, submitters), ls);
            && (forall i | 0 <= i < |s.workers| :: s.workers[i] == Exited)
            && s.mark <= |s.pushed|
            && (forall k | 0 <= k < s.mark :: multiset(s.finished)[s.pushed[k]] == 1)
            && multiset(s.finished) == multiset(s.popped)
  {
    AlwaysInv(workers, submitters, ls);
    SizesAfter(Started(workers, submitters), ls);
    var s := After(Started(workers, submitters), ls);
    InHandNone(s.workers);
    forall k | 0 <= k < s.mark
      ensures multiset(s.finished)[s.pushed[k]] == 1
    {
      DrainedOnce(s, k);
    }
  }

  lemma DrainedOnce(s: State, k: nat)
    requires Inv(s) && s.phase == Returned && |s.workers| >= 1 && k < s.mark
    ensures multiset(s.finished)[s.pushed[k]] == 1
  {
    hide Fresh, Ran, NoNeedlessSleep, Quiet, NoNoopYet, InHand;
    InHandNone(s.workers);
    assert WorkerMayBe(s, s.workers[0]);
    assert s.pushed[k] == s.popped[k];
    PoppedOnce(s, s.pushed[k]);
  }

  // --------------------------------------------------------- the measure of a shutdown

  /** Termination is announced. */
  predicate Closing(s: State) {
    s.stop && s.terminate && |s.noops| == |s.workers|
  }

  /** Termination is announced and nobody is about to push; notifications may still be pending. */
  predicate Calm(s: State) {
    Closing(s) && NoneAdmitted(s)
  }

  predicate WorkerLabel(l: Label) {
    l.ReadStop? || l.ReadEmpty? || l.Fetch? || l.WakeUp? || l.Finish?
  }

  /** How far a worker is from its end, with tasks in the queue. */
  function BusyRank(w: Worker): nat {
    match w
    case Running(_) => 4
    case AtStop => 3
    case AtEmpty => 2
    case Asleep => 2
    case AtFetch => 1
    case Exited => 0
  }

  /** The same with an empty queue. */
  function LastRank(w: Worker): nat {
    match w
    case Asleep => 6
    case AtFetch => 5
    case Running(_) => 4
    case AtStop => 3
    case AtEmpty => 2
    case Exited => 0
  }

  const BUSY: Worker -> nat := w => BusyRank(w)
  const LAST: Worker -> nat := w => LastRank(w)

  function Ranks(s: State): nat {
    if s.queue == [] then Sum(s.workers, LAST) else Sum(s.workers, BUSY)
  }

  function Measure(s: State): nat {
    |s.queue| * (6 * |s.workers| + 1) + Ranks(s)
  }

  lemma {:induction false} SumBound(ws: seq<Worker>)
    ensures Sum(ws, LAST) <= 6 * |ws| && Sum(ws, BUSY) <= 6 * |ws|
    decreases |ws|
  {
    if ws != [] {
      SumBound(ws[1..]);
    }
  }

  lemma {:induction false} SumWakeAll(ws: seq<Worker>)
    ensures Sum(WakeAll(ws), LAST) <= Sum(ws, LAST) && Sum(WakeAll(ws), BUSY) <= Sum(ws, BUSY)
    decreases |ws|
  {
    if ws != [] {
      assert WakeAll(ws)[1..] == WakeAll(ws[1..]);
      SumWakeAll(ws[1..]);
    }
  }

  lemma ClosingKept(s: State, l: Label)
    requires Closing(s) && Enabled(s, l)
    ensures Closing(Apply(s, l))
  {
  }

  lemma CalmKept(s: State, l: Label)
    requires Calm(s) && Enabled(s, l)
    ensures Calm(Apply(s, l))
  {
  }

  /** A worker that moves without fetching a task comes nearer to its end. */
  lemma MoveFalls(s: State, i: nat, w: Worker)
    requires i < |s.workers|
    requires if s.queue == [] then LastRank(w) < LastRank(s.workers[i]) else BusyRank(w) < BusyRank(s.workers[i])
    ensures Ranks(Moved(s, i, w)) < Ranks(s)
  {
    SumUpdate(s.workers, i, w, LAST);
    SumUpdate(s.workers, i, w, BUSY);
  }

  lemma FetchFalls(s: State, i: nat)
    requires At(s, i, AtFetch) && |s.noops| == |s.workers| && s.terminate
    ensures Measure(Fetched(s, i)) < Measure(s)
  {
    hide Ranks, Sum;
    var t := Fetched(s, i);
    if s.queue == [] {
      MoveFalls(s, i, Running(Noop));
      assert Ranks(t) == Ranks(Moved(s, i, Running(Noop))) by { SameRanks(t, Moved(s, i, Running(Noop))); }
    } else {
      FetchedRanks(s, i);
      var c := 6 * |s.workers| + 1;
      assert |t.queue| * c + c == |s.queue| * c;
    }
  }

  lemma SameRanks(s: State, t: State)
    requires s.workers == t.workers && s.queue == t.queue
    ensures Ranks(s) == Ranks(t)
  {
  }

  lemma FetchedRanks(s: State, i: nat)
    requires At(s, i, AtFetch) && s.queue != [] && |s.noops| == |s.workers|
    ensures Ranks(Fetched(s, i)) <= Ranks(s) + 6 * |s.workers|
    ensures Ranks(Fetched(s, i)) < 6 * |s.workers| + 1
  {
    SumBound(Fetched(s, i).workers);
  }

  /** Every step of a worker makes the measure smaller. */
  lemma WorkerStepFalls(s: State, l: Label)
    requires Closing(s) && Enabled(s, l) && WorkerLabel(l)
    ensures Measure(Apply(s, l)) < Measure(s)
  {
    hide Ranks;
    match l
    case Fetch(i) => FetchFalls(s, i);
    case ReadStop(i) => MoveFalls(s, i, AtEmpty);
    case ReadEmpty(i) => MoveFalls(s, i, if s.queue == [] then Exited else AtFetch);
    case WakeUp(i) => MoveFalls(s, i, AtFetch);
    case Finish(i) =>
      MoveFalls(s, i, AtStop);
      SameRanks(Apply(s, l), Moved(s, i, AtStop));
  }

  lemma WakeNoRise(s: State, woken: Woken)
    requires Wakes(s, woken)
    ensures Measure(Wake(s, woken)) <= Measure(s)
    ensures woken.Somebody? ==> Measure(Wake(s, woken)) < Measure(s)
  {
    hide Ranks;
    if woken.Somebody? {
      MoveFalls(s, woken.worker, AtFetch);
    }
  }

  /** No other step makes it larger. */
  lemma NoStepRises(s: State, l: Label)
    requires Calm(s) && Enabled(s, l)
    ensures Measure(Apply(s, l)) <= Measure(s)
  {
    hide Measure;
    RisesByPush(s, l);
  }

  lemma RisesByPush(s: State, l: Label)
    requires Closing(s) && Enabled(s, l) && !l.Push?
    ensures Measure(Apply(s, l)) <= Measure(s)
  {
    hide Ranks;
    if WorkerLabel(l) {
      WorkerStepFalls(s, l);
    } else if l.Poke? || l.Notify? {
      WakeNoRise(s, l.woken);
      SameRanks(Apply(s, l), Wake(s, l.woken));
    } else if l.Broadcast? {
      BroadcastNoRise(s);
    } else {
      SameRanks(Apply(s, l), s);
    }
  }

  lemma BroadcastNoRise(s: State)
    requires s.phase == Broadcasting
    ensures Measure(Apply(s, Broadcast)) <= Measure(s)
  {
    SumWakeAll(s.workers);
  }

  function WorkerSteps(ls: seq<Label>): nat {
    if ls == [] then 0 else (if WorkerLabel(ls[0]) then 1 else 0) + WorkerSteps(ls[1..])
  }

  /** Once termination is announced and nobody is about to push, the workers take a bounded number of steps,
      whatever the schedule. */
  lemma {:induction false} WorkerStepsBounded(s: State, ls: seq<Label>)
    requires Calm(s) && Path(s, ls)
    ensures WorkerSteps(ls) + Measure(After(s, ls)) <= Measure(s)
    decreases |ls|
  {
    hide Calm, Enabled, Apply, Measure, WorkerLabel;
    if ls != [] {
      CalmKept(s, ls[0]);
      NoStepRises(s, ls[0]);
      if WorkerLabel(ls[0]) {
        CalmFlags(s);
        WorkerStepFalls(s, ls[0]);
      }
      WorkerStepsBounded(Apply(s, ls[0]), ls[1..]);
    }
  }

  lemma CalmStep(s: State, l: Label)
    requires Calm(s) && Enabled(s, l)
    ensures |Apply(s, l).workers| == |s.workers|
    ensures s.queue == [] ==> Apply(s, l).queue == []
    ensures forall i | 0 <= i < |s.workers| :: Apply(s, l).workers[i] == Asleep ==> s.workers[i] == Asleep
  {
  }

  /** From then on no worker falls asleep, and a queue that is empty stays empty. */
  lemma {:induction false} DrainedForGood(s: State, ls: seq<Label>)
    requires Calm(s) && Path(s, ls)
    ensures var t := After(s, ls);
            && |t.workers| == |s.workers|
            && (s.queue == [] ==> t.queue == [])
            && forall i | 0 <= i < |s.workers| :: t.workers[i] == Asleep ==> s.workers[i] == Asleep
    decreases |ls|
  {
    hide Calm, Enabled, Apply;
    if ls != [] {
      CalmKept(s, ls[0]);
      CalmStep(s, ls[0]);
      DrainedForGood(Apply(s, ls[0]), ls[1..]);
    }
  }

  // ------------------------------------------------------ when the shutdown ends

  /** The stopping call waits for the queue to drain, but there is no worker left to drain it. */
  predicate Stuck(s: State) {
    && (s.phase == Draining || s.phase == Poking)
    && s.queue != []
    && forall i | 0 <= i < |s.workers| :: s.workers[i] == Exited
  }

  ghost predicate CanReturn(s: State) {
    exists ls :: Path(s, ls) && After(s, ls).phase == Returned
  }

  lemma StuckKept(s: State, l: Label)
    requires s.stop && s.terminate && Stuck(s) && Enabled(s, l)
    ensures var t := Apply(s, l); t.stop && t.terminate && Stuck(t)
  {
  }

  lemma {:induction false} StuckForever(s: State, ls: seq<Label>)
    requires s.stop && s.terminate && Stuck(s) && Path(s, ls)
    ensures Stuck(After(s, ls))
    decreases |ls|
  {
    hide Stuck, Enabled, Apply;
    if ls != [] {
      StuckKept(s, ls[0]);
      StuckForever(Apply(s, ls[0]), ls[1..]);
    }
  }

  /** How far the stopping call is from its return. */
  function Stage(s: State): nat
    requires s.phase.Joining? ==> s.phase.joined <= |s.workers|
  {
    match s.phase
    case Returned => 0
    case Joining(k) => 1 + |s.workers| - k
    case Pooling => |s.workers| + 2
    case Broadcasting => |s.workers| + 3
    case Draining => |s.workers| + 4
    case _ => |s.workers| + 5
  }

  /** The shutdown is under way and not stuck. */
  ghost predicate Open(s: State) {
    Inv(s) && Closing(s) && !Stuck(s)
  }

  ghost predicate Ending(s: State) {
    Open(s) && NoneAdmitted(s)
  }

  /** The stopping call is done with the queue. */
  predicate PastQueue(s: State) {
    s.phase == Broadcasting || s.phase == Pooling || s.phase.Joining? || s.phase == Returned
  }

  /** Nothing can make the shutdown get stuck any more. */
  ghost predicate Settled(s: State) {
    Open(s) && (NoneAdmitted(s) || PastQueue(s))
  }

  lemma ReturnAfter(s: State, l: Label)
    requires Enabled(s, l) && CanReturn(Apply(s, l))
    ensures CanReturn(s)
  {
    var ls :| Path(Apply(s, l), ls) && After(Apply(s, l), ls).phase == Returned;
    var ms := [l] + ls;
    assert ms[0] == l && ms[1..] == ls;
    assert Path(s, ms) && After(s, ms).phase == Returned;
  }

  /** A worker that is awake does not leave the shutdown stuck. */
  lemma WorkerStepUnstuck(s: State, i: nat)
    requires Open(s) && Awake(s, i)
    ensures Enabled(s, NextStep(s, i)) && Open(Apply(s, NextStep(s, i)))
    ensures Measure(Apply(s, NextStep(s, i))) < Measure(s)
  {
    hide Inv, Measure;
    assert |s.noops| == |s.workers|;
    var l := NextStep(s, i);
    InvKept(s, l);
    ClosingKept(s, l);
    WorkerStepFalls(s, l);
    NotStuckAfter(s, i);
  }

  lemma NotStuckAfter(s: State, i: nat)
    requires Awake(s, i) && |s.noops| == |s.workers|
    ensures !Stuck(Apply(s, NextStep(s, i)))
  {
    var l := NextStep(s, i);
    var t := Apply(s, l);
    assert t.workers[i] == Exited ==> t.queue == [];
  }

  lemma SomeoneSleeps(s: State) returns (i: nat)
    requires !Stuck(s) && (s.phase == Draining || s.phase == Poking) && s.queue != []
    requires forall i | 0 <= i < |s.workers| :: !Awake(s, i)
    ensures i < |s.workers| && s.workers[i] == Asleep
  {
    i :| 0 <= i < |s.workers| && s.workers[i] != Exited;
    assert !Awake(s, i);
  }

  /** Whatever is done next, the shutdown does not get stuck any more. */
  lemma SettledKept(s: State, l: Label)
    requires Settled(s) && Enabled(s, l)
    ensures Settled(Apply(s, l))
  {
    hide Inv, Stuck;
    InvKept(s, l);
    ClosingKept(s, l);
    UnstuckKept(s, l);
  }

  lemma EndingKept(s: State, l: Label)
    requires Ending(s) && Enabled(s, l)
    ensures Ending(Apply(s, l))
  {
    hide Inv, Stuck;
    SettledKept(s, l);
    CalmKept(s, l);
  }

  lemma UnstuckKept(s: State, l: Label)
    requires Settled(s) && Enabled(s, l)
    ensures !Stuck(Apply(s, l))
  {
    hide Fifo, Fresh, Ran, NoNeedlessSleep, Exits, Quiet, NoNoopYet, Joined;
    var t := Apply(s, l);
    if WorkerLabel(l) {
      assert t.workers[l.i] == Exited ==> t.queue == [];
    } else if l.Poke? || l.Notify? {
      assert l.woken.Somebody? ==> t.workers[l.woken.worker] == AtFetch;
    }
  }

  lemma {:induction false} SettledAlways(s: State, ls: seq<Label>)
    requires Settled(s) && Path(s, ls)
    ensures Settled(After(s, ls))
    decreases |ls|
  {
    hide Settled, Enabled, Apply;
    if ls != [] {
      SettledKept(s, ls[0]);
      SettledAlways(Apply(s, ls[0]), ls[1..]);
    }
  }

  lemma {:induction false} EndingAlways(s: State, ls: seq<Label>)
    requires Ending(s) && Path(s, ls)
    ensures Ending(After(s, ls))
    decreases |ls|
  {
    hide Ending, Enabled, Apply;
    if ls != [] {
      EndingKept(s, ls[0]);
      EndingAlways(Apply(s, ls[0]), ls[1..]);
    }
  }

  /** The next step of the stopping call when no worker is awake. */
  lemma StopperStep(s: State) returns (l: Label)
    requires Open(s) && s.phase != Returned
    requires forall i | 0 <= i < |s.workers| :: !Awake(s, i)
    requires s.phase == Draining ==> s.queue == []
    ensures Enabled(s, l) && Open(Apply(s, l))
    ensures Measure(Apply(s, l)) <= Measure(s)
    ensures s.phase == Poking && s.queue != [] ==> Measure(Apply(s, l)) < Measure(s)
    ensures s.phase.Joining? ==> s.phase.joined <= |s.workers|
    ensures Apply(s, l).phase.Joining? ==> Apply(s, l).phase.joined <= |s.workers|
    ensures !(s.phase == Poking && s.queue != []) ==> Stage(Apply(s, l)) < Stage(s)
  {
    hide Fifo, Fresh, Ran, NoNeedlessSleep, Exits, Quiet, NoNoopYet, Measure;
    match s.phase {
      case Draining => l := LookEmpty;
      case Poking =>
        var woken := SomeWoken(s);
        l := Poke(woken);
        WakeNoRise(s, woken);
        if s.queue != [] {
          var i := SomeoneSleeps(s);
          assert Apply(s, l).workers[woken.worker] == AtFetch;
        }
        MeasureSame(Apply(s, l), Wake(s, woken));
      case Broadcasting => l := Broadcast;
      case Pooling => l := EnterPool;
      case Joining(k) =>
        l := Join;
        assert k < |s.workers| ==> !Awake(s, k);
    }
    InvKept(s, l);
    ClosingKept(s, l);
    RisesByPush(s, l);
  }

  lemma MeasureSame(s: State, t: State)
    requires s.workers == t.workers && s.queue == t.queue
    ensures Measure(s) == Measure(t)
  {
  }

  lemma {:induction false} EndingReturns(s: State)
    requires Open(s)
    ensures CanReturn(s)
    decreases Measure(s), if s.phase.Joining? && s.phase.joined > |s.workers| then 0 else Stage(s), 1
  {
    hide Inv, Closing, Measure, Apply, Path, After, Stuck;
    if s.phase == Returned {
      ReturnedReturns(s);
    } else if i: nat :| i < |s.workers| && Awake(s, i) {
      hide CanReturn;
      WorkerStepUnstuck(s, i);
      assert |s.noops| == |s.workers| by { ClosingSizes(s); }
      EndingReturns(Apply(s, NextStep(s, i)));
      ReturnAfter(s, NextStep(s, i));
    } else if s.phase == Draining && s.queue != [] {
      hide CanReturn;
      var t := DrainOne(s);
      EndingReturns(t);
    } else {
      hide CanReturn;
      var l := StopperStep(s);
      EndingReturns(Apply(s, l));
      ReturnAfter(s, l);
    }
  }

  lemma ClosingSizes(s: State)
    requires Closing(s)
    ensures |s.noops| == |s.workers|
  {
  }

  lemma CalmFlags(s: State)
    requires Calm(s)
    ensures s.stop && s.terminate && Closing(s)
  {
  }

  lemma ReturnedReturns(s: State)
    requires s.phase == Returned
    ensures CanReturn(s)
  {
    assert Path(s, []) && After(s, []).phase == Returned;
  }

  /** The queue is not empty and the remaining workers sleep: one is woken. */
  lemma DrainOne(s: State) returns (t: State)
    requires Open(s) && s.phase == Draining && s.queue != []
    requires forall i | 0 <= i < |s.workers| :: !Awake(s, i)
    ensures Open(t) && Measure(t) < Measure(s)
    ensures CanReturn(t) ==> CanReturn(s)
  {
    hide Inv, Measure, CanReturn;
    var m := Apply(s, LookEmpty);
    InvKept(s, LookEmpty);
    ClosingKept(s, LookEmpty);
    MeasureSame(m, s);
    var i := SomeoneSleeps(s);
    var woken := SomeWoken(m);
    assert m.workers[i] == Asleep && woken.Somebody?;
    var l := Poke(woken);
    t := Apply(m, l);
    InvKept(m, l);
    ClosingKept(m, l);
    WakeNoRise(m, woken);
    MeasureSame(t, Wake(m, woken));
    assert t.workers[woken.worker] == AtFetch;
    if CanReturn(t) {
      ReturnAfter(m, l);
      ReturnAfter(s, LookEmpty);
    }
  }

  /** With termination announced, the shutdown can end exactly if it is not stuck;
      and once it is settled it can still end after any further steps. */
  lemma ShutdownEnds(s: State)
    requires Inv(s) && Closing(s)
    ensures CanReturn(s) <==> !Stuck(s)
    ensures Settled(s) ==> forall ls | Path(s, ls) :: CanReturn(After(s, ls))
  {
    hide Inv, Closing, Settled, Path, After, Stuck;
    if !Stuck(s) {
      EndingReturns(s);
    } else {
      StuckCannotReturn(s);
    }
    if Settled(s) {
      forall ls | Path(s, ls)
        ensures CanReturn(After(s, ls))
      {
        SettledAlways(s, ls);
        SettledIsOpen(After(s, ls));
        EndingReturns(After(s, ls));
      }
    }
  }

  lemma SettledIsOpen(s: State)
    requires Settled(s)
    ensures Open(s)
  {
  }

  lemma StuckCannotReturn(s: State)
    requires Closing(s) && Stuck(s)
    ensures !CanReturn(s)
  {
    hide Stuck;
    forall ls | Path(s, ls)
      ensures After(s, ls).phase != Returned
    {
      StuckForever(s, ls);
      StuckPhase(After(s, ls));
    }
  }

  /** If nobody was admitted when `stop_` was set, the call of `stop` can always return,
      the shutdown is never stuck, and each worker fetches at most one no-op. */
  lemma QuietStopEnds(workers: nat, submitters: nat, ls: seq<Label>)
    requires workers >= 1 && Path(Started(workers, submitters), ls)
    requires After(Started(workers, submitters), ls).stop && After(Started(workers, submitters), ls).quiet
    ensures var s := After(Started(workers, submitters), ls);
            && CanReturn(s)
            && (s.terminate ==> Calm(s) && !Stuck(s))
            && (forall i | 0 <= i < |s.noops| :: s.noops[i] <= 1)
  {
    hide CanReturn, Calm, Stuck, Quiet;
    AlwaysInv(workers, submitters, ls);
    SizesAfter(Started(workers, submitters), ls);
    var s := After(Started(workers, submitters), ls);
    QuietNotStuck(s);
    QuietCanReturn(s);
  }

  lemma QuietNotStuck(s: State)
    requires Inv(s) && s.stop && s.quiet && (|s.workers| >= 1 || s.queue == [])
    ensures !Stuck(s) && (s.terminate ==> Calm(s)) && (!s.terminate ==> Enabled(s, SetTerminate))
    ensures forall i | 0 <= i < |s.noops| :: s.noops[i] <= 1
  {
    hide Fifo, Fresh, Ran, NoNeedlessSleep, Exits, Joined, NoNoopYet;
    assert |s.workers| >= 1 && s.workers[0] == Exited ==> s.queue == [];
    assert forall i | 0 <= i < |s.noops| :: OneNoop(s, s.workers[i], s.noops[i]);
  }

  lemma QuietCanReturn(s: State)
    requires Inv(s) && s.stop && s.quiet && (|s.workers| >= 1 || s.queue == [])
    ensures CanReturn(s)
  {
    hide CanReturn, Closing, Stuck, Inv;
    QuietNotStuck(s);
    if s.terminate {
      ShutdownEnds(s);
    } else {
      var t := Apply(s, SetTerminate);
      InvKept(s, SetTerminate);
      QuietNotStuck(t);
      ShutdownEnds(t);
      ReturnAfter(s, SetTerminate);
    }
  }

  /** An illustration, a run with one worker: the submitter has read `stop_` as false, and pushes after the worker has left. */
  const LATE: seq<Label> := [Submit(0), Stop, SetTerminate, ReadStop(0), ReadEmpty(0), Push(0), Notify(0, Nobody)]

  /** That run hangs the call of `stop`. */
  lemma LateSubmissionHangs()
    ensures Path(Started(1, 1), LATE)
    ensures Calm(After(Started(1, 1), LATE)) && Stuck(After(Started(1, 1), LATE)) && !CanReturn(After(Started(1, 1), LATE))
  {
    hide Calm, Stuck, Path, After, Started;
    LateRun();
    var s := After(Started(1, 1), LATE);
    CalmFlags(s);
    StuckCannotReturn(s);
  }

  lemma StuckPhase(s: State)
    requires Stuck(s)
    ensures s.phase != Returned
  {
  }

  lemma LateRun()
    ensures Path(Started(1, 1), LATE)
    ensures Calm(After(Started(1, 1), LATE)) && Stuck(After(Started(1, 1), LATE))
  {
    hide Path, After, Calm, Stuck;
    var s1 := Apply(Started(1, 1), Submit(0));
    var s3 := Apply(Apply(s1, Stop), SetTerminate);
    LateMiddle(s3);
    var ls := [ReadStop(0), ReadEmpty(0), Push(0), Notify(0, Nobody)];
    OneStep(Apply(s1, Stop), SetTerminate, ls);
    OneStep(s1, Stop, [SetTerminate] + ls);
    OneStep(Started(1, 1), Submit(0), [Stop] + ([SetTerminate] + ls));
    assert LATE == [Submit(0)] + ([Stop] + ([SetTerminate] + ls));
  }

  lemma LateMiddle(s: State)
    requires s.workers == [AtStop] && s.submitters == [Admitted(0)] && s.phase == Draining && s.stop && s.terminate
    requires s.queue == [] && |s.noops| == 1
    ensures var ls := [ReadStop(0), ReadEmpty(0), Push(0), Notify(0, Nobody)];
            Path(s, ls) && Calm(After(s, ls)) && Stuck(After(s, ls))
  {
    hide Path, After, Calm, Stuck;
    var t := Apply(s, ReadStop(0));
    var u := Apply(t, ReadEmpty(0));
    assert u.workers == [Exited];
    LateEnd(u);
    var ls := [Push(0), Notify(0, Nobody)];
    OneStep(t, ReadEmpty(0), ls);
    OneStep(s, ReadStop(0), [ReadEmpty(0)] + ls);
    assert [ReadStop(0), ReadEmpty(0), Push(0), Notify(0, Nobody)] == [ReadStop(0)] + ([ReadEmpty(0)] + ls);
  }

  lemma LateEnd(s: State)
    requires s.workers == [Exited] && s.submitters == [Admitted(0)] && s.phase == Draining && s.stop && s.terminate && |s.noops| == 1
    ensures var ls := [Push(0), Notify(0, Nobody)]; Path(s, ls) && Calm(After(s, ls)) && Stuck(After(s, ls))
  {
    var t := Apply(s, Push(0));
    var u := Apply(t, Notify(0, Nobody));
    assert Path(u, []) && After(u, []) == u;
    OneStep(t, Notify(0, Nobody), []);
    OneStep(s, Push(0), [Notify(0, Nobody)] + []);
    assert [Push(0), Notify(0, Nobody)] == [Push(0)] + ([Notify(0, Nobody)] + []);
  }

  lemma OneStep(s: State, l: Label, ls: seq<Label>)
    requires Enabled(s, l) && Path(Apply(s, l), ls)
    ensures Path(s, [l] + ls) && After(s, [l] + ls) == After(Apply(s, l), ls)
  {
    assert ([l] + ls)[0] == l && ([l] + ls)[1..] == ls;
  }

  // ------------------------------------------------------ submissions before the start

  predicate SubmitterLabel(l: Label) {
    l.Submit? || l.Push? || l.Notify?
  }

  /** The state with its workers started. */
  function Staffed(s: State, workers: nat): State {
    s.(workers := seq(workers, _ => AtStop), noops := seq(workers, _ => 0))
  }

  lemma StaffedStep(s: State, workers: nat, l: Label)
    requires s.workers == [] && Enabled(s, l) && SubmitterLabel(l)
    ensures Enabled(Staffed(s, workers), l)
    ensures Apply(Staffed(s, workers), l) == Staffed(Apply(s, l), workers) && Apply(s, l).workers == []
  {
  }

  lemma {:induction false} StaffedAfter(s: State, workers: nat, ls: seq<Label>)
    requires s.workers == [] && Path(s, ls) && forall i | 0 <= i < |ls| :: SubmitterLabel(ls[i])
    ensures Path(Staffed(s, workers), ls) && After(Staffed(s, workers), ls) == Staffed(After(s, ls), workers)
    decreases |ls|
  {
    hide Enabled, Apply, SubmitterLabel, Staffed;
    if ls != [] {
      StaffedStep(s, workers, ls[0]);
      StaffedAfter(Apply(s, ls[0]), workers, ls[1..]);
    }
  }

  /** Tasks may be submitted before the workers are started: the state once they are is one that an executor
      started at once reaches by the same steps. */
  lemma StartedLate(workers: nat, submitters: nat, ls: seq<Label>)
    requires Path(Started(0, submitters), ls) && forall i | 0 <= i < |ls| :: SubmitterLabel(ls[i])
    ensures Path(Started(workers, submitters), ls)
    ensures After(Started(workers, submitters), ls) ==
            After(Started(0, submitters), ls).(workers := seq(workers, _ => AtStop), noops := seq(workers, _ => 0))
  {
    hide Path, After, SubmitterLabel;
    StaffedAfter(Started(0, submitters), workers, ls);
    assert Staffed(Started(0, submitters), workers) == Started(workers, submitters);
  }
}
