/** When a call of `stop` is safe, exactly: the condition is on the state in which it sets `stop_`. */
module ExecutorStop {
  import opened ExecutorModel
  import opened ExecutorInvariants
  import opened ExecutorTheorems
  import opened ExecutorFairness

  /** Nobody has read `stop_` as false and has yet to push; and an executor without workers has nothing queued. */
  predicate SafeToStop(s: State) {
    NoneAdmitted(s) && (s.workers == [] ==> s.queue == [])
  }

  // ------------------------------------------------------------ safe: it returns

  lemma StopStep(s: State, l: Label)
    requires s.stop && Enabled(s, l)
    ensures var t := Apply(s, l);
            && t.stop && t.quiet == s.quiet && |t.workers| == |s.workers|
            && (NoneAdmitted(s) ==> NoneAdmitted(t) && (s.queue == [] ==> t.queue == []))
  {
    SizesKept(s, l);
  }

  lemma {:induction false} StopStays(s: State, ls: seq<Label>)
    requires s.stop && Path(s, ls)
    ensures var t := After(s, ls);
            && t.stop && t.quiet == s.quiet && |t.workers| == |s.workers|
            && (NoneAdmitted(s) ==> NoneAdmitted(t) && (s.queue == [] ==> t.queue == []))
    decreases |ls|
  {
    hide Enabled, Apply, NoneAdmitted;
    if ls != [] {
      StopStep(s, ls[0]);
      StopStays(Apply(s, ls[0]), ls[1..]);
    }
  }

  lemma SafeReturns(s: State, ms: seq<Label>)
    requires Inv(s) && !s.stop && SafeToStop(s) && Path(Apply(s, Stop), ms)
    ensures CanReturn(After(Apply(s, Stop), ms))
  {
    hide Inv, Path, After, CanReturn;
    var u := Apply(s, Stop);
    InvKept(s, Stop);
    InvAfter(u, ms);
    StopStays(u, ms);
    assert NoneAdmitted(u);
    QuietCanReturn(After(u, ms));
  }

  // ------------------------------------------------------------ not safe: it can hang

  lemma WorkerStepKeeps(s: State, l: Label)
    requires Closing(s) && Enabled(s, l) && WorkerLabel(l)
    ensures var t := Apply(s, l);
            Closing(t) && t.phase == s.phase && t.submitters == s.submitters && |t.workers| == |s.workers|
  {
  }

  /** The workers leave one after the other while everybody else stands still. */
  lemma {:induction false} AllLeave(s: State) returns (ls: seq<Label>)
    requires Closing(s)
    ensures Path(s, ls)
    ensures var t := After(s, ls);
            && Closing(t) && t.phase == s.phase && t.submitters == s.submitters && |t.workers| == |s.workers|
            && forall i | 0 <= i < |t.workers| :: t.workers[i] == Exited
    ensures (exists i :: 0 <= i < |s.workers| && s.workers[i] != Exited) ==> WorkerSteps(ls) > 0
    decreases Measure(s)
  {
    hide Closing, Enabled, Apply, Measure, Awake;
    if i: nat :| i < |s.workers| && s.workers[i] != Exited {
      var l := LeavingStep(s, i);
      WorkerStepFalls(s, l);
      WorkerStepKeeps(s, l);
      var rest := AllLeave(Apply(s, l));
      ls := [l] + rest;
      OneStep(s, l, rest);
      assert ls[0] == l;
    } else {
      ls := [];
    }
  }

  lemma LeavingStep(s: State, i: nat) returns (l: Label)
    requires Closing(s) && i < |s.workers| && s.workers[i] != Exited
    ensures Enabled(s, l) && WorkerLabel(l)
  {
    l := if s.workers[i] == Asleep then WakeUp(i) else NextStep(s, i);
  }

  /** The workers leave, and then the task is pushed. */
  lemma LatePush(s: State, j: nat) returns (ls: seq<Label>)
    requires Closing(s) && (s.phase == Draining || s.phase == Poking) && j < |s.submitters| && s.submitters[j].Admitted?
    ensures Path(s, ls)
    ensures var t := After(s, ls); Closing(t) && t.phase == s.phase && Stuck(t)
    ensures (exists i :: 0 <= i < |s.workers| && s.workers[i] != Exited) ==> WorkerSteps(ls) > 0
  {
    hide Path, After, Closing, WorkerSteps, Stuck;
    var leave := AllLeave(s);
    var t := After(s, leave);
    var push := [Push(j)];
    StuckByPush(t, j);
    PathAppend(s, leave, push);
    ls := leave + push;
    StepsAppend(leave, push);
  }

  lemma StuckByPush(s: State, j: nat)
    requires Closing(s) && (s.phase == Draining || s.phase == Poking) && j < |s.submitters| && s.submitters[j].Admitted?
    requires forall i | 0 <= i < |s.workers| :: s.workers[i] == Exited
    ensures Path(s, [Push(j)])
    ensures var t := After(s, [Push(j)]); Closing(t) && t.phase == s.phase && Stuck(t)
  {
    var t := Apply(s, Push(j));
    assert Path(t, []) && After(t, []) == t;
    OneStep(s, Push(j), []);
    assert [Push(j)] + [] == [Push(j)];
  }

  lemma {:induction false} StepsAppend(ls: seq<Label>, ms: seq<Label>)
    ensures WorkerSteps(ls + ms) == WorkerSteps(ls) + WorkerSteps(ms)
    ensures StopperSteps(ls + ms) == StopperSteps(ls) + StopperSteps(ms)
    decreases |ls|
  {
    if ls == [] {
      assert ls + ms == ms;
    } else {
      assert (ls + ms)[0] == ls[0] && (ls + ms)[1..] == ls[1..] + ms;
      StepsAppend(ls[1..], ms);
    }
  }

  /** The state in which the call has announced termination. */
  function Announced(s: State): State
    requires !s.stop
  {
    Apply(Apply(s, Stop), SetTerminate)
  }

  lemma AnnouncedIs(s: State)
    requires Inv(s) && !s.stop
    ensures var v := Announced(s);
            && Closing(v) && v.phase == Draining && v.workers == s.workers && v.submitters == s.submitters && v.queue == s.queue
            && (forall i | 0 <= i < |v.workers| :: v.workers[i] != Exited)
  {
    assert forall i | 0 <= i < |s.workers| :: WorkerMayBe(s, s.workers[i]);
  }

  /** A way to a state in which the call is stuck. */
  lemma UnsafeHangs(s: State) returns (ls: seq<Label>)
    requires Inv(s) && !s.stop && !SafeToStop(s)
    ensures Path(Announced(s), ls)
    ensures var t := After(Announced(s), ls); Closing(t) && t.phase == Draining && Stuck(t)
    ensures s.workers != [] ==> WorkerSteps(ls) > 0
  {
    hide Inv, Closing;
    AnnouncedIs(s);
    var v := Announced(s);
    if s.workers == [] && s.queue != [] {
      ls := [];
    } else {
      var j: nat :| j < |s.submitters| && s.submitters[j].Admitted?;
      hide Path, After, Stuck, WorkerSteps;
      ls := LatePush(v, j);
      assert s.workers != [] ==> v.workers[0] != Exited;
    }
  }

  // ------------------------------------------------------------ the theorems

  /** At any point after termination is announced: the call can return whatever happens, if and only if it is not stuck
      and either nobody is about to push or the call is done with the queue. */
  lemma ShutdownSettled(s: State)
    requires Inv(s) && Closing(s)
    ensures (forall ls | Path(s, ls) :: CanReturn(After(s, ls))) <==>
            !Stuck(s) && (NoneAdmitted(s) || PastQueue(s))
  {
    hide Inv, Closing, CanReturn, Path, After, Stuck;
    ShutdownEnds(s);
    if Stuck(s) {
      NoStep(s);
    } else if !NoneAdmitted(s) && !PastQueue(s) {
      var j: nat :| j < |s.submitters| && s.submitters[j].Admitted?;
      ClosingPhase(s);
      var ls := LatePush(s, j);
      StuckCannotReturn(After(s, ls));
    }
  }

  lemma NoStep(s: State)
    ensures Path(s, []) && After(s, []) == s
  {
  }

  lemma ClosingPhase(s: State)
    requires Inv(s) && Closing(s) && !PastQueue(s)
    ensures s.phase == Draining || s.phase == Poking
  {
  }

  /** For any number of workers and submitters and any run before it: the call of `stop` that sets `stop_`
      can still return whatever happens, if and only if it is set when that is safe. */
  lemma StopIsSafe(workers: nat, submitters: nat, ls: seq<Label>)
    requires Path(Started(workers, submitters), ls) && !After(Started(workers, submitters), ls).stop
    ensures var s := After(Started(workers, submitters), ls);
            SafeToStop(s) <==> forall ms | Path(Apply(s, Stop), ms) :: CanReturn(After(Apply(s, Stop), ms))
  {
    hide Path, After, CanReturn, SafeToStop, Inv;
    AlwaysInv(workers, submitters, ls);
    var s := After(Started(workers, submitters), ls);
    if SafeToStop(s) {
      forall ms | Path(Apply(s, Stop), ms)
        ensures CanReturn(After(Apply(s, Stop), ms))
      {
        SafeReturns(s, ms);
      }
    } else {
      var ms := HangFromStop(s);
      assert Path(Apply(s, Stop), ms);
    }
  }

  lemma HangFromStop(s: State) returns (ms: seq<Label>)
    requires Inv(s) && !s.stop && !SafeToStop(s)
    ensures Path(Apply(s, Stop), ms) && !CanReturn(After(Apply(s, Stop), ms))
  {
    hide Path, After, CanReturn, SafeToStop, Inv, Stuck, Closing;
    var hang := UnsafeHangs(s);
    ms := [SetTerminate] + hang;
    OneStep(Apply(s, Stop), SetTerminate, hang);
    StuckCannotReturn(After(Announced(s), hang));
  }

  /** The rounds of a call that looks at the queue and notifies nobody, for ever. */
  const LOOP: seq<Label> := [LookEmpty, Poke(Nobody)]

  lemma LoopStays(s: State)
    requires Closing(s) && s.phase == Draining && Stuck(s)
    ensures Path(s, LOOP) && After(s, LOOP) == s && StopperSteps(LOOP) == 2 && NoneAwake(s)
  {
    var t := Apply(s, LookEmpty);
    assert Path(s, []) && After(s, []) == s;
    OneStep(t, Poke(Nobody), []);
    OneStep(s, LookEmpty, [Poke(Nobody)] + []);
    assert LOOP == [LookEmpty] + ([Poke(Nobody)] + []);
    StepsAppend([LookEmpty], [Poke(Nobody)]);
    assert LOOP == [LookEmpty] + [Poke(Nobody)];
  }

  lemma {:induction false} LoopsStay(s: State, n: nat) returns (rounds: seq<seq<Label>>)
    requires Closing(s) && s.phase == Draining && Stuck(s)
    ensures |rounds| == n && FairRun(s, rounds) && AfterRun(s, rounds) == s
    decreases n
  {
    hide Closing, Stuck, Path, After;
    if n == 0 {
      rounds := [];
    } else {
      LoopStays(s);
      var rest := LoopsStay(s, n - 1);
      rounds := [LOOP] + rest;
      assert rounds[0] == LOOP && rounds[1..] == rest;
    }
  }

  /** A fair run of any length that does not return. */
  lemma UnsafeFairRun(s: State, n: nat) returns (rounds: seq<seq<Label>>)
    requires Inv(s) && !s.stop && !SafeToStop(s)
    ensures |rounds| == n + 1 && FairRun(Announced(s), rounds)
    ensures AfterRun(Announced(s), rounds).phase != Returned
  {
    hide Inv, SafeToStop, Closing, Stuck, Path, After, Announced;
    var v := Announced(s);
    var hang := UnsafeHangs(s);
    var t := After(v, hang);
    LoopStays(t);
    PathAppend(v, hang, LOOP);
    StepsAppend(hang, LOOP);
    if s.workers == [] {
      NobodyToWake(s);
    }
    var rest := LoopsStay(t, n);
    rounds := [hang + LOOP] + rest;
    assert rounds[0] == hang + LOOP && rounds[1..] == rest;
  }

  lemma NobodyToWake(s: State)
    requires Inv(s) && !s.stop && s.workers == []
    ensures NoneAwake(Announced(s))
  {
    hide Inv;
    AnnouncedIs(s);
  }

  /** And under fair schedules it does return, within the number of rounds that the rank says when termination is
      announced, if and only if `stop_` was set when that was safe. */
  lemma StopReturns(workers: nat, submitters: nat, ls: seq<Label>)
    requires Path(Started(workers, submitters), ls) && !After(Started(workers, submitters), ls).stop
    ensures var s := After(Started(workers, submitters), ls);
            SafeToStop(s) <==> forall rounds | FairRun(Announced(s), rounds) && |rounds| > Rank(Announced(s)) ::
                                 AfterRun(Announced(s), rounds).phase == Returned
  {
    hide Path, After, SafeToStop, Inv, Announced, FairRun, AfterRun, Rank;
    AlwaysInv(workers, submitters, ls);
    var s := After(Started(workers, submitters), ls);
    var v := Announced(s);
    if SafeToStop(s) {
      SafeEnds(s);
      forall rounds | FairRun(v, rounds) && |rounds| > Rank(v)
        ensures AfterRun(v, rounds).phase == Returned
      {
        FairRunReturns(v, rounds);
      }
    } else {
      var rounds := UnsafeFairRun(s, Rank(v));
      assert FairRun(v, rounds);
    }
  }

  lemma SafeEnds(s: State)
    requires Inv(s) && !s.stop && SafeToStop(s)
    ensures Ending(Announced(s))
  {
    hide Inv, Stuck, Calm;
    InvKept(s, Stop);
    AnnouncedIs(s);
    InvKept(Apply(s, Stop), SetTerminate);
    QuietNotStuck(Announced(s));
  }
}
