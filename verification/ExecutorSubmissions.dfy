/** What becomes of a submission, and of a worker that is left to itself. */
module ExecutorSubmissions {
  import opened ExecutorModel
  import opened ExecutorInvariants
  import opened ExecutorTheorems
  import opened ExecutorLiveness

  // ---------------------------------------------------------------- accepted or refused

  /** A submitter can always submit when it is idle, and is refused, nothing changing, exactly when `stop_` is set. */
  lemma Refused(s: State, j: nat)
    requires j < |s.submitters| && s.submitters[j] == Idle
    ensures Enabled(s, Submit(j))
    ensures Apply(s, Submit(j)) == s <==> s.stop
  {
    if !s.stop {
      assert Apply(s, Submit(j)).submitters[j] != s.submitters[j];
    }
  }

  /** Submitter `j` does not push in this run. */
  predicate Withheld(ls: seq<Label>, j: nat) {
    forall i | 0 <= i < |ls| :: ls[i] != Push(j)
  }

  lemma AdmittedStep(s: State, l: Label, j: nat)
    requires Enabled(s, l) && l != Push(j) && j < |s.submitters| && s.submitters[j].Admitted?
    ensures j < |Apply(s, l).submitters| && Apply(s, l).submitters[j] == s.submitters[j]
  {
    SizesKept(s, l);
    if !(l.Submit? || l.Push? || l.Notify?) {
      assert Apply(s, l).submitters == s.submitters;
    }
  }

  /** Who has been admitted stays so, with the same task, until it pushes, whatever the others do, `stop` included. */
  lemma {:induction false} AdmittedStays(s: State, ls: seq<Label>, j: nat)
    requires Path(s, ls) && Withheld(ls, j) && j < |s.submitters| && s.submitters[j].Admitted?
    ensures var t := After(s, ls); j < |t.submitters| && t.submitters[j] == s.submitters[j]
    decreases |ls|
  {
    hide Enabled, Apply;
    if ls != [] {
      AdmittedStep(s, ls[0], j);
      assert forall i | 0 <= i < |ls[1..]| :: ls[1..][i] == ls[i + 1];
      AdmittedStays(Apply(s, ls[0]), ls[1..], j);
    }
  }

  /** For every reachable state in which `stop_` is not set, whatever is queued, and for everything that others do before
      the push: the submission pushes one task that was never pushed, behind all that is queued, and nothing else changes
      but the place of the submitter. */
  lemma SubmissionIsAccepted(workers: nat, submitters: nat, ls: seq<Label>, j: nat, ms: seq<Label>) returns (task: nat)
    requires Path(Started(workers, submitters), ls)
    requires var s := After(Started(workers, submitters), ls);
             && !s.stop && j < |s.submitters| && s.submitters[j] == Idle
             && Path(Apply(s, Submit(j)), ms) && Withheld(ms, j)
    ensures var s := After(Started(workers, submitters), ls);
            && Enabled(s, Submit(j))
            && var u := After(Apply(s, Submit(j)), ms);
            && Enabled(u, Push(j))
            && var t := Apply(u, Push(j));
            && task !in u.pushed
            && t == u.(submitters := u.submitters[j := Pushed], queue := u.queue + [task], pushed := u.pushed + [task])
  {
    hide Inv, Path, After;
    AlwaysInv(workers, submitters, ls);
    var s := After(Started(workers, submitters), ls);
    var a := Apply(s, Submit(j));
    InvKept(s, Submit(j));
    InvAfter(a, ms);
    AdmittedStays(a, ms, j);
    task := a.submitters[j].task;
    AdmittedIsNew(After(a, ms), j);
  }

  lemma AdmittedIsNew(s: State, j: nat)
    requires Inv(s) && j < |s.submitters| && s.submitters[j].Admitted?
    ensures s.submitters[j].task !in s.pushed
  {
  }

  /** The two steps one after the other. */
  lemma SubmitThenPush(workers: nat, submitters: nat, ls: seq<Label>, j: nat) returns (task: nat)
    requires Path(Started(workers, submitters), ls)
    requires var s := After(Started(workers, submitters), ls); !s.stop && j < |s.submitters| && s.submitters[j] == Idle
    ensures var s := After(Started(workers, submitters), ls);
            && Path(s, [Submit(j), Push(j)])
            && var t := After(s, [Submit(j), Push(j)]);
            && task !in s.pushed && t.queue == s.queue + [task] && t.pushed == s.pushed + [task]
            && t.submitters == s.submitters[j := Pushed] && t.workers == s.workers && t.popped == s.popped && !t.stop
  {
    hide Inv;
    var s := After(Started(workers, submitters), ls);
    var a := Apply(s, Submit(j));
    NoSteps(a);
    task := SubmissionIsAccepted(workers, submitters, ls, j, []);
    TwoSteps(s, Submit(j), Push(j));
  }

  lemma NoSteps(s: State)
    ensures Path(s, []) && After(s, []) == s
  {
  }

  lemma TwoSteps(s: State, l: Label, m: Label)
    requires Enabled(s, l) && Enabled(Apply(s, l), m)
    ensures Path(s, [l, m]) && After(s, [l, m]) == Apply(Apply(s, l), m)
  {
    hide Enabled, Apply;
    OneMove(Apply(s, l), m);
    OneStep(s, l, [m]);
    assert [l] + [m] == [l, m];
  }

  /** What is submitted is fetched: from the push on, while `stop_` is not set, within five serving rounds for the task
      and each one that is queued before it. */
  lemma SubmissionIsFetched(workers: nat, submitters: nat, ls: seq<Label>, j: nat, rounds: seq<seq<Label>>)
    returns (task: nat)
    requires workers >= 1 && Path(Started(workers, submitters), ls)
    requires var s := After(Started(workers, submitters), ls); !s.stop && j < |s.submitters| && s.submitters[j] == Idle
    requires var s := After(Started(workers, submitters), ls);
             var t := Apply(Apply(s, Submit(j)), Push(j));
             ServingRun(t, rounds) && |rounds| >= 5 * (|s.queue| + 1) && !Served(t, rounds).stop
    ensures var s := After(Started(workers, submitters), ls);
            var t := Apply(Apply(s, Submit(j)), Push(j));
            && task !in s.pushed && t.pushed == s.pushed + [task]
            && |Served(t, rounds).popped| > |s.pushed| && Served(t, rounds).popped[|s.pushed|] == task
  {
    hide Inv, Path, After, ServingRun, Served;
    var s := After(Started(workers, submitters), ls);
    TwoSteps(s, Submit(j), Push(j));
    task := SubmitThenPush(workers, submitters, ls, j);
    var both := [Submit(j), Push(j)];
    PathAppend(Started(workers, submitters), ls, both);
    AlwaysInv(workers, submitters, ls);
    QueueLength(s);
    EveryTaskIsFetched(workers, submitters, ls + both, rounds, |s.pushed|);
  }

  lemma QueueLength(s: State)
    requires Inv(s)
    ensures |s.pushed| == |s.popped| + |s.queue|
  {
  }

  // ------------------------------------------------------------------- a drained stop

  /** Whatever had been pushed when the first call of `stop` set `stop_` has been run exactly once when it returns. */
  lemma StopDrains(workers: nat, submitters: nat, ls: seq<Label>, ms: seq<Label>)
    requires workers >= 1 && Path(Started(workers, submitters), ls) && !After(Started(workers, submitters), ls).stop
    requires var s := After(Started(workers, submitters), ls);
             Path(Apply(s, Stop), ms) && After(Apply(s, Stop), ms).phase == Returned
    ensures var s := After(Started(workers, submitters), ls);
            var t := After(Apply(s, Stop), ms);
            && s.pushed <= t.pushed
            && forall k | 0 <= k < |s.pushed| :: multiset(t.finished)[s.pushed[k]] == 1
  {
    hide Inv, Path, After;
    var s := After(Started(workers, submitters), ls);
    var u := Apply(s, Stop);
    OneStep(s, Stop, ms);
    PathAppend(Started(workers, submitters), ls, [Stop] + ms);
    MarkStays(u, ms);
    LaterAfter(u, ms);
    ShutdownDrains(workers, submitters, ls + ([Stop] + ms));
    var t := After(u, ms);
    assert forall k | 0 <= k < |s.pushed| :: t.pushed[k] == s.pushed[k];
  }

  lemma MarkStep(s: State, l: Label)
    requires s.stop && Enabled(s, l)
    ensures Apply(s, l).stop && Apply(s, l).mark == s.mark
  {
  }

  lemma {:induction false} MarkStays(s: State, ls: seq<Label>)
    requires s.stop && Path(s, ls)
    ensures After(s, ls).mark == s.mark
    decreases |ls|
  {
    hide Enabled, Apply;
    if ls != [] {
      MarkStep(s, ls[0]);
      MarkStays(Apply(s, ls[0]), ls[1..]);
    }
  }

  // ------------------------------------------------------------ a worker left to itself

  /** A worker at the head of its loop, nobody else moving: it leaves, in two steps, exactly when `stop_` is set and
      nothing is queued, whether or not termination is announced; otherwise it comes to fetch. */
  lemma LoopHead(s: State, i: nat)
    requires i < |s.workers| && s.workers[i] == AtStop
    ensures s.stop ==>
              && Path(s, [ReadStop(i), ReadEmpty(i)])
              && After(s, [ReadStop(i), ReadEmpty(i)]) == s.(workers := s.workers[i := if s.queue == [] then Exited else AtFetch])
    ensures !s.stop ==> Path(s, [ReadStop(i)]) && After(s, [ReadStop(i)]) == s.(workers := s.workers[i := AtFetch])
  {
    if s.stop {
      TwoSteps(s, ReadStop(i), ReadEmpty(i));
      assert s.workers[i := AtEmpty][i := Exited] == s.workers[i := Exited];
      assert s.workers[i := AtEmpty][i := AtFetch] == s.workers[i := AtFetch];
    } else {
      OneMove(s, ReadStop(i));
    }
  }

  /** A worker at its fetch: it runs the front of the queue to completion and is back at the head of its loop;
      without one it runs the no-op if termination is announced, and falls asleep if not. */
  lemma FetchAndRun(s: State, i: nat)
    requires i < |s.workers| == |s.noops| && s.workers[i] == AtFetch
    ensures s.queue != [] ==>
              && Path(s, [Fetch(i), Finish(i)])
              && var t := After(s, [Fetch(i), Finish(i)]);
              && t.queue == s.queue[1..] && t.popped == s.popped + [s.queue[0]] && t.finished == s.finished + [s.queue[0]]
              && t.workers == s.workers[i := AtStop]
    ensures s.queue == [] && s.terminate ==>
              && Path(s, [Fetch(i), Finish(i)])
              && var t := After(s, [Fetch(i), Finish(i)]);
              && t.queue == [] && t.popped == s.popped && t.finished == s.finished && t.workers == s.workers[i := AtStop]
    ensures s.queue == [] && !s.terminate ==>
              Path(s, [Fetch(i)]) && After(s, [Fetch(i)]) == s.(workers := s.workers[i := Asleep])
  {
    if s.queue != [] || s.terminate {
      var job := if s.queue != [] then Real(s.queue[0]) else Noop;
      TwoSteps(s, Fetch(i), Finish(i));
      assert s.workers[i := Running(job)][i := AtStop] == s.workers[i := AtStop];
    } else {
      OneMove(s, Fetch(i));
    }
  }
}
