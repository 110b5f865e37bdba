/** Under a fair schedule the shutdown does end, after a number of rounds that is known when it begins. */
module ExecutorFairness {
  import opened ExecutorModel
  import opened ExecutorInvariants
  import opened ExecutorTheorems

  /** A step of the call that stops. */
  predicate StopperLabel(l: Label) {
    l.SetTerminate? || l.LookEmpty? || l.Poke? || l.Broadcast? || l.EnterPool? || l.Join?
  }

  function StopperSteps(ls: seq<Label>): nat {
    if ls == [] then 0 else (if StopperLabel(ls[0]) then 1 else 0) + StopperSteps(ls[1..])
  }

  predicate NoneAwake(s: State) {
    forall i | 0 <= i < |s.workers| :: !Awake(s, i)
  }

  /** A round that passes nobody over: a worker takes a step; or no worker was awake and the stopping call takes two;
      or the call has returned. A worker that is awake can always take a step. */
  predicate FairRound(s: State, ls: seq<Label>) {
    && Path(s, ls)
    && (WorkerSteps(ls) > 0 || (NoneAwake(s) && StopperSteps(ls) >= 2) || After(s, ls).phase == Returned)
  }

  predicate FairRun(s: State, rounds: seq<seq<Label>>)
    decreases |rounds|
  {
    rounds == [] || (FairRound(s, rounds[0]) && FairRun(After(s, rounds[0]), rounds[1..]))
  }

  function AfterRun(s: State, rounds: seq<seq<Label>>): State
    requires FairRun(s, rounds)
    decreases |rounds|
  {
    if rounds == [] then s else AfterRun(After(s, rounds[0]), rounds[1..])
  }

  // ------------------------------------------------------------------ the rank

  /** How far the stopping call is from its return; looking at a queue that is not empty brings it no nearer. */
  function Level(s: State): (n: nat)
    ensures n <= |s.workers| + 5
  {
    match s.phase
    case Returned => 0
    case Joining(k) => if k <= |s.workers| then 1 + |s.workers| - k else 0
    case Pooling => |s.workers| + 2
    case Broadcasting => |s.workers| + 3
    case Draining => if s.queue == [] then |s.workers| + 4 else |s.workers| + 5
    case _ => |s.workers| + 5
  }

  /** Workers' steps first, then those of the stopping call. */
  function Rank(s: State): nat {
    Measure(s) * (|s.workers| + 6) + Level(s)
  }

  lemma RankByMeasure(s: State, t: State)
    requires |t.workers| == |s.workers| && Measure(t) < Measure(s)
    ensures Rank(t) < Rank(s)
  {
    hide Measure;
    Weighted(Measure(t), Measure(s), |s.workers| + 6);
  }

  lemma Weighted(a: nat, b: nat, c: nat)
    requires a < b
    ensures a * c + c <= b * c
  {
    assert (b - a - 1) * c >= 0;
    assert b * c == a * c + c + (b - a - 1) * c;
  }

  lemma RankByLevel(s: State, t: State)
    requires |t.workers| == |s.workers| && Measure(t) <= Measure(s) && Level(t) <= Level(s)
    ensures Rank(t) <= Rank(s)
    ensures Level(t) < Level(s) ==> Rank(t) < Rank(s)
  {
    hide Measure, Level;
    if Measure(t) < Measure(s) {
      Weighted(Measure(t), Measure(s), |s.workers| + 6);
    }
  }

  /** The level after a step that is not a worker's. */
  lemma LevelStep(s: State, l: Label)
    requires Ending(s) && Enabled(s, l) && !WorkerLabel(l)
    ensures Level(Apply(s, l)) <= Level(s)
    ensures StopperLabel(l) && !(s.queue != [] && (l.LookEmpty? || l.Poke?)) ==> Level(Apply(s, l)) < Level(s)
  {
    hide Fifo, Fresh, Ran, NoNeedlessSleep, Exits, Quiet, NoNoopYet, Stuck;
    SizesKept(s, l);
  }

  lemma RankNoRise(s: State, l: Label)
    requires Ending(s) && Enabled(s, l)
    ensures Rank(Apply(s, l)) <= Rank(s)
    ensures WorkerLabel(l) ==> Rank(Apply(s, l)) < Rank(s)
  {
    hide Inv, Measure, Level, Rank, Apply, Enabled, Stuck;
    SizesKept(s, l);
    NoStepRises(s, l);
    if WorkerLabel(l) {
      WorkerStepFalls(s, l);
      RankByMeasure(s, Apply(s, l));
    } else {
      LevelStep(s, l);
      RankByLevel(s, Apply(s, l));
    }
  }

  lemma {:induction false} RankAfter(s: State, ls: seq<Label>)
    requires Ending(s) && Path(s, ls)
    ensures Rank(After(s, ls)) <= Rank(s)
    ensures WorkerSteps(ls) > 0 ==> Rank(After(s, ls)) < Rank(s)
    decreases |ls|
  {
    hide Ending, Rank, Apply, Enabled, WorkerLabel;
    if ls != [] {
      RankNoRise(s, ls[0]);
      EndingKept(s, ls[0]);
      RankAfter(Apply(s, ls[0]), ls[1..]);
    }
  }

  // ----------------------------------------------------------------- a fair round

  /** With the queue not empty and no worker awake a look at the queue brings nothing yet, but the next step does. */
  function Needed(s: State): nat {
    if s.phase == Draining && s.queue != [] then 2 else 1
  }

  lemma StopperStepFalls(s: State, l: Label)
    requires Ending(s) && NoneAwake(s) && Enabled(s, l) && StopperLabel(l)
    ensures var t := Apply(s, l);
            Rank(t) < Rank(s) || (NoneAwake(t) && Rank(t) <= Rank(s) && Needed(s) == 2 && Needed(t) == 1)
  {
    hide Inv, Measure, Level, Rank;
    RankNoRise(s, l);
    if l.Poke? && s.queue != [] {
      PokeWakes(s, l);
      RankByMeasure(s, Apply(s, l));
    } else if l.LookEmpty? && s.queue != [] {
      var t := Apply(s, l);
      assert t.workers == s.workers && t.phase == Poking;
      SameWorkers(s, t);
    } else {
      LevelStep(s, l);
      SizesKept(s, l);
      NoStepRises(s, l);
      RankByLevel(s, Apply(s, l));
    }
  }

  lemma PokeWakes(s: State, l: Label)
    requires Ending(s) && NoneAwake(s) && s.queue != [] && l.Poke? && Enabled(s, l)
    ensures Measure(Apply(s, l)) < Measure(s) && |Apply(s, l).workers| == |s.workers|
  {
    hide Inv, Measure;
    var i := SomeoneSleeps(s);
    WakeNoRise(s, l.woken);
    MeasureSame(Apply(s, l), Wake(s, l.woken));
    SizesKept(s, l);
  }

  /** A step of a submitter, or of another call of `stop`, wakes somebody or changes nothing here. */
  lemma BystanderStep(s: State, l: Label)
    requires Ending(s) && NoneAwake(s) && Enabled(s, l) && !StopperLabel(l) && !WorkerLabel(l)
    ensures var t := Apply(s, l);
            Rank(t) < Rank(s) || (NoneAwake(t) && Rank(t) <= Rank(s) && Needed(t) == Needed(s))
  {
    hide Inv, Measure, Level, Rank;
    RankNoRise(s, l);
    var t := Apply(s, l);
    if l.Notify? && l.woken.Somebody? {
      WakeNoRise(s, l.woken);
      MeasureSame(t, Wake(s, l.woken));
      RankByMeasure(s, t);
    } else {
      SameWorkers(s, t);
    }
  }

  lemma SameWorkers(s: State, t: State)
    requires NoneAwake(s) && t.workers == s.workers
    ensures NoneAwake(t)
  {
    assert forall i: nat | i < |t.workers| :: Awake(t, i) == Awake(s, i);
  }

  lemma {:induction false} QuietRoundFalls(s: State, ls: seq<Label>)
    requires Ending(s) && NoneAwake(s) && Path(s, ls) && StopperSteps(ls) >= Needed(s)
    ensures Rank(After(s, ls)) < Rank(s)
    decreases |ls|
  {
    hide Ending, Rank, Apply, Enabled, WorkerLabel, StopperLabel, NoneAwake, Needed;
    NeededBounds(s);
    var l, rest := ls[0], ls[1..];
    var t := Apply(s, l);
    RankNoRise(s, l);
    EndingKept(s, l);
    RankAfter(t, rest);
    if StopperLabel(l) {
      StopperStepFalls(s, l);
      if Rank(t) >= Rank(s) {
        QuietRoundFalls(t, rest);
      }
    } else if !WorkerLabel(l) {
      BystanderStep(s, l);
      if Rank(t) >= Rank(s) {
        QuietRoundFalls(t, rest);
      }
    }
  }

  lemma NeededBounds(s: State)
    ensures 1 <= Needed(s) <= 2
  {
  }

  lemma FairRoundFalls(s: State, ls: seq<Label>)
    requires Ending(s) && FairRound(s, ls)
    ensures Rank(After(s, ls)) < Rank(s) || After(s, ls).phase == Returned
  {
    hide Ending, Rank, Path, After, WorkerSteps, StopperSteps, NoneAwake, Needed;
    RankAfter(s, ls);
    NeededBounds(s);
    if NoneAwake(s) && StopperSteps(ls) >= 2 {
      QuietRoundFalls(s, ls);
    }
  }

  // ----------------------------------------------------------------- the theorem

  lemma ReturnedStays(s: State, l: Label)
    requires Ending(s) && s.phase == Returned && Enabled(s, l)
    ensures Apply(s, l).phase == Returned
  {
    hide Fifo, Fresh, Ran, NoNeedlessSleep, Exits, Quiet, NoNoopYet, Joined;
  }

  lemma {:induction false} ReturnedAfter(s: State, ls: seq<Label>)
    requires Ending(s) && s.phase == Returned && Path(s, ls)
    ensures After(s, ls).phase == Returned
    decreases |ls|
  {
    hide Ending, Apply, Enabled;
    if ls != [] {
      ReturnedStays(s, ls[0]);
      EndingKept(s, ls[0]);
      ReturnedAfter(Apply(s, ls[0]), ls[1..]);
    }
  }

  /** Every fair run of more rounds than the rank says ends with the call of `stop` returned. */
  lemma {:induction false} FairRunReturns(s: State, rounds: seq<seq<Label>>)
    requires Ending(s) && FairRun(s, rounds)
    requires s.phase == Returned || |rounds| > Rank(s)
    ensures AfterRun(s, rounds).phase == Returned
    decreases |rounds|
  {
    hide Ending, Rank, Path, After;
    if rounds != [] {
      var t := After(s, rounds[0]);
      EndingAlways(s, rounds[0]);
      if s.phase == Returned {
        ReturnedAfter(s, rounds[0]);
      } else {
        FairRoundFalls(s, rounds[0]);
      }
      FairRunReturns(t, rounds[1..]);
    }
  }

  /** If nobody was admitted when `stop_` was set, then from any point after `terminate_` is set every fair run
      of more rounds than the rank at that point returns from `stop`. */
  lemma QuietStopReturns(workers: nat, submitters: nat, ls: seq<Label>, rounds: seq<seq<Label>>)
    requires workers >= 1 && Path(Started(workers, submitters), ls)
    requires var s := After(Started(workers, submitters), ls);
             s.stop && s.quiet && s.terminate && FairRun(s, rounds) && |rounds| > Rank(s)
    ensures AfterRun(After(Started(workers, submitters), ls), rounds).phase == Returned
  {
    hide Inv, Closing, Stuck, Rank, FairRun, Path, After, AfterRun;
    AlwaysInv(workers, submitters, ls);
    QuietStopEnds(workers, submitters, ls);
    FairRunReturns(After(Started(workers, submitters), ls), rounds);
  }
}
