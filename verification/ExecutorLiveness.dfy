/** Queued tasks are fetched: under a schedule that passes no waiting thread over, the front of the queue
    goes within five rounds, and every task behind it within five more for each one before it. */
module ExecutorLiveness {
  import opened ExecutorModel
  import opened ExecutorInvariants
  import opened ExecutorTheorems

  predicate Moves(ls: seq<Label>, i: nat) {
    ls != [] && ((WorkerLabel(ls[0]) && ls[0].i == i) || Moves(ls[1..], i))
  }

  predicate Notifies(ls: seq<Label>, j: nat) {
    ls != [] && ((ls[0].Notify? && ls[0].j == j) || Notifies(ls[1..], j))
  }

  /** Every worker that is awake at the start of the round takes a step in it, and every pending notification is given. */
  predicate ServingRound(s: State, ls: seq<Label>) {
    && Path(s, ls)
    && (forall i: nat | i < |s.workers| && Awake(s, i) :: Moves(ls, i))
    && (forall j: nat | j < |s.submitters| && s.submitters[j] == Pushed :: Notifies(ls, j))
  }

  predicate ServingRun(s: State, rounds: seq<seq<Label>>)
    decreases |rounds|
  {
    rounds == [] || (ServingRound(s, rounds[0]) && ServingRun(After(s, rounds[0]), rounds[1..]))
  }

  function Served(s: State, rounds: seq<seq<Label>>): State
    requires ServingRun(s, rounds)
    decreases |rounds|
  {
    if rounds == [] then s else Served(After(s, rounds[0]), rounds[1..])
  }

  // ------------------------------------------------------------------ histories grow

  predicate Later(s: State, t: State) {
    s.pushed <= t.pushed && s.popped <= t.popped && (s.stop ==> t.stop) && |t.workers| == |s.workers|
  }

  lemma LaterStep(s: State, l: Label)
    requires Enabled(s, l)
    ensures Later(s, Apply(s, l))
  {
    SizesKept(s, l);
  }

  lemma {:induction false} LaterAfter(s: State, ls: seq<Label>)
    requires Path(s, ls)
    ensures Later(s, After(s, ls))
    decreases |ls|
  {
    hide Enabled, Apply;
    if ls != [] {
      LaterStep(s, ls[0]);
      LaterAfter(Apply(s, ls[0]), ls[1..]);
    }
  }

  lemma {:induction false} LaterServed(s: State, rounds: seq<seq<Label>>)
    requires Inv(s) && ServingRun(s, rounds)
    ensures Later(s, Served(s, rounds)) && Inv(Served(s, rounds))
    decreases |rounds|
  {
    hide Inv, Path, After;
    if rounds != [] {
      LaterAfter(s, rounds[0]);
      InvAfter(s, rounds[0]);
      LaterServed(After(s, rounds[0]), rounds[1..]);
    }
  }

  // ------------------------------------------------------- while the front is not fetched

  /** The steps a worker that is awake takes before it fetches. */
  function Distance(w: Worker): nat {
    match w
    case Running(_) => 4
    case AtStop => 3
    case AtEmpty => 2
    case AtFetch => 1
    case _ => 0
  }

  /** The front of the queue is still there. */
  predicate Waits(s: State, n: nat) {
    |s.popped| == n && s.queue != []
  }

  predicate NoneExited(s: State) {
    forall i | 0 <= i < |s.workers| :: s.workers[i] != Exited
  }

  lemma WaitingStep(s: State, l: Label, n: nat)
    requires Waits(s, n) && Enabled(s, l)
    ensures var t := Apply(s, l); |t.popped| > n || Waits(t, n)
    ensures NoneExited(s) ==> NoneExited(Apply(s, l))
  {
    SizesKept(s, l);
  }

  /** An awake worker stays awake, and every step of its own brings it nearer to fetching. */
  lemma AwakeStep(s: State, l: Label, n: nat, i: nat)
    requires Waits(s, n) && Enabled(s, l) && Awake(s, i)
    ensures var t := Apply(s, l);
            || |t.popped| > n
            || (Awake(t, i) && Distance(t.workers[i]) <= Distance(s.workers[i])
                && (WorkerLabel(l) && l.i == i ==> Distance(t.workers[i]) < Distance(s.workers[i])))
  {
    SizesKept(s, l);
  }

  lemma {:induction false} AwakeRound(s: State, ls: seq<Label>, n: nat, i: nat)
    requires Waits(s, n) && Path(s, ls) && Awake(s, i)
    ensures var t := After(s, ls);
            || |t.popped| > n
            || (Waits(t, n) && Awake(t, i) && Distance(t.workers[i]) <= Distance(s.workers[i])
                && (Moves(ls, i) ==> Distance(t.workers[i]) < Distance(s.workers[i])))
    decreases |ls|
  {
    hide Waits, Enabled, Apply, WorkerLabel, Distance, Awake;
    if ls != [] {
      var t := Apply(s, ls[0]);
      WaitingStep(s, ls[0], n);
      AwakeStep(s, ls[0], n, i);
      AwakeBound(s, i);
      if |t.popped| > n {
        LaterAfter(t, ls[1..]);
      } else {
        AwakeBound(t, i);
        AwakeRound(t, ls[1..], n, i);
      }
    }
  }

  lemma AwakeBound(s: State, i: nat)
    requires Awake(s, i)
    ensures i < |s.workers| && 1 <= Distance(s.workers[i]) <= 4
  {
  }

  /** After a notification somebody is awake. */
  lemma NotifyStep(s: State, l: Label) returns (i: nat)
    requires Enabled(s, l) && l.Notify? && |s.workers| >= 1 && NoneExited(s)
    ensures Awake(Apply(s, l), i)
  {
    i := match l.woken case Somebody(k) => k case Nobody => 0;
  }

  lemma {:induction false} NotifyRound(s: State, ls: seq<Label>, n: nat, j: nat) returns (i: nat)
    requires Waits(s, n) && Path(s, ls) && Notifies(ls, j) && |s.workers| >= 1 && NoneExited(s)
    ensures var t := After(s, ls); |t.popped| > n || (Waits(t, n) && Awake(t, i))
    decreases |ls|
  {
    hide Waits, Enabled, Apply, Awake, NoneExited, Distance;
    var t := Apply(s, ls[0]);
    i := 0;
    WaitingStep(s, ls[0], n);
    LaterStep(s, ls[0]);
    if |t.popped| > n {
      LaterAfter(t, ls[1..]);
    } else if ls[0].Notify? && ls[0].j == j {
      i := NotifyStep(s, ls[0]);
      AwakeRound(t, ls[1..], n, i);
    } else {
      i := NotifyRound(t, ls[1..], n, j);
    }
  }

  // -------------------------------------------------------------------- the theorems

  lemma {:induction false} AwakeRounds(s: State, rounds: seq<seq<Label>>, n: nat, i: nat)
    requires Inv(s) && Waits(s, n) && ServingRun(s, rounds) && Awake(s, i) && |rounds| >= Distance(s.workers[i])
    ensures |Served(s, rounds).popped| > n
    decreases |rounds|
  {
    hide Inv, Waits, Path, After, Distance, Awake, Moves;
    AwakeBound(s, i);
    var t := After(s, rounds[0]);
    AwakeRound(s, rounds[0], n, i);
    InvAfter(s, rounds[0]);
    if |t.popped| > n {
      LaterServed(t, rounds[1..]);
    } else {
      AwakeRounds(t, rounds[1..], n, i);
    }
  }

  lemma FiveRounds(s: State, rounds: seq<seq<Label>>)
    requires Inv(s) && |s.workers| >= 1 && !s.stop && s.queue != [] && ServingRun(s, rounds) && |rounds| >= 5
    ensures |Served(s, rounds).popped| > |s.popped|
  {
    hide Inv, Path, After, Distance, Awake, Moves, Notifies;
    var n := |s.popped|;
    AwakeOrPending(s);
    if i: nat :| i < |s.workers| && Awake(s, i) {
      AwakeBound(s, i);
      AwakeRounds(s, rounds, n, i);
    } else {
      var j: nat :| j < |s.submitters| && s.submitters[j] == Pushed;
      NobodyLeft(s);
      var t := After(s, rounds[0]);
      var k := NotifyRound(s, rounds[0], n, j);
      InvAfter(s, rounds[0]);
      if |t.popped| > n {
        LaterServed(t, rounds[1..]);
      } else {
        AwakeBound(t, k);
        AwakeRounds(t, rounds[1..], n, k);
      }
    }
  }

  lemma NobodyLeft(s: State)
    requires Inv(s) && !s.stop
    ensures NoneExited(s)
  {
    assert forall i | 0 <= i < |s.workers| :: WorkerMayBe(s, s.workers[i]);
  }

  lemma {:induction false} RunSplit(s: State, rounds: seq<seq<Label>>, n: nat)
    requires ServingRun(s, rounds) && n <= |rounds|
    ensures ServingRun(s, rounds[..n]) && ServingRun(Served(s, rounds[..n]), rounds[n..])
    ensures Served(Served(s, rounds[..n]), rounds[n..]) == Served(s, rounds)
    decreases n
  {
    hide Path, After, Moves, Notifies, Awake;
    if n == 0 {
      assert rounds[0..] == rounds;
    } else {
      assert rounds[..n][0] == rounds[0] && rounds[..n][1..] == rounds[1..][..n - 1] && rounds[1..][n - 1..] == rounds[n..];
      RunSplit(After(s, rounds[0]), rounds[1..], n - 1);
    }
  }

  lemma PushedIsPopped(s: State, t: State, m: nat)
    requires Inv(s) && Inv(t) && Later(s, t) && m < |s.pushed| && m < |t.popped|
    ensures t.popped[m] == s.pushed[m]
  {
    hide Fresh, Ran, Flags, NoNeedlessSleep, Exits, Joined, Quiet, NoNoopYet;
    assert s.pushed[m] == t.pushed[m];
  }

  lemma {:induction false} RoundsReach(s: State, rounds: seq<seq<Label>>, m: nat)
    requires Inv(s) && |s.workers| >= 1 && m < |s.pushed| && ServingRun(s, rounds)
    requires |rounds| >= 5 * (m + 1 - |s.popped|) && !Served(s, rounds).stop
    ensures |Served(s, rounds).popped| > m
    decreases |rounds|
  {
    hide Inv, ServingRun, Served;
    LaterServed(s, rounds);
    if |s.popped| <= m {
      QueueHolds(s, m);
      RunSplit(s, rounds, 5);
      var t := Served(s, rounds[..5]);
      LaterServed(s, rounds[..5]);
      LaterServed(t, rounds[5..]);
      FiveRounds(s, rounds[..5]);
      RoundsReach(t, rounds[5..], m);
    }
  }

  lemma QueueHolds(s: State, m: nat)
    requires Inv(s) && |s.popped| <= m < |s.pushed|
    ensures s.queue != []
  {
    hide Fresh, Ran, Flags, NoNeedlessSleep, Exits, Joined, Quiet, NoNoopYet;
  }

  /** From every reachable state before `stop_` is set in which tasks are queued, five serving rounds fetch the front,
      whatever else happens in them, even a call of `stop`. */
  lemma FrontIsFetched(workers: nat, submitters: nat, ls: seq<Label>, rounds: seq<seq<Label>>)
    requires workers >= 1 && Path(Started(workers, submitters), ls)
    requires var s := After(Started(workers, submitters), ls);
             !s.stop && s.queue != [] && ServingRun(s, rounds) && |rounds| >= 5
    ensures var s := After(Started(workers, submitters), ls);
            var t := Served(s, rounds);
            |t.popped| > |s.popped| && t.popped[|s.popped|] == s.queue[0]
  {
    hide Inv, Path, After, ServingRun, Served;
    AlwaysInv(workers, submitters, ls);
    SizesAfter(Started(workers, submitters), ls);
    var s := After(Started(workers, submitters), ls);
    FiveRounds(s, rounds);
    LaterServed(s, rounds);
    FrontIsNext(s);
    PushedIsPopped(s, Served(s, rounds), |s.popped|);
  }

  lemma FrontIsNext(s: State)
    requires Inv(s) && s.queue != []
    ensures |s.popped| < |s.pushed| && s.pushed[|s.popped|] == s.queue[0]
  {
    hide Fresh, Ran, Flags, NoNeedlessSleep, Exits, Joined, Quiet, NoNoopYet;
  }

  /** No task is starved: as long as `stop_` is not set, the task pushed as number `m` is fetched, as number `m`,
      within five serving rounds for itself and each task before it in the queue. */
  lemma EveryTaskIsFetched(workers: nat, submitters: nat, ls: seq<Label>, rounds: seq<seq<Label>>, m: nat)
    requires workers >= 1 && Path(Started(workers, submitters), ls)
    requires var s := After(Started(workers, submitters), ls);
             m < |s.pushed| && ServingRun(s, rounds) && |rounds| >= 5 * (m + 1 - |s.popped|) && !Served(s, rounds).stop
    ensures var s := After(Started(workers, submitters), ls);
            var t := Served(s, rounds);
            |t.popped| > m && t.popped[m] == s.pushed[m]
  {
    hide Inv, Path, After, ServingRun, Served;
    AlwaysInv(workers, submitters, ls);
    SizesAfter(Started(workers, submitters), ls);
    var s := After(Started(workers, submitters), ls);
    RoundsReach(s, rounds, m);
    LaterServed(s, rounds);
    PushedIsPopped(s, Served(s, rounds), m);
  }

  // -------------------------------------------------------- there is always such a round

  lemma {:induction false} MovesAppend(ls: seq<Label>, ms: seq<Label>, i: nat)
    ensures Moves(ls + ms, i) <==> Moves(ls, i) || Moves(ms, i)
    ensures Notifies(ls + ms, i) <==> Notifies(ls, i) || Notifies(ms, i)
    decreases |ls|
  {
    if ls == [] {
      assert ls + ms == ms;
    } else {
      assert (ls + ms)[0] == ls[0] && (ls + ms)[1..] == ls[1..] + ms;
      MovesAppend(ls[1..], ms, i);
    }
  }

  lemma OneMove(s: State, l: Label)
    requires Enabled(s, l)
    ensures Path(s, [l]) && After(s, [l]) == Apply(s, l)
    ensures WorkerLabel(l) ==> Moves([l], l.i)
    ensures l.Notify? ==> Notifies([l], l.j)
  {
    assert Path(Apply(s, l), []) && After(Apply(s, l), []) == Apply(s, l);
    assert [l] + [] == [l];
    OneStep(s, l, []);
  }

  lemma MoveOnly(s: State, i: nat)
    requires Awake(s, i) && |s.noops| == |s.workers|
    ensures var t := Apply(s, NextStep(s, i));
            && t.submitters == s.submitters && t.stop == s.stop && |t.workers| == |s.workers| == |t.noops|
            && forall k | 0 <= k < |s.workers| && k != i :: t.workers[k] == s.workers[k]
  {
    var t := Apply(s, NextStep(s, i));
    assert t.workers == s.workers[i := t.workers[i]];
  }

  /** Every awake worker below `n` takes a step. */
  lemma {:induction false} WorkersGo(s: State, n: nat) returns (ls: seq<Label>)
    requires n <= |s.workers| == |s.noops|
    ensures Path(s, ls) && forall i: nat | i < n && Awake(s, i) :: Moves(ls, i)
    ensures var t := After(s, ls);
            && t.submitters == s.submitters && t.stop == s.stop && |t.workers| == |s.workers| == |t.noops|
            && forall i | n <= i < |s.workers| :: t.workers[i] == s.workers[i]
    decreases n
  {
    hide Enabled, Apply, Moves;
    ls := [];
    if n > 0 {
      hide Path, After;
      var first := WorkersGo(s, n - 1);
      var t := After(s, first);
      ls := first;
      if Awake(s, n - 1) {
        var l := NextStep(t, n - 1);
        OneMove(t, l);
        MoveOnly(t, n - 1);
        PathAppend(s, first, [l]);
        ls := first + [l];
        forall i: nat | i < n && Awake(s, i)
          ensures Moves(ls, i)
        {
          MovesAppend(first, [l], i);
          NextIsOwn(t, n - 1);
        }
      }
    }
  }

  lemma NextIsOwn(s: State, i: nat)
    requires Awake(s, i) && |s.noops| == |s.workers|
    ensures NextStep(s, i).i == i
  {
  }

  /** Every pending notification below `n` is given. */
  lemma {:induction false} NotificationsGo(s: State, n: nat) returns (ls: seq<Label>)
    requires n <= |s.submitters|
    ensures Path(s, ls) && forall j: nat | j < n && s.submitters[j] == Pushed :: Notifies(ls, j)
    ensures var t := After(s, ls);
            && |t.submitters| == |s.submitters| && t.stop == s.stop
            && forall j | n <= j < |s.submitters| :: t.submitters[j] == s.submitters[j]
    decreases n
  {
    hide Notifies;
    ls := [];
    if n > 0 {
      hide Path, After;
      var first := NotificationsGo(s, n - 1);
      var t := After(s, first);
      ls := first;
      if s.submitters[n - 1] == Pushed {
        var woken := SomeWoken(t);
        var l := Notify(n - 1, woken);
        OneMove(t, l);
        PathAppend(s, first, [l]);
        ls := first + [l];
        forall j: nat | j < n && s.submitters[j] == Pushed
          ensures Notifies(ls, j)
        {
          MovesAppend(first, [l], j);
        }
      }
    }
  }

  /** From every state that can be reached there is a serving round, and one in which nobody calls `stop`. */
  lemma ServingRoundExists(s: State) returns (ls: seq<Label>)
    requires Inv(s)
    ensures ServingRound(s, ls) && After(s, ls).stop == s.stop
  {
    hide Path, After, Awake, Moves, Notifies;
    var moves := WorkersGo(s, |s.workers|);
    var t := After(s, moves);
    var notifications := NotificationsGo(t, |t.submitters|);
    PathAppend(s, moves, notifications);
    ls := moves + notifications;
    forall i: nat | i < |s.workers| && Awake(s, i)
      ensures Moves(ls, i)
    {
      MovesAppend(moves, notifications, i);
    }
    forall j: nat | j < |s.submitters| && s.submitters[j] == Pushed
      ensures Notifies(ls, j)
    {
      MovesAppend(moves, notifications, j);
    }
  }
}
