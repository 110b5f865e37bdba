/** What holds in every state that a started executor can reach. */
module ExecutorInvariants {
  import opened ExecutorModel

  // ------------------------------------------------------------------- counting

  function Sum(ws: seq<Worker>, f: Worker -> nat): nat {
    if ws == [] then 0 else f(ws[0]) + Sum(ws[1..], f)
  }

  lemma {:induction false} SumUpdate(ws: seq<Worker>, i: nat, w: Worker, f: Worker -> nat)
    requires i < |ws|
    ensures Sum(ws[i := w], f) + f(ws[i]) == Sum(ws, f) + f(w)
    decreases |ws|
  {
    var vs := ws[i := w];
    if i == 0 {
      assert vs[1..] == ws[1..];
    } else {
      assert vs[1..] == ws[1..][i - 1 := w];
      SumUpdate(ws[1..], i - 1, w, f);
    }
  }

  lemma {:induction false} SumAtLeast(ws: seq<Worker>, i: nat, f: Worker -> nat)
    requires i < |ws|
    ensures Sum(ws, f) >= f(ws[i])
    decreases |ws|
  {
    if i > 0 {
      SumAtLeast(ws[1..], i - 1, f);
    }
  }

  lemma {:induction false} SumSome(ws: seq<Worker>, f: Worker -> nat) returns (i: nat)
    requires Sum(ws, f) > 0
    ensures i < |ws| && f(ws[i]) > 0
    decreases |ws|
  {
    if f(ws[0]) > 0 {
      i := 0;
    } else {
      i := SumSome(ws[1..], f);
      i := i + 1;
    }
  }

  /** A worker that will look at the queue before it sleeps. */
  function Ready(w: Worker): nat {
    if w == AtStop || w == AtEmpty || w == AtFetch then 1 else 0
  }

  const READY: Worker -> nat := w => Ready(w)

  function Pending(ss: seq<Submitter>): nat {
    if ss == [] then 0 else (if ss[0] == Pushed then 1 else 0) + Pending(ss[1..])
  }

  lemma {:induction false} PendingUpdate(ss: seq<Submitter>, j: nat, x: Submitter)
    requires j < |ss|
    ensures Pending(ss[j := x]) + (if ss[j] == Pushed then 1 else 0) == Pending(ss) + (if x == Pushed then 1 else 0)
    decreases |ss|
  {
    var vs := ss[j := x];
    if j == 0 {
      assert vs[1..] == ss[1..];
    } else {
      assert vs[1..] == ss[1..][j - 1 := x];
      PendingUpdate(ss[1..], j - 1, x);
    }
  }

  lemma {:induction false} PendingSome(ss: seq<Submitter>) returns (j: nat)
    requires Pending(ss) > 0
    ensures j < |ss| && ss[j] == Pushed
    decreases |ss|
  {
    if ss[0] == Pushed {
      j := 0;
    } else {
      j := PendingSome(ss[1..]);
      j := j + 1;
    }
  }

  /** The tasks that are being run. */
  function InHand(ws: seq<Worker>): multiset<nat> {
    if ws == [] then multiset{} else Hand(ws[0]) + InHand(ws[1..])
  }

  function Hand(w: Worker): multiset<nat> {
    if w.Running? && w.job.Real? then multiset{w.job.task} else multiset{}
  }

  lemma {:induction false} InHandUpdate(ws: seq<Worker>, i: nat, w: Worker)
    requires i < |ws|
    ensures InHand(ws[i := w]) + Hand(ws[i]) == InHand(ws) + Hand(w)
    decreases |ws|
  {
    hide Hand;
    var vs := ws[i := w];
    if i == 0 {
      assert vs[1..] == ws[1..];
    } else {
      assert vs[1..] == ws[1..][i - 1 := w];
      InHandUpdate(ws[1..], i - 1, w);
      AddHand(Hand(ws[0]), InHand(vs[1..]), Hand(ws[i]), InHand(ws[1..]), Hand(w));
    }
  }

  lemma AddHand(first: multiset<nat>, a: multiset<nat>, b: multiset<nat>, c: multiset<nat>, d: multiset<nat>)
    requires a + b == c + d
    ensures (first + a) + b == (first + c) + d
  {
    assert (first + a) + b == first + (a + b);
    assert (first + c) + d == first + (c + d);
  }

  /** A worker without a task moves on without one. */
  lemma EmptyHanded(ws: seq<Worker>, i: nat, w: Worker)
    requires i < |ws| && Hand(ws[i]) == multiset{} && Hand(w) == multiset{}
    ensures InHand(ws[i := w]) == InHand(ws)
  {
    InHandUpdate(ws, i, w);
    assert InHand(ws[i := w]) + multiset{} == InHand(ws[i := w]);
    assert InHand(ws) + multiset{} == InHand(ws);
  }

  lemma {:induction false} InHandWakeAll(ws: seq<Worker>)
    ensures InHand(WakeAll(ws)) == InHand(ws)
    decreases |ws|
  {
    if ws != [] {
      assert WakeAll(ws)[1..] == WakeAll(ws[1..]);
      InHandWakeAll(ws[1..]);
    }
  }

  lemma {:induction false} InHandNone(ws: seq<Worker>)
    requires forall i | 0 <= i < |ws| :: ws[i] == Exited
    ensures InHand(ws) == multiset{}
    decreases |ws|
  {
    if ws != [] {
      InHandNone(ws[1..]);
    }
  }

  // ------------------------------------------------------------- the invariants

  /** First in, first out: what was pushed is what was fetched, then what is queued. */
  predicate Fifo(s: State) {
    s.pushed == s.popped + s.queue && |s.noops| == |s.workers|
  }

  predicate NoTaskTwice(ts: seq<nat>) {
    forall i, j | 0 <= i < j < |ts| :: ts[i] != ts[j]
  }

  /** Every task is pushed once. */
  predicate Fresh(s: State) {
    && NoTaskTwice(s.pushed)
    && (forall i | 0 <= i < |s.pushed| :: s.pushed[i] < s.next)
    && (forall j | 0 <= j < |s.submitters| && s.submitters[j].Admitted? ::
          s.submitters[j].task < s.next && s.submitters[j].task !in s.pushed)
    && (forall j, k | 0 <= j < k < |s.submitters| && s.submitters[j].Admitted? && s.submitters[k].Admitted? ::
          s.submitters[j].task != s.submitters[k].task)
  }

  /** What was fetched is finished or in the hands of a single worker. */
  predicate Ran(s: State) {
    multiset(s.finished) + InHand(s.workers) == multiset(s.popped)
  }

  /** The flags follow the phase of the stopping call. */
  predicate Flags(s: State) {
    && (s.stop <==> s.phase != NotStopped)
    && (s.terminate <==> s.phase != NotStopped && s.phase != Marked)
    && (s.poolStop <==> s.phase.Joining? || s.phase == Returned)
  }

  /** While a worker sleeps, every queued task has a worker on its way to it or a notification to come. */
  predicate NoNeedlessSleep(s: State) {
    !s.stop && (exists i :: 0 <= i < |s.workers| && s.workers[i] == Asleep) ==>
      |s.queue| <= Sum(s.workers, READY) + Pending(s.submitters)
  }

  /** Workers leave only after `stop_` is set and all tasks pushed before are fetched. */
  predicate Exits(s: State) {
    && s.mark <= |s.pushed|
    && (forall i | 0 <= i < |s.workers| :: WorkerMayBe(s, s.workers[i]))
  }

  predicate WorkerMayBe(s: State, w: Worker) {
    && (w == AtEmpty ==> s.stop)
    && (w == Exited ==> s.stop && s.mark <= |s.popped|)
    && (w == Running(Noop) ==> s.terminate)
  }

  /** Once all are notified nobody sleeps; the joined workers have left. */
  predicate Joined(s: State) {
    && (s.phase == Pooling || s.phase.Joining? || s.phase == Returned ==> forall i | 0 <= i < |s.workers| :: s.workers[i] != Asleep)
    && (s.phase.Joining? ==> s.phase.joined <= |s.workers| && forall i | 0 <= i < s.phase.joined :: s.workers[i] == Exited)
    && (s.phase == Returned ==> forall i | 0 <= i < |s.workers| :: s.workers[i] == Exited)
  }

  /** If nobody was admitted when `stop_` was set: nothing comes after, a worker leaves only an empty queue,
      and no worker gets a second no-op. */
  predicate Quiet(s: State) {
    s.stop && s.quiet ==>
      && NoneAdmitted(s)
      && |s.noops| == |s.workers|
      && (forall i | 0 <= i < |s.workers| :: s.workers[i] == Exited ==> s.queue == [])
      && (forall i | 0 <= i < |s.workers| :: OneNoop(s, s.workers[i], s.noops[i]))
  }

  predicate OneNoop(s: State, w: Worker, n: nat) {
    && n <= 1
    && (w == Running(Noop) ==> n == 1)
    && (n == 1 ==> s.queue == [] && (w == Running(Noop) || w == AtStop || w == AtEmpty || w == Exited))
  }

  /** Before `stop_` is set no worker has fetched a no-op. */
  predicate NoNoopYet(s: State) {
    !s.terminate ==> forall i | 0 <= i < |s.noops| :: s.noops[i] == 0
  }

  predicate Inv(s: State) {
    && Fifo(s) && Fresh(s) && Ran(s) && Flags(s) && NoNeedlessSleep(s)
    && Exits(s) && Joined(s) && Quiet(s) && NoNoopYet(s)
  }

  // ------------------------------------------------------------ they hold at start

  lemma {:induction false} SumAll(n: nat, f: Worker -> nat)
    ensures InHand(seq(n, _ => AtStop)) == multiset{}
    decreases n
  {
    if n > 0 {
      assert seq(n, _ => AtStop)[1..] == seq(n - 1, _ => AtStop);
      SumAll(n - 1, f);
    }
  }

  lemma StartedInv(workers: nat, submitters: nat)
    ensures Inv(Started(workers, submitters))
  {
    hide Fifo, Fresh, Flags, NoNeedlessSleep, Exits, Joined, Quiet, NoNoopYet;
    var s := Started(workers, submitters);
    assert Ran(s) by {
      SumAll(workers, READY);
    }
    StartedOthers(workers, submitters);
  }

  lemma StartedOthers(workers: nat, submitters: nat)
    ensures var s := Started(workers, submitters);
            Fifo(s) && Fresh(s) && Flags(s) && NoNeedlessSleep(s) && Exits(s) && Joined(s) && Quiet(s) && NoNoopYet(s)
  {
    var s := Started(workers, submitters);
    assert forall i | 0 <= i < |s.workers| :: s.workers[i] == AtStop;
    assert forall j | 0 <= j < |s.submitters| :: s.submitters[j] == Idle;
  }

  // ----------------------------------------------------- and are kept by every step

  lemma FifoKept(s: State, l: Label)
    requires Fifo(s) && Enabled(s, l)
    ensures Fifo(Apply(s, l))
  {
    match l
    case Fetch(i) => FifoFetched(s, i);
    case Push(j) => assert s.pushed + [s.submitters[j].task] == s.popped + (s.queue + [s.submitters[j].task]);
    case _ =>
  }

  lemma FifoFetched(s: State, i: nat)
    requires Fifo(s) && i < |s.workers|
    ensures Fifo(Fetched(s, i))
  {
    if s.queue != [] {
      var q, r := s.queue[0], s.queue[1..];
      assert s.queue == [q] + r;
      assert s.popped + ([q] + r) == (s.popped + [q]) + r;
    }
  }

  lemma FreshKept(s: State, l: Label)
    requires Fresh(s) && Enabled(s, l)
    ensures Fresh(Apply(s, l))
  {
    hide Fresh;
    match l
    case Push(j) => FreshPushed(s, j);
    case Submit(j) => FreshSubmitted(s, j);
    case Notify(j, woken) => FreshIdle(s, j, Apply(s, l));
    case _ => FreshSame(s, Apply(s, l));
  }

  lemma FreshSame(s: State, t: State)
    requires Fresh(s) && t.pushed == s.pushed && t.submitters == s.submitters && t.next == s.next
    ensures Fresh(t)
  {
  }

  lemma FreshSubmitted(s: State, j: nat)
    requires Fresh(s) && Enabled(s, Submit(j))
    ensures Fresh(Apply(s, Submit(j)))
  {
    assert forall k | 0 <= k < |s.pushed| :: s.pushed[k] != s.next;
  }

  lemma FreshIdle(s: State, j: nat, t: State)
    requires Fresh(s) && j < |s.submitters|
    requires t.pushed == s.pushed && t.next == s.next && t.submitters == s.submitters[j := Idle]
    ensures Fresh(t)
  {
  }

  lemma FreshPushed(s: State, j: nat)
    requires Fresh(s) && Enabled(s, Push(j))
    ensures Fresh(Apply(s, Push(j)))
  {
    var t := s.submitters[j].task;
    assert forall k | 0 <= k < |s.pushed| + 1 :: (s.pushed + [t])[k] == if k < |s.pushed| then s.pushed[k] else t;
  }

  lemma RanKept(s: State, l: Label)
    requires Ran(s) && Enabled(s, l)
    ensures Ran(Apply(s, l))
  {
    hide InHand, Hand, Ran;
    IdleHands();
    match l {
      case Fetch(i) => RanFetched(s, i);
      case Finish(i) => RanFinished(s, i);
      case ReadStop(i) => RanMoved(s, i, if s.stop then AtEmpty else AtFetch);
      case ReadEmpty(i) => RanMoved(s, i, if s.queue == [] then Exited else AtFetch);
      case WakeUp(i) => RanMoved(s, i, AtFetch);
      case Notify(j, woken) => RanWoken(s.(submitters := s.submitters[j := Idle]), woken);
      case Poke(woken) => RanWoken(s, woken);
      case Broadcast => InHandWakeAll(s.workers);
      case _ =>
    }
    RanSame(s, Apply(s, l));
  }

  lemma IdleHands()
    ensures Hand(AtStop) == Hand(AtEmpty) == Hand(AtFetch) == Hand(Asleep) == Hand(Exited) == Hand(Running(Noop)) == multiset{}
    ensures forall t: nat :: Hand(Running(Real(t))) == multiset{t}
  {
  }

  lemma RanSame(s: State, t: State)
    ensures t.finished == s.finished && t.popped == s.popped && InHand(t.workers) == InHand(s.workers) ==> (Ran(t) <==> Ran(s))
  {
  }

  lemma RanMoved(s: State, i: nat, w: Worker)
    requires i < |s.workers| && Hand(s.workers[i]) == multiset{} && Hand(w) == multiset{}
    ensures InHand(Moved(s, i, w).workers) == InHand(s.workers)
  {
    EmptyHanded(s.workers, i, w);
  }

  lemma RanWoken(s: State, woken: Woken)
    requires Wakes(s, woken)
    ensures InHand(Wake(s, woken).workers) == InHand(s.workers)
  {
    hide InHand;
    if woken.Somebody? {
      EmptyHanded(s.workers, woken.worker, AtFetch);
    }
  }

  lemma RanFetched(s: State, i: nat)
    requires Ran(s) && At(s, i, AtFetch) && |s.noops| == |s.workers|
    ensures Ran(Fetched(s, i))
  {
    IdleHands();
    hide InHand, Hand;
    var t := Fetched(s, i);
    InHandUpdate(s.workers, i, t.workers[i]);
    if s.queue == [] {
      EmptyHanded(s.workers, i, t.workers[i]);
    } else {
      var q := s.queue[0];
      assert multiset(s.popped + [q]) == multiset(s.popped) + multiset{q};
      assert InHand(t.workers) == InHand(s.workers) + multiset{q};
    }
  }

  lemma RanFinished(s: State, i: nat)
    requires Ran(s) && Enabled(s, Finish(i))
    ensures Ran(Apply(s, Finish(i)))
  {
    hide InHand;
    var t := Apply(s, Finish(i));
    InHandUpdate(s.workers, i, AtStop);
    match s.workers[i].job
    case Noop => EmptyHanded(s.workers, i, AtStop);
    case Real(q) =>
      assert multiset(s.finished + [q]) == multiset(s.finished) + multiset{q};
      assert InHand(t.workers) + multiset{q} == InHand(s.workers);
      assert multiset(t.finished) + InHand(t.workers) == multiset(s.finished) + (InHand(t.workers) + multiset{q});
  }

  lemma FlagsKept(s: State, l: Label)
    requires Inv(s) && Enabled(s, l)
    ensures Flags(Apply(s, l))
  {
    hide Fifo, Fresh, Ran, NoNeedlessSleep, Exits, Joined, Quiet, NoNoopYet;
  }

  /** A worker that moves. */
  lemma SleepAfterMove(s: State, l: Label)
    requires Inv(s) && Enabled(s, l)
    requires l.ReadStop? || l.ReadEmpty? || l.Fetch? || l.WakeUp? || l.Finish?
    ensures NoNeedlessSleep(Apply(s, l))
  {
    hide Fifo, Fresh, Ran, Joined, Quiet, NoNoopYet, Sum, Pending;
    var t := Apply(s, l);
    SumUpdate(s.workers, l.i, t.workers[l.i], READY);
  }

  lemma SleepAfterSubmission(s: State, l: Label)
    requires Inv(s) && Enabled(s, l) && (l.Submit? || l.Push? || l.Notify?)
    ensures NoNeedlessSleep(Apply(s, l))
  {
    hide Fifo, Fresh, Ran, Exits, Joined, Quiet, NoNoopYet, Sum, Pending;
    var t := Apply(s, l);
    PendingUpdate(s.submitters, l.j, t.submitters[l.j]);
    if l.Notify? && l.woken.Somebody? {
      SumUpdate(s.workers, l.woken.worker, AtFetch, READY);
    }
  }

  lemma NoNeedlessSleepKept(s: State, l: Label)
    requires Inv(s) && Enabled(s, l)
    ensures NoNeedlessSleep(Apply(s, l))
  {
    hide Fifo, Fresh, Ran, Exits, Joined, Quiet, NoNoopYet, Sum, Pending;
    if l.ReadStop? || l.ReadEmpty? || l.Fetch? || l.WakeUp? || l.Finish? {
      SleepAfterMove(s, l);
    } else if l.Submit? || l.Push? || l.Notify? {
      SleepAfterSubmission(s, l);
    }
  }

  lemma ExitsMoved(s: State, l: Label)
    requires Fifo(s) && Exits(s) && Enabled(s, l)
    requires l.ReadStop? || l.ReadEmpty? || l.Fetch? || l.WakeUp? || l.Finish?
    ensures Exits(Apply(s, l))
  {
  }

  lemma ExitsOtherwise(s: State, l: Label)
    requires Exits(s) && Flags(s) && Enabled(s, l)
    requires !(l.ReadStop? || l.ReadEmpty? || l.Fetch? || l.WakeUp? || l.Finish?)
    ensures Exits(Apply(s, l))
  {
  }

  lemma ExitsKept(s: State, l: Label)
    requires Inv(s) && Enabled(s, l)
    ensures Exits(Apply(s, l))
  {
    hide Fifo, Fresh, Ran, Flags, NoNeedlessSleep, Exits, Joined, Quiet, NoNoopYet, Apply, Enabled;
    if l.ReadStop? || l.ReadEmpty? || l.Fetch? || l.WakeUp? || l.Finish? {
      ExitsMoved(s, l);
    } else {
      ExitsOtherwise(s, l);
    }
  }

  lemma JoinedMoved(s: State, l: Label)
    requires Joined(s) && Flags(s) && Enabled(s, l)
    requires l.ReadStop? || l.ReadEmpty? || l.Fetch? || l.WakeUp? || l.Finish?
    ensures Joined(Apply(s, l))
  {
  }

  /** A step of a submitter or of the stopping call. */
  lemma JoinedOtherwise(s: State, l: Label)
    requires Joined(s) && Flags(s) && Enabled(s, l)
    requires !(l.ReadStop? || l.ReadEmpty? || l.Fetch? || l.WakeUp? || l.Finish?)
    ensures Joined(Apply(s, l))
  {
  }

  lemma JoinedKept(s: State, l: Label)
    requires Inv(s) && Enabled(s, l)
    ensures Joined(Apply(s, l))
  {
    hide Fifo, Fresh, Ran, Flags, NoNeedlessSleep, Exits, Joined, Quiet, NoNoopYet, Apply, Enabled;
    if l.ReadStop? || l.ReadEmpty? || l.Fetch? || l.WakeUp? || l.Finish? {
      JoinedMoved(s, l);
    } else {
      JoinedOtherwise(s, l);
    }
  }

  /** Setting `stop_` while nobody is admitted. */
  lemma QuietBegins(s: State)
    requires Inv(s) && !s.stop
    ensures Quiet(Apply(s, Stop))
  {
    hide Fresh, Ran, NoNeedlessSleep, Joined;
  }

  lemma QuietFetched(s: State, i: nat)
    requires Quiet(s) && s.stop && At(s, i, AtFetch) && |s.noops| == |s.workers|
    ensures Quiet(Fetched(s, i))
  {
  }

  lemma QuietMoved(s: State, l: Label)
    requires Quiet(s) && s.stop && Enabled(s, l) && (l.ReadStop? || l.ReadEmpty? || l.WakeUp? || l.Finish?)
    ensures Quiet(Apply(s, l))
  {
  }

  lemma QuietGoesOn(s: State, l: Label)
    requires Quiet(s) && s.stop && Enabled(s, l)
    ensures Quiet(Apply(s, l))
  {
    if l.Fetch? {
      QuietFetched(s, l.i);
    } else if l.ReadStop? || l.ReadEmpty? || l.WakeUp? || l.Finish? {
      QuietMoved(s, l);
    }
  }

  lemma QuietKept(s: State, l: Label)
    requires Inv(s) && Enabled(s, l)
    ensures Quiet(Apply(s, l))
  {
    if s.stop {
      hide Quiet;
      QuietGoesOn(s, l);
    } else if l == Stop {
      hide Quiet;
      QuietBegins(s);
    }
  }

  lemma NoNoopYetKept(s: State, l: Label)
    requires Inv(s) && Enabled(s, l)
    ensures NoNoopYet(Apply(s, l))
  {
    hide Fresh, Ran, NoNeedlessSleep, Joined, Quiet, Exits;
  }

  lemma InvKept(s: State, l: Label)
    requires Inv(s) && Enabled(s, l)
    ensures Inv(Apply(s, l))
  {
    hide Enabled, Apply, Fifo, Fresh, Ran, Flags, NoNeedlessSleep, Exits, Joined, Quiet, NoNoopYet;
    FifoKept(s, l);
    FreshKept(s, l);
    RanKept(s, l);
    FlagsKept(s, l);
    NoNeedlessSleepKept(s, l);
    ExitsKept(s, l);
    JoinedKept(s, l);
    QuietKept(s, l);
    NoNoopYetKept(s, l);
  }

  lemma {:induction false} InvAfter(s: State, ls: seq<Label>)
    requires Inv(s) && Path(s, ls)
    ensures Inv(After(s, ls))
    decreases |ls|
  {
    hide Inv, Enabled, Apply;
    if ls != [] {
      InvKept(s, ls[0]);
      InvAfter(Apply(s, ls[0]), ls[1..]);
    }
  }

  /** In every run of a started executor, from its start to any point. */
  lemma AlwaysInv(workers: nat, submitters: nat, ls: seq<Label>)
    requires Path(Started(workers, submitters), ls)
    ensures Inv(After(Started(workers, submitters), ls))
  {
    StartedInv(workers, submitters);
    InvAfter(Started(workers, submitters), ls);
  }
}
