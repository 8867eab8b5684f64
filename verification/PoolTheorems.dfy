/** What the pool promises, over every run of any number of launches. */
module PoolTheorems {
  import opened PoolSystem

  ghost predicate Next(s: System, t: System) { exists step :: Enabled(s, step) && t == Apply(s, step) }

  ghost predicate IsRun(run: seq<System>) {
    |run| > 0 && Initial(run[0]) && forall i | 0 <= i < |run| - 1 :: Next(run[i], run[i + 1])
  }

  /** The invariant holds in every state of every run. */
  lemma {:induction false} RunKeepsInv(run: seq<System>, i: nat)
    requires IsRun(run) && i < |run|
    ensures Inv(run[i])
  {
    if i > 0 {
      RunKeepsInv(run, i - 1);
      assert Next(run[i - 1], run[i - 1 + 1]);
      var step :| Enabled(run[i - 1], step) && run[i] == Apply(run[i - 1], step);
      StepKeepsInv(run[i - 1], step);
    }
  }

  // ---- Each index once ---------------------------------------------------------

  lemma {:induction false} IndexOnce(s: System, j: nat, i: nat)
    requires Inv(s) && j < |s.launches| && i < s.launches[j].n
    ensures var l := s.launches[j];
            |l.begun| == |l.ended| == l.n && l.ended[i] <= l.begun[i] <= 1 && (l.stage.Returned? ==> l.ended[i] == 1)
              && (!Live(l) ==> l.begun[i] == 0)
  {
    var l := s.launches[j];
    assert LaunchOk(l) && OwnAt(l, i);
    if Live(l) && 1 <= i <= |l.taken| {
      assert SlotOk(s, j, i - 1);
    }
  }

  /** No index of a launch is ever called twice, and no call ends that has not begun. */
  lemma {:induction false} AtMostOnce(run: seq<System>, at: nat, j: nat, i: nat)
    requires IsRun(run) && at < |run| && j < |run[at].launches| && i < run[at].launches[j].n
    ensures var l := run[at].launches[j]; |l.begun| == |l.ended| == l.n && l.ended[i] <= l.begun[i] <= 1
  {
    RunKeepsInv(run, at);
    IndexOnce(run[at], j, i);
  }

  /**
   A launch returns only after every index 0 .. n - 1 has been called exactly once and every call has ended, whether or
   not the host refused it threads.
   */
  lemma {:induction false} ReturnsAfterAll(run: seq<System>, at: nat, j: nat, i: nat)
    requires IsRun(run) && at < |run| && j < |run[at].launches| && run[at].launches[j].stage == Returned
             && i < run[at].launches[j].n
    ensures var l := run[at].launches[j]; |l.begun| == |l.ended| == l.n && l.begun[i] == l.ended[i] == 1
  {
    RunKeepsInv(run, at);
    IndexOnce(run[at], j, i);
  }

  /** A task of the launch is posted to the worker or in its hands. */
  predicate WorksFor(w: Worker, j: nat) {
    match w.phase
    case Waiting => w.go && w.task.launch == j
    case Leaving(_) => w.go && w.task.launch == j
    case Taken(t) => t.launch == j
    case Cleared(t) => t.launch == j
    case Calling(t) => t.launch == j
    case Called(t) => t.launch == j
  }

  /** A launch has a worker that it has not started or given back yet, or that is at work for it. */
  predicate HasWorker(s: System, j: nat, x: nat) {
    j < |s.launches| && x < |s.workers| && (HoldsWorker(s.launches[j], x) || WorksFor(s.workers[x], j))
  }

  predicate HoldsWorker(l: Launch, x: nat) { exists k | 0 <= k < |l.taken| :: l.taken[k] == x && Holds(l, k) }

  /** A worker is on the idle list, its flag down and no task in its hands but one it has yet to count. */
  predicate InTheList(s: System, x: nat) {
    x < |s.workers| && x in s.idle && !s.workers[x].go && (s.workers[x].phase.Waiting? || s.workers[x].phase.Leaving?)
  }

  /**
   A strict launch that is refused has called nothing and started nothing, and every worker it took, once it has thrown,
   is back on the idle list, or another launch holds it since or has it at work.
   */
  lemma {:induction false} RefusalStartsNothing(run: seq<System>, at: nat, j: nat)
    requires IsRun(run) && at < |run| && j < |run[at].launches|
             && (run[at].launches[j].stage.Refusing? || run[at].launches[j].stage == Refused)
    ensures var l := run[at].launches[j];
            && l.strict && |l.begun| == l.n && (forall i | 0 <= i < l.n :: l.begun[i] == 0)
            && (forall x | 0 <= x < |run[at].workers| :: HasNoTaskOf(run[at].workers[x], j))
    ensures run[at].launches[j].stage == Refused ==>
              forall k | 0 <= k < |run[at].launches[j].taken| :: GivenBack(run[at], j, run[at].launches[j].taken[k])
  {
    var s := run[at];
    RunKeepsInv(run, at);
    assert LaunchOk(s.launches[j]);
    forall i | 0 <= i < s.launches[j].n
      ensures s.launches[j].begun[i] == 0
    {
      IndexOnce(s, j, i);
    }
    forall x | 0 <= x < |s.workers|
      ensures HasNoTaskOf(s.workers[x], j)
    {
      assert WorkerOk(s, x);
    }
    if s.launches[j].stage == Refused {
      forall k | 0 <= k < |s.launches[j].taken|
        ensures GivenBack(s, j, s.launches[j].taken[k])
      {
        WorkerIsSomewhere(s, j, k);
      }
    }
  }

  /** No task of the launch is in the worker's hands, posted to it or yet to be counted. */
  predicate HasNoTaskOf(w: Worker, j: nat) {
    match w.phase
    case Waiting => w.go ==> w.task.launch != j
    case Leaving(t) => t.launch != j && (w.go ==> w.task.launch != j)
    case Taken(t) => t.launch != j
    case Cleared(t) => t.launch != j
    case Calling(t) => t.launch != j
    case Called(t) => t.launch != j
  }

  predicate GivenBack(s: System, j: nat, x: nat) {
    InTheList(s, x) || exists i | 0 <= i < |s.launches| :: i != j && HasWorker(s, i, x)
  }

  lemma {:induction false} WorkerIsSomewhere(s: System, j: nat, k: nat)
    requires Inv(s) && j < |s.launches| && s.launches[j].stage == Refused && k < |s.launches[j].taken|
    ensures GivenBack(s, j, s.launches[j].taken[k])
  {
    assert SlotOk(s, j, k);
    var x := s.launches[j].taken[k];
    assert WorkerOk(s, x);
    match s.workers[x].owner
    case Idle => assert InTheList(s, x);
    case Held(i, m) =>
      assert HoldsWorker(s.launches[i], x);
      assert HasWorker(s, i, x);
    case Busy(t) => assert HasWorker(s, t.launch, x);
  }

  /**
   A strict launch starts its tasks only with a thread for each, all different, none of them busy with anything else it
   started.
   */
  lemma {:induction false} StrictHasThreads(run: seq<System>, at: nat, j: nat)
    requires IsRun(run) && at < |run| && j < |run[at].launches| && run[at].launches[j].strict
             && Live(run[at].launches[j]) && run[at].launches[j].n > 1
    ensures var l := run[at].launches[j]; |l.taken| == l.n - 1 && Distinct(l.taken)
  {
    RunKeepsInv(run, at);
    assert LaunchOk(run[at].launches[j]) && Distinct(run[at].launches[j].taken);
  }

  // ---- No task is lost ---------------------------------------------------------

  /**
   A task is only ever put where no task is: the worker's flag is down and it is not moving one out, though it may not
   have counted its last one yet.
   */
  lemma {:induction false} NoTaskOverwritten(run: seq<System>, at: nat, j: nat, act: LaunchAction)
    requires IsRun(run) && at < |run| && j < |run[at].launches| && (act == WriteTask || act == SetGo)
             && LaunchEnabled(run[at], run[at].launches[j], act)
    ensures var w := run[at].workers[NextHeld(run[at], j, act)];
            && !w.go && (w.phase.Waiting? || w.phase.Leaving?)
            && (act == SetGo ==> w.task == Task(j, run[at].launches[j].stage.next + 1))
  {
    RunKeepsInv(run, at);
    HeldIsFree(run[at], j, act);
  }

  /**
   What a worker takes is what it was started with: a started task of a launch that waits for it, given to this worker.
   */
  lemma {:induction false} TakesItsTask(run: seq<System>, at: nat, x: nat)
    requires IsRun(run) && at < |run| && x < |run[at].workers| && WorkerEnabled(run[at], run[at].workers[x], Take)
    ensures var w := run[at].workers[x]; w.owner == Busy(w.task) && TaskOk(run[at], x, w.task)
  {
    RunKeepsInv(run, at);
    WorkerHasTask(run[at], x, Take);
  }

  // ---- Progress ----------------------------------------------------------------

  predicate Finished(l: Launch) { l.stage == Returned || l.stage == Refused }

  /** While a launch has not finished, some launch or worker can take a step. */
  lemma {:induction false} NeverStuck(s: System, j: nat) returns (step: Step)
    requires Inv(s) && j < |s.launches| && !Finished(s.launches[j])
    ensures !step.Run? && Enabled(s, step)
  {
    var l := s.launches[j];
    assert LaunchOk(l);
    match l.stage
    case Taking =>
      if |l.taken| + 1 < l.n && s.idle != [] {
        step := OfLaunch(j, Pop);
      } else {
        step := OfLaunch(j, EndTaking);
      }
    case Making => step := OfLaunch(j, if |l.taken| + 1 < l.n then Make else BeginStart);
    case Refusing(i) =>
      if i < |l.taken| {
        assert SlotOk(s, j, i);
      }
      step := OfLaunch(j, if i < |l.taken| then PushBack else Throw);
    case Starting(i, written) =>
      if i < |l.taken| {
        assert SlotOk(s, j, i);
      }
      step := OfLaunch(j, if i >= |l.taken| then EndStart else if written then SetGo else WriteTask);
    case Own(k, inside) =>
      if inside {
        step := OfLaunch(j, EndOwn);
      } else if k < l.n {
        step := OfLaunch(j, CallOwn);
      } else if l.pending == 0 {
        step := OfLaunch(j, Return);
      } else {
        step := WorkerCanMove(s, j);
      }
  }

  /** A launch that waits has a task some worker can go on with. */
  lemma {:induction false} WorkerCanMove(s: System, j: nat) returns (step: Step)
    requires Inv(s) && j < |s.launches| && s.launches[j].stage.Own? && s.launches[j].pending > 0
    ensures step.OfWorker? && Enabled(s, step)
  {
    var l := s.launches[j];
    assert LaunchOk(l);
    var i :| i in l.left;
    assert SlotOk(s, j, i - 1);
    var x := l.taken[i - 1];
    var w := s.workers[x];
    assert WorkerOk(s, x);
    var does := match w.phase
                case Waiting => Take
                case Taken(_) => ClearGo
                case Cleared(_) => Call
                case Calling(_) => EndCall
                case Called(_) => GiveBack
                case Leaving(_) => Count;
    step := OfWorker(x, does);
    if w.phase.Leaving? {
      var u := w.phase.t;
      assert LaunchOk(s.launches[u.launch]);
      assert u.index in s.launches[u.launch].left;
    }
  }

  /** Steps a launch has ahead of it, counting those its unstarted tasks will take. */
  function LaunchWork(l: Launch): int {
    match l.stage
    case Returned => 0
    case Refused => 0
    case Own(k, inside) => 1 + 2 * (l.n - k) - (if inside then 1 else 0)
    case Starting(i, written) => 2 + 2 * l.n + 9 * (|l.taken| - i) - (if written then 1 else 0)
    case Refusing(i) => 1 + |l.taken| - i
    case Making => 4 + 12 * l.n - |l.taken|
    case Taking => 5 + 12 * l.n - |l.taken|
  }

  function WorkerWork(w: Worker): nat {
    match w.phase
    case Waiting => if w.go then 6 else 0
    case Taken(_) => 5
    case Cleared(_) => 4
    case Calling(_) => 3
    case Called(_) => 2
    case Leaving(_) => if w.go then 7 else 1
  }

  function LaunchesWork(ls: seq<Launch>): int { if ls == [] then 0 else LaunchWork(ls[0]) + LaunchesWork(ls[1..]) }

  function WorkersWork(ws: seq<Worker>): nat { if ws == [] then 0 else WorkerWork(ws[0]) + WorkersWork(ws[1..]) }

  function Work(s: System): int { LaunchesWork(s.launches) + WorkersWork(s.workers) }

  lemma {:induction false} LaunchesWorkUpdates(ls: seq<Launch>, j: nat, l: Launch)
    requires j < |ls|
    ensures LaunchesWork(ls[j := l]) == LaunchesWork(ls) - LaunchWork(ls[j]) + LaunchWork(l)
  {
    if j > 0 {
      assert ls[j := l][1..] == ls[1..][j - 1 := l];
      LaunchesWorkUpdates(ls[1..], j - 1, l);
    } else {
      assert ls[j := l][1..] == ls[1..];
    }
  }

  lemma {:induction false} WorkersWorkUpdates(ws: seq<Worker>, x: nat, w: Worker)
    requires x < |ws|
    ensures WorkersWork(ws[x := w]) == WorkersWork(ws) - WorkerWork(ws[x]) + WorkerWork(w)
  {
    if x > 0 {
      assert ws[x := w][1..] == ws[1..][x - 1 := w];
      WorkersWorkUpdates(ws[1..], x - 1, w);
    } else {
      assert ws[x := w][1..] == ws[1..];
    }
  }

  lemma {:induction false} WorkersWorkAppends(ws: seq<Worker>, w: Worker)
    ensures WorkersWork(ws + [w]) == WorkersWork(ws) + WorkerWork(w)
  {
    if ws == [] {
      assert ws + [w] == [w];
    } else {
      assert (ws + [w])[1..] == ws[1..] + [w];
      WorkersWorkAppends(ws[1..], w);
    }
  }

  /** The work of a system whose launches are well formed is never negative. */
  lemma {:induction false} WorkIsNatural(ls: seq<Launch>)
    requires forall j | 0 <= j < |ls| :: LaunchOk(ls[j])
    ensures LaunchesWork(ls) >= 0
  {
    if ls != [] {
      assert LaunchOk(ls[0]);
      WorkIsNatural(ls[1..]);
    }
  }

  lemma {:induction false} AloneTakesWork(s: System, j: nat, act: LaunchAction)
    requires Inv(s) && j < |s.launches| && LaunchAlone(act) && LaunchEnabled(s, s.launches[j], act)
    ensures Work(LaunchStep(s, j, act)) < Work(s)
  {
    assert LaunchOk(s.launches[j]);
    AloneLessens(s, j, act);
    LaunchesWorkUpdates(s.launches, j, LaunchStep(s, j, act).launches[j]);
  }

  lemma {:induction false} AloneLessens(s: System, j: nat, act: LaunchAction)
    requires j < |s.launches| && ShapeOk(s.launches[j]) && LaunchAlone(act) && LaunchEnabled(s, s.launches[j], act)
    ensures LaunchStep(s, j, act).workers == s.workers
            && LaunchWork(LaunchStep(s, j, act).launches[j]) < LaunchWork(s.launches[j])
  {
  }

  lemma {:induction false} HeldTakesWork(s: System, j: nat, act: LaunchAction)
    requires Inv(s) && j < |s.launches| && OnHeld(act) && LaunchEnabled(s, s.launches[j], act)
    ensures Work(LaunchStep(s, j, act)) < Work(s)
  {
    var t, x := LaunchStep(s, j, act), NextHeld(s, j, act);
    HeldIsFree(s, j, act);
    HeldLessens(s, j, act);
    LaunchesWorkUpdates(s.launches, j, t.launches[j]);
    WorkersWorkUpdates(s.workers, x, t.workers[x]);
  }

  lemma {:induction false} HeldLessens(s: System, j: nat, act: LaunchAction)
    requires j < |s.launches| && OnHeld(act) && LaunchEnabled(s, s.launches[j], act)
    requires var w := s.workers[NextHeld(s, j, act)]; !w.go && (w.phase.Waiting? || w.phase.Leaving?)
    ensures var t, x := LaunchStep(s, j, act), NextHeld(s, j, act);
            && t.launches == s.launches[j := t.launches[j]] && t.workers == s.workers[x := t.workers[x]]
            && LaunchWork(t.launches[j]) + WorkerWork(t.workers[x])
               < LaunchWork(s.launches[j]) + WorkerWork(s.workers[x])
  {
  }

  lemma {:induction false} PopTakesWork(s: System, j: nat)
    requires Inv(s) && j < |s.launches| && LaunchEnabled(s, s.launches[j], Pop)
    ensures Work(LaunchStep(s, j, Pop)) < Work(s)
  {
    var t, x := LaunchStep(s, j, Pop), s.idle[|s.idle| - 1];
    LaunchesWorkUpdates(s.launches, j, t.launches[j]);
    WorkersWorkUpdates(s.workers, x, t.workers[x]);
  }

  lemma {:induction false} MakeTakesWork(s: System, j: nat)
    requires Inv(s) && j < |s.launches| && LaunchEnabled(s, s.launches[j], Make)
    ensures Work(LaunchStep(s, j, Make)) < Work(s)
  {
    LaunchesWorkUpdates(s.launches, j, LaunchStep(s, j, Make).launches[j]);
    WorkersWorkAppends(s.workers, Worker(false, Task(0, 0), Waiting, Held(j, |s.launches[j].taken|)));
  }

  lemma {:induction false} WorkerTakesWork(s: System, x: nat, does: WorkerAction)
    requires Inv(s) && x < |s.workers| && WorkerEnabled(s, s.workers[x], does)
    ensures Work(WorkerStep(s, x, does)) < Work(s)
  {
    WorkerHasTask(s, x, does);
    WorkerLessens(s, x, does);
    var t, j := WorkerStep(s, x, does), TaskOf(s.workers[x]).launch;
    WorkersWorkUpdates(s.workers, x, t.workers[x]);
    LaunchesWorkUpdates(s.launches, j, t.launches[j]);
  }

  lemma {:induction false} WorkerLessens(s: System, x: nat, does: WorkerAction)
    requires x < |s.workers| && WorkerEnabled(s, s.workers[x], does) && TaskOf(s.workers[x]).launch < |s.launches|
    requires does != Count ==> (s.workers[x].go <==> s.workers[x].phase.Waiting? || s.workers[x].phase.Taken?)
    ensures var t, j := WorkerStep(s, x, does), TaskOf(s.workers[x]).launch;
            && t.launches == s.launches[j := t.launches[j]] && t.workers == s.workers[x := t.workers[x]]
            && LaunchWork(t.launches[j]) == LaunchWork(s.launches[j])
            && WorkerWork(t.workers[x]) < WorkerWork(s.workers[x])
  {
  }

  /** Every step but a new call of run leaves less to do. */
  lemma {:induction false} StepTakesWork(s: System, step: Step)
    requires Inv(s) && Enabled(s, step) && !step.Run?
    ensures Work(Apply(s, step)) < Work(s)
  {
    match step
    case OfWorker(x, does) => WorkerTakesWork(s, x, does);
    case OfLaunch(j, act) =>
      if act == Pop {
        PopTakesWork(s, j);
      } else if act == Make {
        MakeTakesWork(s, j);
      } else if OnHeld(act) {
        HeldTakesWork(s, j, act);
      } else {
        AloneTakesWork(s, j, act);
      }
  }

  ghost predicate Quiet(s: System, t: System) { exists step :: Enabled(s, step) && !step.Run? && t == Apply(s, step) }

  /** However the steps interleave, no more of them than the work there is can be taken without a new launch. */
  lemma {:induction false} LaunchesEnd(states: seq<System>)
    requires |states| > 0 && Inv(states[0]) && forall i | 0 <= i < |states| - 1 :: Quiet(states[i], states[i + 1])
    ensures Inv(states[|states| - 1]) && 0 <= Work(states[|states| - 1]) <= Work(states[0]) - (|states| - 1)
  {
    WorkIsNatural(states[0].launches);
    for i := 0 to |states| - 1
      invariant Lessened(states[0], states[i], i)
    {
      assert Quiet(states[i], states[i + 1]);
      QuietLessens(states[0], states[i], states[i + 1], i);
    }
  }

  ghost predicate Lessened(s: System, t: System, steps: nat) { Inv(t) && 0 <= Work(t) <= Work(s) - steps }

  lemma {:induction false} QuietLessens(s: System, t: System, u: System, steps: nat)
    requires Lessened(s, t, steps) && Quiet(t, u)
    ensures Lessened(s, u, steps + 1)
  {
    var step :| Enabled(t, step) && !step.Run? && u == Apply(t, step);
    StepKeepsInv(t, step);
    StepTakesWork(t, step);
    WorkIsNatural(u.launches);
  }

  // ---- A strict launch's tasks meet --------------------------------------------

  /** A step that starts no launch and ends no call of launch j. */
  ghost predicate EndsNothing(s: System, t: System, j: nat) {
    && Quiet(s, t) && j < |s.launches| && j < |t.launches|
    && t.launches[j].n == s.launches[j].n && t.launches[j].ended == s.launches[j].ended
  }

  predicate AllBegun(l: Launch) { |l.begun| == l.n && forall i | 0 <= i < l.n :: l.begun[i] == 1 }

  /**
   While a strict launch that was accepted has an index not called, a step leads there without any of its calls ending.
   */
  lemma {:induction false} NextToBegin(s: System, j: nat) returns (step: Step)
    requires Inv(s) && j < |s.launches| && s.launches[j].strict && Live(s.launches[j]) && !AllBegun(s.launches[j])
    ensures !step.Run? && Enabled(s, step) && EndsNothing(s, Apply(s, step), j)
    ensures Apply(s, step).launches[j].strict && Live(Apply(s, step).launches[j])
  {
    var l := s.launches[j];
    assert LaunchOk(l);
    var i :| 0 <= i < l.n && l.begun[i] != 1;
    IndexOnce(s, j, i);
    if l.stage.Starting? {
      step := NextToStart(s, j);
    } else if l.stage == Own(0, false) {
      step := OfLaunch(j, CallOwn);
    } else {
      assert OwnAt(l, i) && OwnAt(l, 0);
      step := NextOfTask(s, j, i);
    }
    StepIsQuiet(s, step, j);
  }

  lemma {:induction false} NextToStart(s: System, j: nat) returns (step: Step)
    requires Inv(s) && j < |s.launches| && s.launches[j].stage.Starting?
    ensures step.OfLaunch? && step.j == j && Enabled(s, step)
            && (step.act == EndStart || step.act == SetGo || step.act == WriteTask)
  {
    var l := s.launches[j];
    assert LaunchOk(l);
    if l.stage.next < |l.taken| {
      assert SlotOk(s, j, l.stage.next);
    }
    step := OfLaunch(j, if l.stage.next >= |l.taken| then EndStart else if l.stage.written then SetGo else WriteTask);
  }

  /** A started task that has not been called: its worker moves it on, or first counts the task it did before. */
  lemma {:induction false} NextOfTask(s: System, j: nat, i: nat) returns (step: Step)
    requires Inv(s) && j < |s.launches| && Live(s.launches[j]) && 1 <= i <= Started(s.launches[j])
             && i <= |s.launches[j].taken|
    requires i < s.launches[j].n == |s.launches[j].begun| && s.launches[j].begun[i] == 0
    ensures step.OfWorker? && Enabled(s, step)
            && (step.does == Take || step.does == ClearGo || step.does == Call || step.does == Count)
  {
    assert SlotOk(s, j, i - 1);
    var x := s.launches[j].taken[i - 1];
    var w := s.workers[x];
    assert WorkerOk(s, x);
    var does := match w.phase case Waiting => Take case Taken(_) => ClearGo case Cleared(_) => Call case _ => Count;
    step := OfWorker(x, does);
    if w.phase.Leaving? {
      assert LaunchOk(s.launches[w.phase.t.launch]) && w.phase.t.index in s.launches[w.phase.t.launch].left;
    }
  }

  lemma {:induction false} StepIsQuiet(s: System, step: Step, j: nat)
    requires Enabled(s, step) && j < |s.launches| && Live(s.launches[j])
    requires match step
             case Run(_, _) => false
             case OfLaunch(i, act) => i == j && (act == EndStart || act == SetGo || act == WriteTask || act == CallOwn)
             case OfWorker(_, does) => does == Take || does == ClearGo || does == Call || does == Count
    ensures EndsNothing(s, Apply(s, step), j) && Apply(s, step).launches[j].strict == s.launches[j].strict
            && Live(Apply(s, step).launches[j])
  {
  }

  ghost predicate MeetingPath(path: seq<System>, j: nat) {
    |path| > 0 && forall i | 0 <= i < |path| - 1 :: EndsNothing(path[i], path[i + 1], j)
  }

  /**
   From any state with a strict launch accepted, steps that end none of its calls lead to every one of its indices
   having been called: all that had not ended are in their calls at once.
   */
  lemma {:induction false} StrictTasksMeet(s: System, j: nat) returns (path: seq<System>)
    requires Inv(s) && j < |s.launches| && s.launches[j].strict && Live(s.launches[j])
    ensures MeetingPath(path, j) && path[0] == s
    ensures var t := path[|path| - 1];
            j < |t.launches| && t.launches[j].ended == s.launches[j].ended && AllBegun(t.launches[j])
    decreases WorkOf(s)
  {
    if AllBegun(s.launches[j]) {
      path := [s];
    } else {
      var step := NextToBegin(s, j);
      StepKeepsInv(s, step);
      StepTakesWork(s, step);
      WorkIsNatural(Apply(s, step).launches);
      var rest := StrictTasksMeet(Apply(s, step), j);
      path := [s] + rest;
      PathGrows(s, rest, j);
    }
  }

  function WorkOf(s: System): nat { if Work(s) > 0 then Work(s) else 0 }

  lemma {:induction false} PathGrows(s: System, rest: seq<System>, j: nat)
    requires MeetingPath(rest, j) && EndsNothing(s, rest[0], j)
    ensures MeetingPath([s] + rest, j)
  {
    var path := [s] + rest;
    forall i | 0 <= i < |path| - 1
      ensures EndsNothing(path[i], path[i + 1], j)
    {
      if i > 0 {
        assert EndsNothing(rest[i - 1], rest[i - 1 + 1], j);
      }
    }
  }
}
