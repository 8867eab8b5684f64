/**
 The thread pool as a step machine: any number of launches and workers, every shared store a step of its own. Each push
 or pop of the idle list is one step, finer than the lock sections it happens in, so every run of the pool is a run
 here. `owner` and `left` are history: no step looks at them.
 */
module PoolSystem {
  datatype Task = Task(launch: nat, index: nat)

  /**
   A worker's thread: waiting for `go`, having moved the task out, past the store that clears `go`, in the call, past
   it, and back on the idle list but not counted.
   */
  datatype Phase = Waiting | Taken(t: Task) | Cleared(t: Task) | Calling(t: Task) | Called(t: Task) | Leaving(t: Task)

  /** Whose a worker is: the pool's, a launch's that has not started it, or a task's. */
  datatype Owner = Idle | Held(launch: nat, slot: nat) | Busy(task: Task)

  datatype Worker = Worker(go: bool, task: Task, phase: Phase, owner: Owner)

  /**
   Where a launch is: taking idle workers, making more, giving back those it took, starting task next + 1 (its fields
   written or not), at its own call next (inside it or not).
   */
  datatype Stage = Taking | Making | Refusing(next: nat) | Refused | Starting(next: nat, written: bool)
      | Own(next: nat, inside: bool) | Returned

  /**
   A call of run. `begun` and `ended` are history: how often each index has been called, and how many of those calls
   have ended.
   */
  datatype Launch = Launch(n: nat, strict: bool, stage: Stage, taken: seq<nat>, pending: nat, left: set<nat>,
                           begun: seq<nat>, ended: seq<nat>)

  datatype System = System(workers: seq<Worker>, idle: seq<nat>, launches: seq<Launch>)

  datatype LaunchAction = Pop | EndTaking | Make | Deny | PushBack | Throw | BeginStart | WriteTask | SetGo | EndStart
      | CallOwn | EndOwn | Return
  datatype WorkerAction = Take | ClearGo | Call | EndCall | GiveBack | Count

  /** A new call of run, or a launch's step, or a worker's. */
  datatype Step = Run(n: nat, strict: bool) | OfLaunch(j: nat, act: LaunchAction) | OfWorker(x: nat, does: WorkerAction)

  function Zeros(n: nat): (z: seq<nat>)
    ensures |z| == n && forall i | 0 <= i < n :: z[i] == 0
  {
    seq(n, i => 0)
  }

  function Indices(n: nat): set<nat> { if n == 0 then {} else Indices(n - 1) + {n} }

  lemma {:induction false} IndicesAre(n: nat)
    ensures |Indices(n)| == n && forall i: nat :: i in Indices(n) <==> 1 <= i <= n
  {
    if n > 0 {
      IndicesAre(n - 1);
    }
  }

  /** One task alone, or none, needs no worker. */
  function NewLaunch(n: nat, strict: bool): Launch {
    if n <= 1 then Launch(n, strict, Own(0, false), [], 0, {}, Zeros(n), Zeros(n))
    else Launch(n, strict, Taking, [], n - 1, {}, Zeros(n), Zeros(n))
  }

  function Bumped(c: seq<nat>, i: nat): (r: seq<nat>)
    ensures |r| == |c|
  {
    if i < |c| then c[i := c[i] + 1] else c
  }

  function Started(l: Launch): nat {
    match l.stage
    case Starting(i, _) => i
    case Own(_, _) => |l.taken|
    case Returned => |l.taken|
    case _ => 0
  }

  predicate Live(l: Launch) { l.stage.Starting? || l.stage.Own? || l.stage.Returned? }
  /** A slot's worker has not been started or given back yet. */
  predicate Holds(l: Launch, k: nat) {
    match l.stage
    case Taking => true
    case Making => true
    case Refusing(i) => i <= k
    case Starting(i, _) => i <= k
    case _ => false
  }

  // ---- Steps -------------------------------------------------------------------

  predicate LaunchEnabled(s: System, l: Launch, act: LaunchAction) {
    match act
    case Pop => l.stage == Taking && |l.taken| + 1 < l.n && s.idle != [] && s.idle[|s.idle| - 1] < |s.workers|
    case EndTaking => l.stage == Taking && (|l.taken| + 1 >= l.n || s.idle == [])
    case Make => l.stage == Making && |l.taken| + 1 < l.n
    case Deny => l.stage == Making && |l.taken| + 1 < l.n
    case BeginStart => l.stage == Making && |l.taken| + 1 >= l.n
    case PushBack => l.stage.Refusing? && l.stage.next < |l.taken| && l.taken[l.stage.next] < |s.workers|
    case Throw => l.stage.Refusing? && l.stage.next >= |l.taken|
    case WriteTask => l.stage.Starting? && !l.stage.written && l.stage.next < |l.taken|
                      && l.taken[l.stage.next] < |s.workers|
    case SetGo => l.stage.Starting? && l.stage.written && l.stage.next < |l.taken|
                  && l.taken[l.stage.next] < |s.workers|
    case EndStart => l.stage.Starting? && !l.stage.written && l.stage.next >= |l.taken|
    case CallOwn => l.stage.Own? && !l.stage.inside && l.stage.next < l.n
    case EndOwn => l.stage.Own? && l.stage.inside
    case Return => l.stage.Own? && !l.stage.inside && l.stage.next >= l.n && l.pending == 0
  }

  predicate WorkerEnabled(s: System, w: Worker, does: WorkerAction) {
    match does
    case Take => w.phase == Waiting && w.go
    case ClearGo => w.phase.Taken?
    case Call => w.phase.Cleared? && w.phase.t.launch < |s.launches|
    case EndCall => w.phase.Calling? && w.phase.t.launch < |s.launches|
    case GiveBack => w.phase.Called?
    case Count => w.phase.Leaving? && w.phase.t.launch < |s.launches| && s.launches[w.phase.t.launch].pending > 0
  }

  predicate Enabled(s: System, step: Step) {
    match step
    case Run(_, _) => true
    case OfLaunch(j, act) => j < |s.launches| && LaunchEnabled(s, s.launches[j], act)
    case OfWorker(x, does) => x < |s.workers| && WorkerEnabled(s, s.workers[x], does)
  }

  function WithLaunch(s: System, j: nat, l: Launch): System
    requires j < |s.launches|
  {
    s.(launches := s.launches[j := l])
  }

  function WithWorker(s: System, x: nat, w: Worker): System
    requires x < |s.workers|
  {
    s.(workers := s.workers[x := w])
  }

  function Starts(l: Launch): Launch {
    l.(stage := Starting(0, false), pending := |l.taken|, left := Indices(|l.taken|))
  }

  function LaunchStep(s: System, j: nat, act: LaunchAction): System
    requires j < |s.launches| && LaunchEnabled(s, s.launches[j], act)
  {
    var l := s.launches[j];
    match act
    case Pop =>
      var x := s.idle[|s.idle| - 1];
      WithLaunch(WithWorker(s, x, s.workers[x].(owner := Held(j, |l.taken|))), j,
                 l.(taken := l.taken + [x])).(idle := s.idle[..|s.idle| - 1])
    case EndTaking => WithLaunch(s, j, l.(stage := Making))
    case Make =>
      WithLaunch(s, j, l.(taken := l.taken + [|s.workers|])).(
        workers := s.workers + [Worker(false, Task(0, 0), Waiting, Held(j, |l.taken|))])
    case Deny => WithLaunch(s, j, if l.strict then l.(stage := Refusing(0)) else Starts(l))
    case BeginStart => WithLaunch(s, j, Starts(l))
    case PushBack =>
      var x := l.taken[l.stage.next];
      WithLaunch(WithWorker(s, x, s.workers[x].(owner := Idle)), j,
                 l.(stage := Refusing(l.stage.next + 1))).(idle := s.idle + [x])
    case Throw => WithLaunch(s, j, l.(stage := Refused))
    case WriteTask =>
      var x := l.taken[l.stage.next];
      WithLaunch(WithWorker(s, x, s.workers[x].(task := Task(j, l.stage.next + 1))), j,
                 l.(stage := Starting(l.stage.next, true)))
    case SetGo =>
      var x := l.taken[l.stage.next];
      WithLaunch(WithWorker(s, x, s.workers[x].(go := true, owner := Busy(Task(j, l.stage.next + 1)))), j,
                 l.(stage := Starting(l.stage.next + 1, false)))
    case EndStart => WithLaunch(s, j, l.(stage := Own(0, false)))
    case CallOwn => WithLaunch(s, j, l.(stage := Own(l.stage.next, true), begun := Bumped(l.begun, l.stage.next)))
    case EndOwn =>
      WithLaunch(s, j, l.(stage := Own(if l.stage.next == 0 then |l.taken| + 1 else l.stage.next + 1, false),
                          ended := Bumped(l.ended, l.stage.next)))
    case Return => WithLaunch(s, j, l.(stage := Returned))
  }

  function WorkerStep(s: System, x: nat, does: WorkerAction): System
    requires x < |s.workers| && WorkerEnabled(s, s.workers[x], does)
  {
    var w := s.workers[x];
    match does
    case Take => WithWorker(s, x, w.(phase := Taken(w.task)))
    case ClearGo => WithWorker(s, x, w.(phase := Cleared(w.phase.t), go := false))
    case Call =>
      var l := s.launches[w.phase.t.launch];
      WithLaunch(WithWorker(s, x, w.(phase := Calling(w.phase.t))), w.phase.t.launch,
                 l.(begun := Bumped(l.begun, w.phase.t.index)))
    case EndCall =>
      var l := s.launches[w.phase.t.launch];
      WithLaunch(WithWorker(s, x, w.(phase := Called(w.phase.t))), w.phase.t.launch,
                 l.(ended := Bumped(l.ended, w.phase.t.index)))
    case GiveBack => WithWorker(s, x, w.(phase := Leaving(w.phase.t), owner := Idle)).(idle := s.idle + [x])
    case Count =>
      var l := s.launches[w.phase.t.launch];
      WithLaunch(WithWorker(s, x, w.(phase := Waiting)), w.phase.t.launch,
                 l.(pending := l.pending - 1, left := l.left - {w.phase.t.index}))
  }

  function Apply(s: System, step: Step): System
    requires Enabled(s, step)
  {
    match step
    case Run(n, strict) => s.(launches := s.launches + [NewLaunch(n, strict)])
    case OfLaunch(j, act) => LaunchStep(s, j, act)
    case OfWorker(x, does) => WorkerStep(s, x, does)
  }

  // ---- The invariant -----------------------------------------------------------

  /** How far a worker is with a task. */
  datatype View = Absent | Before | Inside | After

  function ViewOf(w: Worker, t: Task): View {
    match w.phase
    case Taken(u) => if u == t then Before else Absent
    case Cleared(u) => if u == t then Before else Absent
    case Calling(u) => if u == t then Inside else Absent
    case Called(u) => if u == t then After else Absent
    case Leaving(u) => if u == t then After else if w.owner == Busy(t) then Before else Absent
    case Waiting => if w.owner == Busy(t) then Before else Absent
  }

  predicate ShapeOk(l: Launch) {
    && |l.begun| == |l.ended| == l.n && (|l.taken| + 1 <= l.n || l.taken == [])
    && (l.n <= 1 ==> Live(l))
    && match l.stage
       case Refusing(i) => i <= |l.taken| && l.strict
       case Refused => l.strict
       case Starting(i, written) => i <= |l.taken| && (written ==> i < |l.taken|)
       case Own(k, inside) => k <= l.n && (k == 0 || k > |l.taken|) && (inside ==> k < l.n)
       case _ => true
  }

  predicate CountOk(l: Launch) {
    && (forall i | i in l.left :: 1 <= i <= |l.taken|)
    && (Live(l) ==> l.pending == |l.left| && (l.strict && l.n > 1 ==> |l.taken| + 1 == l.n))
    && (l.stage.Returned? ==> l.pending == 0)
    && (!Live(l) ==> l.left == {})
  }

  function OwnNext(l: Launch): nat { match l.stage case Own(k, _) => k case Returned => l.n case _ => 0 }

  /** An index the caller runs itself, or any index of a launch that has started nothing. */
  predicate OwnAt(l: Launch, i: nat)
    requires |l.begun| == |l.ended| == l.n && i < l.n
  {
    && (!Live(l) ==> l.begun[i] == l.ended[i] == 0)
    && (Live(l) && (i == 0 || i > |l.taken|) ==>
          && l.begun[i] == (if i < OwnNext(l) || l.stage == Own(i, true) then 1 else 0)
          && l.ended[i] == (if i < OwnNext(l) then 1 else 0))
  }

  predicate OwnOk(l: Launch) { |l.begun| == |l.ended| == l.n && forall i | 0 <= i < l.n :: OwnAt(l, i) }

  /** The task of slot k of launch j, and the worker that has it. */
  predicate SlotOk(s: System, j: nat, k: nat)
    requires j < |s.launches| && k < |s.launches[j].taken|
  {
    var l, x, t := s.launches[j], s.launches[j].taken[k], Task(j, k + 1);
    && x < |s.workers| && |l.begun| == |l.ended| == l.n && k + 1 < l.n
    && (Holds(l, k) ==> s.workers[x].owner == Held(j, k) && (l.stage == Starting(k, true) ==> s.workers[x].task == t))
    && (Live(l) && k >= Started(l) ==> k + 1 in l.left && l.begun[k + 1] == l.ended[k + 1] == 0)
    && (k < Started(l) && k + 1 !in l.left ==> l.begun[k + 1] == l.ended[k + 1] == 1)
    && (k < Started(l) && k + 1 in l.left ==>
          var v := ViewOf(s.workers[x], t);
          && v != Absent && l.begun[k + 1] == (if v == Before then 0 else 1)
          && l.ended[k + 1] == (if v == After then 1 else 0))
  }

  /** A worker's task is a started one that has not been counted, and the worker is the one it was given to. */
  predicate TaskOk(s: System, x: nat, t: Task) {
    t.launch < |s.launches| && var l := s.launches[t.launch];
    Live(l) && 1 <= t.index <= Started(l) && Started(l) <= |l.taken| && l.taken[t.index - 1] == x && t.index in l.left
  }

  predicate WorkerOk(s: System, x: nat)
    requires x < |s.workers|
  {
    var w := s.workers[x];
    && (w.phase.Leaving? ==> TaskOk(s, x, w.phase.t) && w.owner != Busy(w.phase.t))
    && (w.phase.Taken? || w.phase.Cleared? || w.phase.Calling? || w.phase.Called? ==> w.owner == Busy(w.phase.t))
    && match w.owner
       case Idle => x in s.idle && !w.go
       case Held(j, k) => j < |s.launches| && k < |s.launches[j].taken| && s.launches[j].taken[k] == x
                          && Holds(s.launches[j], k) && !w.go
       case Busy(t) => TaskOk(s, x, t) && (w.phase.Waiting? || w.phase.Leaving? ==> w.go && w.task == t)
                       && (w.phase.Taken? ==> w.go)
                       && (w.phase.Cleared? || w.phase.Calling? || w.phase.Called? ==> !w.go)
  }

  /** The idle list names idle workers, each once. */
  predicate IdleOk(s: System) {
    && (forall p | 0 <= p < |s.idle| :: s.idle[p] < |s.workers| && s.workers[s.idle[p]].owner == Idle)
    && forall p, q | 0 <= p < q < |s.idle| :: s.idle[p] != s.idle[q]
  }

  predicate LaunchOk(l: Launch) { ShapeOk(l) && CountOk(l) && OwnOk(l) }

  /** A launch's threads are different ones. */
  predicate Distinct(taken: seq<nat>) { forall i, k | 0 <= i < k < |taken| :: taken[i] != taken[k] }

  ghost predicate Inv(s: System) {
    && (forall j | 0 <= j < |s.launches| :: Distinct(s.launches[j].taken))
    && (forall j | 0 <= j < |s.launches| :: LaunchOk(s.launches[j]))
    && (forall j, k | 0 <= j < |s.launches| && 0 <= k < |s.launches[j].taken| :: SlotOk(s, j, k))
    && (forall x | 0 <= x < |s.workers| :: WorkerOk(s, x))
    && IdleOk(s)
  }

  ghost predicate Initial(s: System) { s.workers == [] && s.idle == [] && s.launches == [] }

  // ---- What a step leaves alone ------------------------------------------------

  /** A launch's change takes no task from worker x. */
  predicate KeepsTasks(l: Launch, r: Launch, x: nat) {
    && l.taken <= r.taken
    && (Live(l) ==> Live(r) && Started(l) <= Started(r) <= |r.taken|)
    && (forall k | 0 <= k < |l.taken| && l.taken[k] == x && k + 1 in l.left :: k + 1 in r.left)
  }

  /** Nor the worker itself. */
  predicate Onward(l: Launch, r: Launch, x: nat) {
    KeepsTasks(l, r, x) && forall k | 0 <= k < |l.taken| && l.taken[k] == x && Holds(l, k) :: Holds(r, k)
  }

  lemma {:induction false} TaskStays(s: System, t: System, x: nat, u: Task, j: nat)
    requires |s.launches| <= |t.launches| && j < |s.launches|
             && (forall i | 0 <= i < |s.launches| && i != j :: t.launches[i] == s.launches[i])
    requires KeepsTasks(s.launches[j], t.launches[j], x) && TaskOk(s, x, u)
    ensures TaskOk(t, x, u)
  {
    assert u.launch == j ==> s.launches[j].taken[u.index - 1] == x && (u.index - 1) + 1 in s.launches[j].left;
  }

  lemma {:induction false} WorkerStays(s: System, t: System, x: nat, j: nat)
    requires |s.launches| <= |t.launches| && j < |s.launches|
             && (forall i | 0 <= i < |s.launches| && i != j :: t.launches[i] == s.launches[i])
    requires Onward(s.launches[j], t.launches[j], x) && x < |s.workers| && x < |t.workers|
             && t.workers[x] == s.workers[x] && (x in s.idle ==> x in t.idle)
    requires WorkerOk(s, x)
    ensures WorkerOk(t, x)
  {
    var w := s.workers[x];
    if w.phase.Leaving? {
      TaskStays(s, t, x, w.phase.t, j);
    }
    if w.owner.Busy? {
      TaskStays(s, t, x, w.owner.task, j);
    }
  }

  /** A launch's change is nothing to slot k. */
  predicate SameForSlot(l: Launch, r: Launch, k: nat) {
    && r.n == l.n && r.strict == l.strict && r.stage == l.stage && r.taken == l.taken
    && (k + 1 in r.left <==> k + 1 in l.left)
    && |r.begun| == |l.begun| && |r.ended| == |l.ended| && (k + 1 < |l.begun| ==> r.begun[k + 1] == l.begun[k + 1])
    && (k + 1 < |l.ended| ==> r.ended[k + 1] == l.ended[k + 1])
  }

  /** A slot whose launch does not change for it, whatever else its worker does. */
  lemma {:induction false} SlotStays(s: System, t: System, j: nat, k: nat)
    requires j < |s.launches| && j < |t.launches| && SameForSlot(s.launches[j], t.launches[j], k)
             && k < |s.launches[j].taken| && SlotOk(s, j, k)
    requires var x := s.launches[j].taken[k];
             && x < |t.workers| && ViewOf(t.workers[x], Task(j, k + 1)) == ViewOf(s.workers[x], Task(j, k + 1))
             && (Holds(s.launches[j], k)
                 ==> t.workers[x].owner == s.workers[x].owner && t.workers[x].task == s.workers[x].task)
    ensures SlotOk(t, j, k)
  {
  }

  // ---- Steps that change nothing but their launch ------------------------------

  predicate LaunchAlone(act: LaunchAction) {
    act == EndTaking || act == Deny || act == Throw || act == BeginStart || act == EndStart || act == CallOwn
      || act == EndOwn || act == Return
  }

  lemma {:induction false} LaunchStaysOk(s: System, j: nat, act: LaunchAction)
    requires j < |s.launches| && LaunchOk(s.launches[j]) && LaunchEnabled(s, s.launches[j], act)
    ensures LaunchOk(LaunchStep(s, j, act).launches[j])
  {
    if Live(s.launches[j]) {
      LiveStaysOk(s, j, act);
    } else {
      EarlyStaysOk(s, j, act);
    }
  }

  lemma {:induction false} LiveStaysOk(s: System, j: nat, act: LaunchAction)
    requires j < |s.launches| && LaunchOk(s.launches[j]) && LaunchEnabled(s, s.launches[j], act) && Live(s.launches[j])
    ensures LaunchOk(LaunchStep(s, j, act).launches[j])
  {
    var l, r := s.launches[j], LaunchStep(s, j, act).launches[j];
    forall i | 0 <= i < r.n
      ensures OwnAt(r, i)
    {
      assert OwnAt(l, i);
    }
  }

  lemma {:induction false} EarlyStaysOk(s: System, j: nat, act: LaunchAction)
    requires j < |s.launches| && LaunchOk(s.launches[j]) && LaunchEnabled(s, s.launches[j], act) && !Live(s.launches[j])
    ensures LaunchOk(LaunchStep(s, j, act).launches[j])
  {
    var l, r := s.launches[j], LaunchStep(s, j, act).launches[j];
    IndicesAre(|l.taken|);
    forall i | 0 <= i < r.n
      ensures OwnAt(r, i)
    {
      assert OwnAt(l, i);
    }
  }

  lemma {:induction false} AloneIsOnward(s: System, j: nat, act: LaunchAction, x: nat)
    requires j < |s.launches| && LaunchOk(s.launches[j]) && LaunchAlone(act) && LaunchEnabled(s, s.launches[j], act)
    ensures Onward(s.launches[j], LaunchStep(s, j, act).launches[j], x)
  {
  }

  /** The slots of the launch itself. */
  lemma {:induction false} AloneKeepsSlots(s: System, j: nat, act: LaunchAction, k: nat)
    requires j < |s.launches| && LaunchOk(s.launches[j]) && LaunchAlone(act) && LaunchEnabled(s, s.launches[j], act)
             && k < |s.launches[j].taken| && SlotOk(s, j, k)
    ensures SlotOk(LaunchStep(s, j, act), j, k)
  {
    assert OwnAt(s.launches[j], k + 1);
    if Live(s.launches[j]) {
      LiveKeepsSlots(s, j, act, k);
    } else {
      EarlyKeepsSlots(s, j, act, k);
    }
  }

  lemma {:induction false} LiveKeepsSlots(s: System, j: nat, act: LaunchAction, k: nat)
    requires j < |s.launches| && ShapeOk(s.launches[j]) && LaunchAlone(act) && LaunchEnabled(s, s.launches[j], act)
             && k < |s.launches[j].taken| && SlotOk(s, j, k)
    requires Live(s.launches[j])
    ensures SlotOk(LaunchStep(s, j, act), j, k)
  {
  }

  lemma {:induction false} EarlyKeepsSlots(s: System, j: nat, act: LaunchAction, k: nat)
    requires j < |s.launches| && ShapeOk(s.launches[j]) && LaunchAlone(act) && LaunchEnabled(s, s.launches[j], act)
             && k < |s.launches[j].taken| && SlotOk(s, j, k)
    requires !Live(s.launches[j]) && OwnAt(s.launches[j], k + 1)
    ensures SlotOk(LaunchStep(s, j, act), j, k)
  {
    IndicesAre(|s.launches[j].taken|);
  }

  lemma {:induction false} AloneKeepsSlot(s: System, j: nat, act: LaunchAction, i: nat, k: nat)
    requires Inv(s) && j < |s.launches| && LaunchAlone(act) && LaunchEnabled(s, s.launches[j], act) && i < |s.launches|
             && k < |s.launches[i].taken|
    ensures SlotOk(LaunchStep(s, j, act), i, k)
  {
    assert SlotOk(s, i, k);
    if i == j {
      AloneKeepsSlots(s, j, act, k);
    } else {
      SlotStays(s, LaunchStep(s, j, act), i, k);
    }
  }

  lemma {:induction false} AloneKeepsInv(s: System, j: nat, act: LaunchAction)
    requires Inv(s) && j < |s.launches| && LaunchAlone(act) && LaunchEnabled(s, s.launches[j], act)
    ensures Inv(LaunchStep(s, j, act))
  {
    var t := LaunchStep(s, j, act);
    AloneChanges(s, j, act);
    LaunchStaysOk(s, j, act);
    forall i, k | 0 <= i < |t.launches| && 0 <= k < |t.launches[i].taken|
      ensures SlotOk(t, i, k)
    {
      AloneKeepsSlot(s, j, act, i, k);
    }
    forall x | 0 <= x < |t.workers|
      ensures WorkerOk(t, x)
    {
      AloneKeepsWorker(s, j, act, x);
    }
  }

  lemma {:induction false} AloneChanges(s: System, j: nat, act: LaunchAction)
    requires j < |s.launches| && LaunchAlone(act) && LaunchEnabled(s, s.launches[j], act)
    ensures var t := LaunchStep(s, j, act);
            t.workers == s.workers && t.idle == s.idle && t.launches == s.launches[j := t.launches[j]]
              && t.launches[j].taken == s.launches[j].taken
  {
  }

  lemma {:induction false} AloneKeepsWorker(s: System, j: nat, act: LaunchAction, x: nat)
    requires Inv(s) && j < |s.launches| && LaunchAlone(act) && LaunchEnabled(s, s.launches[j], act) && x < |s.workers|
    ensures LaunchStep(s, j, act).workers == s.workers && WorkerOk(LaunchStep(s, j, act), x)
  {
    AloneIsOnward(s, j, act, x);
    WorkerStays(s, LaunchStep(s, j, act), x, j);
  }

  // ---- Steps of a launch and one worker ----------------------------------------

  lemma {:induction false} PopKeepsInv(s: System, j: nat)
    requires Inv(s) && j < |s.launches| && LaunchEnabled(s, s.launches[j], Pop)
    ensures Inv(LaunchStep(s, j, Pop))
  {
    var t := LaunchStep(s, j, Pop);
    LaunchStaysOk(s, j, Pop);
    assert s.workers[s.idle[|s.idle| - 1]].owner == Idle;
    PopIsDistinct(s, j);
    forall i, k | 0 <= i < |t.launches| && 0 <= k < |t.launches[i].taken|
      ensures SlotOk(t, i, k)
    {
      PopKeepsSlot(s, j, i, k);
    }
    forall y | 0 <= y < |t.workers|
      ensures WorkerOk(t, y)
    {
      PopKeepsWorker(s, j, y);
    }
  }

  lemma {:induction false} PopKeepsWorker(s: System, j: nat, y: nat)
    requires Inv(s) && j < |s.launches| && LaunchEnabled(s, s.launches[j], Pop) && y < |s.workers|
    ensures WorkerOk(LaunchStep(s, j, Pop), y)
  {
    var t, x := LaunchStep(s, j, Pop), s.idle[|s.idle| - 1];
    assert WorkerOk(s, y) && s.workers[x].owner == Idle;
    if y == x {
      if s.workers[x].phase.Leaving? {
        TaskStays(s, t, x, s.workers[x].phase.t, j);
      }
    } else {
      if y in s.idle {
        var p :| 0 <= p < |s.idle| && s.idle[p] == y;
        assert t.idle[p] == y;
      }
      WorkerStays(s, t, y, j);
    }
  }

  lemma {:induction false} PopIsDistinct(s: System, j: nat)
    requires Inv(s) && j < |s.launches| && LaunchEnabled(s, s.launches[j], Pop)
    ensures Distinct(s.launches[j].taken + [s.idle[|s.idle| - 1]])
  {
    var x := s.idle[|s.idle| - 1];
    assert Distinct(s.launches[j].taken) && s.workers[x].owner == Idle;
    forall k | 0 <= k < |s.launches[j].taken|
      ensures s.launches[j].taken[k] != x
    {
      assert SlotOk(s, j, k);
    }
  }

  lemma {:induction false} PopKeepsSlot(s: System, j: nat, i: nat, k: nat)
    requires Inv(s) && j < |s.launches| && LaunchEnabled(s, s.launches[j], Pop)
    requires i < |s.launches| && k < |LaunchStep(s, j, Pop).launches[i].taken|
    ensures SlotOk(LaunchStep(s, j, Pop), i, k)
  {
    var t, l, x := LaunchStep(s, j, Pop), s.launches[j], s.idle[|s.idle| - 1];
    assert s.workers[x].owner == Idle && WorkerOk(s, x);
    if k < |s.launches[i].taken| {
      assert SlotOk(s, i, k);
      if i != j {
        SlotStays(s, t, i, k);
      }
    } else {
      assert LaunchOk(l);
    }
  }

  lemma {:induction false} MakeIsDistinct(s: System, j: nat)
    requires Inv(s) && j < |s.launches|
    ensures Distinct(s.launches[j].taken + [|s.workers|])
  {
    assert Distinct(s.launches[j].taken);
    forall k | 0 <= k < |s.launches[j].taken|
      ensures s.launches[j].taken[k] != |s.workers|
    {
      assert SlotOk(s, j, k);
    }
  }

  lemma {:induction false} MakeKeepsInv(s: System, j: nat)
    requires Inv(s) && j < |s.launches| && LaunchEnabled(s, s.launches[j], Make)
    ensures Inv(LaunchStep(s, j, Make))
  {
    var t, l := LaunchStep(s, j, Make), s.launches[j];
    LaunchStaysOk(s, j, Make);
    MakeIsDistinct(s, j);
    forall i, k | 0 <= i < |t.launches| && 0 <= k < |t.launches[i].taken|
      ensures SlotOk(t, i, k)
    {
      if k < |s.launches[i].taken| {
        assert SlotOk(s, i, k);
        if i != j {
          SlotStays(s, t, i, k);
        }
      } else {
        assert LaunchOk(l);
      }
    }
    forall y | 0 <= y < |t.workers|
      ensures WorkerOk(t, y)
    {
      if y < |s.workers| {
        assert WorkerOk(s, y);
        WorkerStays(s, t, y, j);
      }
    }
  }

  /** A launch's steps on the worker it holds next: give it back, write its task, start it. */
  predicate OnHeld(act: LaunchAction) { act == PushBack || act == WriteTask || act == SetGo }

  function NextHeld(s: System, j: nat, act: LaunchAction): (x: nat)
    requires j < |s.launches| && OnHeld(act) && LaunchEnabled(s, s.launches[j], act)
    ensures x < |s.workers|
  {
    s.launches[j].taken[s.launches[j].stage.next]
  }

  lemma {:induction false} HeldIsFree(s: System, j: nat, act: LaunchAction)
    requires Inv(s) && j < |s.launches| && OnHeld(act) && LaunchEnabled(s, s.launches[j], act)
    ensures var l, x := s.launches[j], NextHeld(s, j, act);
            && s.workers[x].owner == Held(j, l.stage.next) && !s.workers[x].go
            && (s.workers[x].phase.Waiting? || s.workers[x].phase.Leaving?)
            && (act == SetGo ==>
                  && s.workers[x].task == Task(j, l.stage.next + 1) && l.stage.next + 1 in l.left
                  && l.begun[l.stage.next + 1] == l.ended[l.stage.next + 1] == 0)
            && (s.workers[x].phase.Leaving? ==> TaskOk(s, x, s.workers[x].phase.t))
  {
    var l, x := s.launches[j], NextHeld(s, j, act);
    assert LaunchOk(l) && SlotOk(s, j, l.stage.next) && WorkerOk(s, x);
  }

  lemma {:induction false} HeldKeepsOthersSlots(s: System, j: nat, act: LaunchAction, i: nat, k: nat)
    requires Inv(s) && j < |s.launches| && OnHeld(act) && LaunchEnabled(s, s.launches[j], act) && i < |s.launches|
             && i != j && k < |s.launches[i].taken|
    ensures SlotOk(LaunchStep(s, j, act), i, k)
  {
    HeldIsFree(s, j, act);
    assert SlotOk(s, i, k);
    SlotStays(s, LaunchStep(s, j, act), i, k);
  }

  lemma {:induction false} HeldKeepsSlots(s: System, j: nat, act: LaunchAction, k: nat)
    requires Inv(s) && j < |s.launches| && OnHeld(act) && LaunchEnabled(s, s.launches[j], act)
             && k < |s.launches[j].taken|
    ensures SlotOk(LaunchStep(s, j, act), j, k)
  {
    HeldIsFree(s, j, act);
    assert SlotOk(s, j, k) && LaunchOk(s.launches[j]);
  }

  lemma {:induction false} HeldKeepsWorker(s: System, j: nat, act: LaunchAction)
    requires Inv(s) && j < |s.launches| && OnHeld(act) && LaunchEnabled(s, s.launches[j], act)
    ensures WorkerOk(LaunchStep(s, j, act), NextHeld(s, j, act))
  {
    var t, x := LaunchStep(s, j, act), NextHeld(s, j, act);
    HeldIsFree(s, j, act);
    if s.workers[x].phase.Leaving? {
      HeldKeepsTasks(s, j, act, x);
      TaskStays(s, t, x, s.workers[x].phase.t, j);
    }
    HeldWorkerOk(s, j, act);
  }

  lemma {:induction false} HeldKeepsTasks(s: System, j: nat, act: LaunchAction, x: nat)
    requires j < |s.launches| && LaunchOk(s.launches[j]) && OnHeld(act) && LaunchEnabled(s, s.launches[j], act)
    ensures KeepsTasks(s.launches[j], LaunchStep(s, j, act).launches[j], x)
  {
  }

  lemma {:induction false} HeldWorkerOk(s: System, j: nat, act: LaunchAction)
    requires j < |s.launches| && OnHeld(act) && LaunchEnabled(s, s.launches[j], act)
    requires var l, x, t := s.launches[j], NextHeld(s, j, act), LaunchStep(s, j, act);
             var w := s.workers[x];
             && w.owner == Held(j, l.stage.next) && !w.go && (w.phase.Waiting? || w.phase.Leaving?)
             && (w.phase.Leaving? ==> TaskOk(t, x, w.phase.t))
             && (w.phase.Leaving? && act == SetGo ==> w.phase.t != Task(j, l.stage.next + 1))
             && (act == SetGo ==> w.task == Task(j, l.stage.next + 1) && l.stage.next + 1 in l.left)
    ensures WorkerOk(LaunchStep(s, j, act), NextHeld(s, j, act))
  {
    var t, x := LaunchStep(s, j, act), NextHeld(s, j, act);
    if act == PushBack {
      assert t.idle[|s.idle|] == x;
    }
  }

  lemma {:induction false} HeldIsOnward(s: System, j: nat, act: LaunchAction, x: nat)
    requires Inv(s) && j < |s.launches| && OnHeld(act) && LaunchEnabled(s, s.launches[j], act)
             && x != NextHeld(s, j, act)
    ensures Onward(s.launches[j], LaunchStep(s, j, act).launches[j], x)
  {
    assert LaunchOk(s.launches[j]);
  }

  lemma {:induction false} HeldKeepsInv(s: System, j: nat, act: LaunchAction)
    requires Inv(s) && j < |s.launches| && OnHeld(act) && LaunchEnabled(s, s.launches[j], act)
    ensures Inv(LaunchStep(s, j, act))
  {
    var t := LaunchStep(s, j, act);
    LaunchStaysOk(s, j, act);
    forall i, k | 0 <= i < |t.launches| && 0 <= k < |t.launches[i].taken|
      ensures SlotOk(t, i, k)
    {
      if i == j {
        HeldKeepsSlots(s, j, act, k);
      } else {
        HeldKeepsOthersSlots(s, j, act, i, k);
      }
    }
    forall y | 0 <= y < |t.workers|
      ensures WorkerOk(t, y)
    {
      if y == NextHeld(s, j, act) {
        HeldKeepsWorker(s, j, act);
      } else {
        HeldIsOnward(s, j, act, y);
        WorkerStays(s, t, y, j);
      }
    }
    HeldKeepsIdle(s, j, act);
  }

  lemma {:induction false} HeldKeepsIdle(s: System, j: nat, act: LaunchAction)
    requires Inv(s) && j < |s.launches| && OnHeld(act) && LaunchEnabled(s, s.launches[j], act)
    ensures IdleOk(LaunchStep(s, j, act))
  {
    HeldIsFree(s, j, act);
  }

  // ---- Steps of a worker -------------------------------------------------------

  /** The task a worker's step is about. */
  function TaskOf(w: Worker): Task { if w.phase.Waiting? then w.task else w.phase.t }

  lemma {:induction false} WorkerHasTask(s: System, x: nat, does: WorkerAction)
    requires Inv(s) && x < |s.workers| && WorkerEnabled(s, s.workers[x], does)
    ensures var w, t := s.workers[x], TaskOf(s.workers[x]);
            TaskOk(s, x, t) && (does == Count ==> w.owner != Busy(t))
              && (does != Count ==> w.owner == Busy(t) && (w.go <==> w.phase.Waiting? || w.phase.Taken?))
    ensures SlotOk(s, TaskOf(s.workers[x]).launch, TaskOf(s.workers[x]).index - 1)
            && LaunchOk(s.launches[TaskOf(s.workers[x]).launch])
  {
    assert WorkerOk(s, x);
  }

  lemma {:induction false} WorkerKeepsLaunch(s: System, x: nat, does: WorkerAction)
    requires Inv(s) && x < |s.workers| && WorkerEnabled(s, s.workers[x], does)
    ensures TaskOf(s.workers[x]).launch < |s.launches|
            && LaunchOk(WorkerStep(s, x, does).launches[TaskOf(s.workers[x]).launch])
  {
    WorkerHasTask(s, x, does);
    var j := TaskOf(s.workers[x]).launch;
    var l, r := s.launches[j], WorkerStep(s, x, does).launches[j];
    forall i | 0 <= i < r.n
      ensures OwnAt(r, i)
    {
      assert OwnAt(l, i);
    }
  }

  /** The slot of the task itself. */
  lemma {:induction false} WorkerKeepsOwnSlot(s: System, x: nat, does: WorkerAction)
    requires Inv(s) && x < |s.workers| && WorkerEnabled(s, s.workers[x], does)
    ensures var t := TaskOf(s.workers[x]);
            t.launch < |s.launches| && 1 <= t.index <= |s.launches[t.launch].taken|
              && SlotOk(WorkerStep(s, x, does), t.launch, t.index - 1)
  {
    WorkerHasTask(s, x, does);
  }

  /** Every other slot, its worker this one or not. */
  lemma {:induction false} WorkerKeepsSlot(s: System, x: nat, does: WorkerAction, j: nat, k: nat)
    requires Inv(s) && x < |s.workers| && WorkerEnabled(s, s.workers[x], does) && j < |s.launches|
             && k < |s.launches[j].taken|
    requires TaskOf(s.workers[x]) != Task(j, k + 1)
    ensures SlotOk(WorkerStep(s, x, does), j, k)
  {
    assert SlotOk(s, j, k);
    WorkerKeepsView(s, x, does, Task(j, k + 1));
    WorkerKeepsCounts(s, x, does, j, k);
    SlotStays(s, WorkerStep(s, x, does), j, k);
  }

  lemma {:induction false} WorkerKeepsCounts(s: System, x: nat, does: WorkerAction, j: nat, k: nat)
    requires x < |s.workers| && WorkerEnabled(s, s.workers[x], does) && j < |s.launches|
             && TaskOf(s.workers[x]) != Task(j, k + 1)
    ensures SameForSlot(s.launches[j], WorkerStep(s, x, does).launches[j], k)
  {
  }

  lemma {:induction false} WorkerKeepsView(s: System, x: nat, does: WorkerAction, t: Task)
    requires Inv(s) && x < |s.workers| && WorkerEnabled(s, s.workers[x], does) && TaskOf(s.workers[x]) != t
    ensures var w := WorkerStep(s, x, does).workers[x];
            ViewOf(w, t) == ViewOf(s.workers[x], t)
              && (s.workers[x].owner.Held? ==> w.owner == s.workers[x].owner && w.task == s.workers[x].task)
  {
    WorkerHasTask(s, x, does);
  }

  lemma {:induction false} WorkerIsOnward(s: System, x: nat, does: WorkerAction, y: nat)
    requires Inv(s) && x < |s.workers| && WorkerEnabled(s, s.workers[x], does) && y != x
    ensures var j := TaskOf(s.workers[x]).launch;
            j < |s.launches| && Onward(s.launches[j], WorkerStep(s, x, does).launches[j], y)
  {
    WorkerHasTask(s, x, does);
    var l := s.launches[TaskOf(s.workers[x]).launch];
    assert Started(l) <= |l.taken|;
  }

  lemma {:induction false} WorkerKeepsSelf(s: System, x: nat, does: WorkerAction)
    requires Inv(s) && x < |s.workers| && WorkerEnabled(s, s.workers[x], does)
    ensures WorkerOk(WorkerStep(s, x, does), x)
  {
    WorkerHasTask(s, x, does);
    assert WorkerOk(s, x);
    var t := WorkerStep(s, x, does);
    if does == GiveBack {
      assert t.idle[|s.idle|] == x;
    }
    if does == Count && s.workers[x].owner.Busy? {
      OtherTaskStays(s, x, s.workers[x].owner.task);
    }
  }

  /** Counting one task leaves the next one its worker has been given. */
  lemma {:induction false} OtherTaskStays(s: System, x: nat, u: Task)
    requires Inv(s) && x < |s.workers| && WorkerEnabled(s, s.workers[x], Count) && TaskOk(s, x, u)
             && u != TaskOf(s.workers[x])
    ensures TaskOk(WorkerStep(s, x, Count), x, u)
  {
  }

  lemma {:induction false} WorkerKeepsIdle(s: System, x: nat, does: WorkerAction)
    requires Inv(s) && x < |s.workers| && WorkerEnabled(s, s.workers[x], does)
    ensures IdleOk(WorkerStep(s, x, does))
  {
    WorkerHasTask(s, x, does);
  }

  lemma {:induction false} WorkerKeepsInv(s: System, x: nat, does: WorkerAction)
    requires Inv(s) && x < |s.workers| && WorkerEnabled(s, s.workers[x], does)
    ensures Inv(WorkerStep(s, x, does))
  {
    var t, u := WorkerStep(s, x, does), TaskOf(s.workers[x]);
    WorkerKeepsLaunch(s, x, does);
    WorkerKeepsIdle(s, x, does);
    forall j, k | 0 <= j < |t.launches| && 0 <= k < |t.launches[j].taken|
      ensures SlotOk(t, j, k)
    {
      if u == Task(j, k + 1) {
        WorkerKeepsOwnSlot(s, x, does);
      } else {
        WorkerKeepsSlot(s, x, does, j, k);
      }
    }
    forall y | 0 <= y < |t.workers|
      ensures WorkerOk(t, y)
    {
      if y == x {
        WorkerKeepsSelf(s, x, does);
      } else {
        WorkerIsOnward(s, x, does, y);
        WorkerStays(s, t, y, u.launch);
      }
    }
  }

  // ---- Every step --------------------------------------------------------------

  lemma {:induction false} RunAddsLaunch(s: System, n: nat, strict: bool)
    requires Inv(s)
    ensures Inv(Apply(s, Run(n, strict)))
  {
    var t := Apply(s, Run(n, strict));
    var l := NewLaunch(n, strict);
    assert LaunchOk(l) by {
      assert forall i | 0 <= i < l.n :: OwnAt(l, i);
    }
    forall j, k | 0 <= j < |t.launches| && 0 <= k < |t.launches[j].taken|
      ensures SlotOk(t, j, k)
    {
      assert SlotOk(s, j, k);
      SlotStays(s, t, j, k);
    }
    forall y | 0 <= y < |t.workers|
      ensures WorkerOk(t, y)
    {
      assert WorkerOk(s, y);
    }
  }

  /** Every step keeps the invariant. */
  lemma {:induction false} StepKeepsInv(s: System, step: Step)
    requires Inv(s) && Enabled(s, step)
    ensures Inv(Apply(s, step))
  {
    match step
    case Run(n, strict) => RunAddsLaunch(s, n, strict);
    case OfWorker(x, does) => WorkerKeepsInv(s, x, does);
    case OfLaunch(j, act) =>
      if act == Pop {
        PopKeepsInv(s, j);
      } else if act == Make {
        MakeKeepsInv(s, j);
      } else if OnHeld(act) {
        HeldKeepsInv(s, j, act);
      } else {
        AloneKeepsInv(s, j, act);
      }
  }
}
