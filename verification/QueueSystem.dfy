/**
 A system of work queues as a step machine. A step is one lock section, one lock-free read that decides something, or
 one of the three stores that end an item: those are seen one at a time by the readers that take no lock. Every queue
 carries the history of what ran on it, which the theorems are about.
 */
module QueueSystem {
  import opened WorkQueue

  /** The queue's thread. */
  datatype Worker = Resting | Waiting(item: Item, next: nat) | Running(item: Item)

  /** Who holds the lock between the stores that end an item. */
  datatype Ending = Unlocked | AfterCount(e: Error) | AfterNote

  /** One take_error that took the lock: what it gave out, and the results it answers for. */
  datatype Take = Take(from: nat, to: nat, given: Error)

  /**
   A queue; `claimed` is the number run_inline's caller keeps while its item runs. From `began` on the fields are
   history: the numbers in the order they began to run, each finished item's result, how many of those note_failure has
   looked at, the takes so far, and what every number submitted was to wait for and when it was submitted.
   */
  datatype QueueState = QueueState(fields: Fields, worker: Worker, ending: Ending, claimed: nat, began: seq<nat>,
                                   results: seq<Error>, noted: nat, takes: seq<Take>, afters: seq<seq<Marker>>,
                                   stamps: seq<nat>)
  {
    /** The results no take has answered for begin here. */
    function Cut(): nat { if takes == [] then 0 else takes[|takes| - 1].to }
    predicate Pending() { fields.completed < fields.submitted }
    /** Items out of the deque and not yet counted: 0 or 1. */
    function Held(): nat { if worker.Resting? && !fields.inlineOn then 0 else 1 }
    predicate ItemRuns() { worker.Running? || fields.inlineOn }
  }

  /** All queues, a clock of submissions, and the markers that calls of `done` have answered yes for. */
  datatype System = System(queues: seq<QueueState>, clock: nat, seen: set<Marker>)
  {
    predicate Has(q: nat) { q < |queues| }
    /** The numbered item of a marker's queue has been counted as done. */
    predicate Finished(m: Marker) { m.queue < |queues| && queues[m.queue].fields.completed >= m.number }
    /** What `done` and `wait` look at: the copy, or the count itself where the lock is free. */
    predicate SaysDone(m: Marker) {
      m.queue < |queues| && (queues[m.queue].fields.hint >= m.number ||
                             (queues[m.queue].ending == Unlocked && queues[m.queue].fields.completed >= m.number))
    }
  }

  function With(s: System, q: nat, v: QueueState): System
    requires s.Has(q)
  {
    s.(queues := s.queues[q := v])
  }

  datatype Step =
    | Submit(after: seq<Marker>)
    | See(m: Marker)
    | RunInline(after: seq<Marker>)
    | TakeFront
    | PassMarker
    | Begin
    | Count(e: Error)
    | Note
    | Publish
    | TakeError

  /** Markers name only items that have been submitted. */
  predicate MarkersExist(s: System, after: seq<Marker>) {
    forall i | 0 <= i < |after| :: s.Has(after[i].queue) && after[i].number <= s.queues[after[i].queue].fields.submitted
  }

  /** Every marker on another queue has been seen done by a call of `done`. */
  predicate AllSeen(s: System, q: nat, after: seq<Marker>) {
    forall i | 0 <= i < |after| :: after[i].queue == q || after[i] in s.seen
  }

  predicate Enabled(s: System, q: nat, step: Step) {
    s.Has(q) && var v := s.queues[q];
    match step
    case Submit(after) => v.ending == Unlocked && MarkersExist(s, after)
    case See(m) => s.SaysDone(m)
    case RunInline(after) => v.ending == Unlocked && MarkersExist(s, after) && AllSeen(s, q, after) && Free(v.fields)
    case TakeFront => v.ending == Unlocked && v.worker == Resting && CanTake(v.fields)
    case PassMarker => v.worker.Waiting? && v.worker.next < |v.worker.item.after| &&
                       (v.worker.item.after[v.worker.next].queue == q || s.SaysDone(v.worker.item.after[v.worker.next]))
    case Begin => v.worker.Waiting? && v.worker.next >= |v.worker.item.after|
    case Count(e) => v.ending == Unlocked && v.ItemRuns()
    case Note => v.ending.AfterCount?
    case Publish => v.ending == AfterNote
    case TakeError => v.ending == Unlocked
  }

  function SubmitTo(v: QueueState, after: seq<Marker>, clock: nat): QueueState {
    v.(fields := Submitted(v.fields, after), afters := v.afters + [after], stamps := v.stamps + [clock])
  }

  function InlineOn(v: QueueState, after: seq<Marker>, clock: nat): QueueState {
    v.(fields := Claimed(v.fields), claimed := v.fields.submitted + 1, began := v.began + [v.fields.submitted + 1],
       afters := v.afters + [after], stamps := v.stamps + [clock])
  }

  function TakeOn(v: QueueState): QueueState
    requires v.fields.items != []
  {
    v.(fields := Taken(v.fields), worker := Waiting(v.fields.items[0], 0))
  }

  function BeginOn(v: QueueState): QueueState
    requires v.worker.Waiting?
  {
    v.(worker := Running(v.worker.item), began := v.began + [v.worker.item.number])
  }

  /** The first store of an item's end: the number of the thread's item, or the one the inline caller claimed. */
  function CountOn(v: QueueState, e: Error): QueueState {
    var number := if v.worker.Running? then v.worker.item.number else v.claimed;
    v.(fields := Counted(v.fields, number), worker := Resting, ending := AfterCount(e), results := v.results + [e])
  }

  function NoteOn(v: QueueState): QueueState
    requires v.ending.AfterCount?
  {
    v.(fields := Noted(v.fields, v.ending.e), ending := AfterNote, noted := v.noted + 1)
  }

  function PublishOn(v: QueueState): QueueState { v.(fields := Published(v.fields), ending := Unlocked) }

  /**
   take_error with the lock: the flag may have been read before or after anything else, so it is taken whatever the flag
   says now.
   */
  function TakeErrorOn(v: QueueState): QueueState {
    v.(fields := ErrorTaken(v.fields), takes := v.takes + [Take(v.Cut(), v.noted, v.fields.error)])
  }

  function Apply(s: System, q: nat, step: Step): System
    requires Enabled(s, q, step)
  {
    var v := s.queues[q];
    match step
    case Submit(after) => With(s, q, SubmitTo(v, after, s.clock)).(clock := s.clock + 1)
    case See(m) => s.(seen := s.seen + {m})
    case RunInline(after) => With(s, q, InlineOn(v, after, s.clock)).(clock := s.clock + 1)
    case TakeFront => With(s, q, TakeOn(v))
    case PassMarker => With(s, q, v.(worker := Waiting(v.worker.item, v.worker.next + 1)))
    case Begin => With(s, q, BeginOn(v))
    case Count(e) => With(s, q, CountOn(v, e))
    case Note => With(s, q, NoteOn(v))
    case Publish => With(s, q, PublishOn(v))
    case TakeError => With(s, q, TakeErrorOn(v))
  }

  const EMPTY_QUEUE := QueueState(EMPTY, Resting, Unlocked, 0, [], [], 0, [], [], [])

  ghost predicate Initial(s: System) {
    (forall q: nat | s.Has(q) :: s.queues[q] == EMPTY_QUEUE) && s.clock == 0 && s.seen == {}
  }

  // ---- The invariant -----------------------------------------------------------

  /** The first result that is not Ok. */
  function FirstFailure(results: seq<Error>): Error {
    if results == [] then Ok else if results[0] != Ok then results[0] else FirstFailure(results[1..])
  }

  predicate Counts(b: seq<nat>) { forall i | 0 <= i < |b| :: b[i] == i + 1 }

  /** Pending numbers are exactly completed + 1 .. submitted: the one held, then the deque. */
  predicate Numbered(v: QueueState) {
    && v.fields.submitted == v.fields.completed + v.Held() + |v.fields.items|
    && (forall i | 0 <= i < |v.fields.items| :: v.fields.items[i].number == v.fields.completed + v.Held() + 1 + i)
    && (!v.worker.Resting?
        ==> v.worker.item.number == v.fields.completed + 1 && !v.fields.inlineOn && v.ending == Unlocked)
    && (v.fields.inlineOn ==> v.claimed == v.fields.completed + 1 && v.ending == Unlocked)
    && (v.worker.Waiting? ==> v.worker.next <= |v.worker.item.after|)
  }

  predicate Ran(v: QueueState) {
    && Counts(v.began) && |v.began| == v.fields.completed + (if v.ItemRuns() then 1 else 0)
    && |v.results| == v.fields.completed
  }

  predicate Recorded(v: QueueState) {
    && |v.afters| == v.fields.submitted == |v.stamps|
    && (forall i | 0 <= i < |v.fields.items| ::
          && 1 <= v.fields.items[i].number <= |v.afters|
          && v.fields.items[i].after == v.afters[v.fields.items[i].number - 1])
    && (!v.worker.Resting?
        ==> 1 <= v.worker.item.number <= |v.afters| && v.worker.item.after == v.afters[v.worker.item.number - 1])
    && (forall i, j | 0 <= i < j < |v.stamps| :: v.stamps[i] < v.stamps[j])
  }

  /** The order of the ending stores, as the readers can see it. */
  predicate Ended(v: QueueState) {
    match v.ending
    case Unlocked => v.fields.hint == v.fields.completed == v.noted
    case AfterCount(e) => v.fields.hint == v.noted == v.fields.completed - 1 && |v.results| > 0
                          && v.results[|v.results| - 1] == e
    case AfterNote => v.noted == v.fields.completed && v.fields.hint == v.fields.completed - 1
  }

  /**
   The takes cut the results into consecutive stretches, each answered by its first failure; the kept error is the
   rest's.
   */
  predicate Reported(v: QueueState) {
    && v.noted <= |v.results| && v.Cut() <= v.noted
    && v.fields.error == FirstFailure(v.results[v.Cut()..v.noted])
    && (v.fields.failedSince <==> v.fields.error != Ok)
    && TakesRight(v.takes, v.results)
  }

  predicate TakesRight(takes: seq<Take>, results: seq<Error>) {
    forall i | 0 <= i < |takes| :: TakeIsRight(takes, results, i)
  }

  predicate TakeIsRight(takes: seq<Take>, results: seq<Error>, i: nat)
    requires i < |takes|
  {
    && takes[i].from == (if i == 0 then 0 else takes[i - 1].to)
    && takes[i].from <= takes[i].to <= |results|
    && takes[i].given == FirstFailure(results[takes[i].from..takes[i].to])
  }

  predicate QueueInv(v: QueueState) { Numbered(v) && Ran(v) && Recorded(v) && Ended(v) && Reported(v) }

  /** Every marker of an item names an item submitted before it. */
  predicate Older(s: System, q: nat, n: nat, m: Marker)
    requires s.Has(q) && n < |s.queues[q].stamps|
  {
    s.Has(m.queue) && m.number <= |s.queues[m.queue].stamps| &&
    (m.number > 0 ==> s.queues[m.queue].stamps[m.number - 1] < s.queues[q].stamps[n])
  }

  predicate MarkersOlder(s: System, q: nat)
    requires s.Has(q)
  {
    var v := s.queues[q];
    |v.afters| == |v.stamps|
      && forall n, i | 0 <= n < |v.afters| && 0 <= i < |v.afters[n]| :: Older(s, q, n, v.afters[n][i])
  }

  /** Every item that has begun had all its markers finished; the markers a waiting thread has passed are finished. */
  predicate MarkersMet(s: System, q: nat)
    requires s.Has(q)
  {
    var v := s.queues[q];
    && |v.began| <= |v.afters|
    && (forall n, i | 0 <= n < |v.began| && 0 <= i < |v.afters[n]| :: s.Finished(v.afters[n][i]))
    && (v.worker.Waiting? ==>
          && v.worker.next <= |v.worker.item.after|
          && forall i | 0 <= i < v.worker.next :: s.Finished(v.worker.item.after[i]))
  }

  ghost predicate Inv(s: System) {
    && (forall q: nat | s.Has(q) :: QueueInv(s.queues[q]))
    && (forall q: nat | s.Has(q) :: StampsBelow(s, q))
    && (forall q: nat | s.Has(q) :: MarkersOlder(s, q))
    && (forall q: nat | s.Has(q) :: MarkersMet(s, q))
    && (forall m | m in s.seen :: s.Finished(m))
  }

  predicate StampsBelow(s: System, q: nat)
    requires s.Has(q)
  {
    forall i | 0 <= i < |s.queues[q].stamps| :: s.queues[q].stamps[i] < s.clock
  }

  // ---- One queue's part of a step ----------------------------------------------

  lemma {:induction false} SubmitKeeps(v: QueueState, after: seq<Marker>, clock: nat)
    requires QueueInv(v) && forall i | 0 <= i < |v.stamps| :: v.stamps[i] < clock
    ensures QueueInv(SubmitTo(v, after, clock))
  {
  }

  lemma {:induction false} InlineKeeps(v: QueueState, after: seq<Marker>, clock: nat)
    requires QueueInv(v) && Free(v.fields) && v.ending == Unlocked
             && forall i | 0 <= i < |v.stamps| :: v.stamps[i] < clock
    ensures QueueInv(InlineOn(v, after, clock))
  {
  }

  lemma {:induction false} TakeKeeps(v: QueueState)
    requires QueueInv(v) && v.ending == Unlocked && v.worker == Resting && CanTake(v.fields)
    ensures QueueInv(TakeOn(v))
  {
  }

  lemma {:induction false} PassKeeps(v: QueueState)
    requires QueueInv(v) && v.worker.Waiting? && v.worker.next < |v.worker.item.after|
    ensures QueueInv(v.(worker := Waiting(v.worker.item, v.worker.next + 1)))
  {
  }

  lemma {:induction false} BeginKeeps(v: QueueState)
    requires QueueInv(v) && v.worker.Waiting?
    ensures QueueInv(BeginOn(v))
  {
  }

  lemma {:induction false} CountKeeps(v: QueueState, e: Error)
    requires QueueInv(v) && v.ending == Unlocked && v.ItemRuns()
    ensures QueueInv(CountOn(v, e))
  {
    assert (v.results + [e])[v.Cut()..v.noted] == v.results[v.Cut()..v.noted];
    TakesOutlive(v.takes, v.results, e);
  }

  /** A take stays right as more results come in. */
  lemma {:induction false} TakesOutlive(takes: seq<Take>, results: seq<Error>, e: Error)
    requires TakesRight(takes, results)
    ensures TakesRight(takes, results + [e])
  {
    forall i | 0 <= i < |takes|
      ensures TakeIsRight(takes, results + [e], i)
    {
      assert TakeIsRight(takes, results, i);
      assert (results + [e])[takes[i].from..takes[i].to] == results[takes[i].from..takes[i].to];
    }
  }

  lemma {:induction false} FirstFailureAppends(a: seq<Error>, e: Error)
    ensures FirstFailure(a + [e]) == if FirstFailure(a) != Ok then FirstFailure(a) else e
  {
    if a == [] {
    } else {
      assert (a + [e])[1..] == a[1..] + [e];
      FirstFailureAppends(a[1..], e);
    }
  }

  lemma {:induction false} NoteKeeps(v: QueueState)
    requires QueueInv(v) && v.ending.AfterCount?
    ensures QueueInv(NoteOn(v))
  {
    assert v.results[v.Cut()..v.noted + 1] == v.results[v.Cut()..v.noted] + [v.results[v.noted]];
    FirstFailureAppends(v.results[v.Cut()..v.noted], v.results[v.noted]);
  }

  lemma {:induction false} PublishKeeps(v: QueueState)
    requires QueueInv(v) && v.ending == AfterNote
    ensures QueueInv(PublishOn(v))
  {
  }

  lemma {:induction false} TakeErrorKeeps(v: QueueState)
    requires QueueInv(v) && v.ending == Unlocked
    ensures QueueInv(TakeErrorOn(v))
  {
    var w := TakeErrorOn(v);
    assert w.results[w.Cut()..w.noted] == [];
    forall i | 0 <= i < |w.takes|
      ensures TakeIsRight(w.takes, w.results, i)
    {
      if i < |v.takes| {
        assert TakeIsRight(v.takes, v.results, i);
      }
    }
  }

  // ---- The whole step ----------------------------------------------------------

  /** The state of the queue that a step changes. */
  function Moved(s: System, q: nat, step: Step): QueueState
    requires Enabled(s, q, step)
  {
    Apply(s, q, step).queues[q]
  }

  lemma {:induction false} StepKeepsQueue(s: System, q: nat, step: Step)
    requires Inv(s) && Enabled(s, q, step)
    ensures QueueInv(Moved(s, q, step))
  {
    var v := s.queues[q];
    assert QueueInv(v) && StampsBelow(s, q);
    match step
    case Submit(after) => SubmitKeeps(v, after, s.clock);
    case See(m) =>
    case RunInline(after) => InlineKeeps(v, after, s.clock);
    case TakeFront => TakeKeeps(v);
    case PassMarker => PassKeeps(v);
    case Begin => BeginKeeps(v);
    case Count(e) => CountKeeps(v, e);
    case Note => NoteKeeps(v);
    case Publish => PublishKeeps(v);
    case TakeError => TakeErrorKeeps(v);
  }

  /** What a step may do to a queue: histories and counts only grow. */
  predicate Grows(v: QueueState, w: QueueState) {
    && v.fields.submitted <= w.fields.submitted && v.fields.completed <= w.fields.completed
    && v.fields.hint <= w.fields.hint
    && v.began <= w.began && v.results <= w.results && v.noted <= w.noted && v.takes <= w.takes && v.afters <= w.afters
    && v.stamps <= w.stamps
    && v.Cut() <= w.Cut()
  }

  lemma {:induction false} StepGrows(s: System, q: nat, step: Step)
    requires Inv(s) && Enabled(s, q, step)
    ensures Grows(s.queues[q], Moved(s, q, step))
  {
    assert QueueInv(s.queues[q]);
  }

  lemma {:induction false} StepGrowsAll(s: System, q: nat, step: Step, r: nat)
    requires Inv(s) && Enabled(s, q, step) && s.Has(r)
    ensures Apply(s, q, step).Has(r) && Grows(s.queues[r], Apply(s, q, step).queues[r])
    ensures r != q ==> Apply(s, q, step).queues[r] == s.queues[r]
  {
    StepGrows(s, q, step);
  }

  /** Finished markers stay finished. */
  lemma {:induction false} StaysFinished(s: System, q: nat, step: Step, m: Marker)
    requires Inv(s) && Enabled(s, q, step) && s.Finished(m)
    ensures Apply(s, q, step).Finished(m)
  {
    StepGrowsAll(s, q, step, m.queue);
  }

  lemma {:induction false} SaysDoneIsTrue(s: System, m: Marker)
    requires Inv(s) && s.SaysDone(m)
    ensures s.Finished(m)
  {
    assert QueueInv(s.queues[m.queue]);
  }

  lemma {:induction false} StepKeepsSeen(s: System, q: nat, step: Step)
    requires Inv(s) && Enabled(s, q, step)
    ensures forall m | m in Apply(s, q, step).seen :: Apply(s, q, step).Finished(m)
  {
    forall m | m in Apply(s, q, step).seen
      ensures Apply(s, q, step).Finished(m)
    {
      if m !in s.seen {
        SaysDoneIsTrue(s, m);
      }
      StaysFinished(s, q, step, m);
    }
  }

  lemma {:induction false} StepKeepsStamps(s: System, q: nat, step: Step, r: nat)
    requires Inv(s) && Enabled(s, q, step) && s.Has(r)
    ensures StampsBelow(Apply(s, q, step), r)
  {
    assert StampsBelow(s, r) && StampsBelow(s, q);
  }

  lemma {:induction false} StaysOlder(s: System, q: nat, step: Step, r: nat, n: nat, m: Marker)
    requires Inv(s) && Enabled(s, q, step) && s.Has(r) && n < |s.queues[r].stamps| && Older(s, r, n, m)
    ensures n < |Apply(s, q, step).queues[r].stamps| && Older(Apply(s, q, step), r, n, m)
  {
    StepGrowsAll(s, q, step, r);
    StepGrowsAll(s, q, step, m.queue);
  }

  /** A marker of an item being submitted names an older item. */
  lemma {:induction false} NewMarkerOlder(s: System, q: nat, step: Step, after: seq<Marker>, i: nat)
    requires Inv(s) && Enabled(s, q, step) && (step == Submit(after) || step == RunInline(after)) && i < |after|
    ensures var t := Apply(s, q, step); var n := |s.queues[q].stamps|;
            n < |t.queues[q].stamps| && Older(t, q, n, after[i])
  {
    var m := after[i];
    assert QueueInv(s.queues[m.queue]) && StampsBelow(s, m.queue);
    StepGrowsAll(s, q, step, m.queue);
  }

  lemma {:induction false} StepKeepsOlder(s: System, q: nat, step: Step, r: nat)
    requires Inv(s) && Enabled(s, q, step) && s.Has(r)
    ensures MarkersOlder(Apply(s, q, step), r)
  {
    var t := Apply(s, q, step);
    var v, w := s.queues[r], t.queues[r];
    assert MarkersOlder(s, r);
    forall n, i | 0 <= n < |w.afters| && 0 <= i < |w.afters[n]|
      ensures Older(t, r, n, w.afters[n][i])
    {
      if n < |v.afters| {
        assert w.afters[n] == v.afters[n] by { StepGrowsAll(s, q, step, r); }
        assert Older(s, r, n, v.afters[n][i]);
        StaysOlder(s, q, step, r, n, v.afters[n][i]);
      } else {
        NewMarkerOlder(s, q, step, w.afters[n], i);
      }
    }
  }

  /**
   An item submitted on its own queue with a marker there waits for an earlier number, which is done by the time the
   item is at the front: skipping own-queue markers is sound.
   */
  lemma {:induction false} OwnMarkerMet(s: System, q: nat, n: nat, m: Marker)
    requires s.Has(q) && QueueInv(s.queues[q]) && m.queue == q && n < |s.queues[q].stamps| && Older(s, q, n, m)
    requires n <= s.queues[q].fields.completed
    ensures s.Finished(m)
  {
  }

  lemma {:induction false} BegunStaysMet(s: System, q: nat, step: Step, r: nat, n: nat, i: nat)
    requires Inv(s) && Enabled(s, q, step) && s.Has(r) && n < |s.queues[r].began| && n < |s.queues[r].afters|
             && i < |s.queues[r].afters[n]|
    ensures Apply(s, q, step).Finished(s.queues[r].afters[n][i])
  {
    assert MarkersMet(s, r);
    StaysFinished(s, q, step, s.queues[r].afters[n][i]);
  }

  /** At the moment an inline item begins, all its markers are finished. */
  lemma {:induction false} InlineMarkersMet(s: System, q: nat, after: seq<Marker>, i: nat)
    requires Inv(s) && Enabled(s, q, RunInline(after)) && i < |after|
    ensures s.Finished(after[i])
  {
    assert QueueInv(s.queues[q]);
  }

  lemma {:induction false} StepKeepsBegun(s: System, q: nat, step: Step, r: nat, n: nat, i: nat)
    requires Inv(s) && Enabled(s, q, step) && s.Has(r)
    requires var w := Apply(s, q, step).queues[r]; QueueInv(w) && n < |w.began| && n < |w.afters| && i < |w.afters[n]|
    ensures Apply(s, q, step).Finished(Apply(s, q, step).queues[r].afters[n][i])
  {
    var v := s.queues[r];
    assert MarkersMet(s, r) && QueueInv(v);
    StepGrowsAll(s, q, step, r);
    if n < |v.began| {
      BegunStaysMet(s, q, step, r, n, i);
    } else if step.RunInline? {
      InlineMarkersMet(s, q, step.after, i);
      StaysFinished(s, q, step, step.after[i]);
    } else {
      assert step.Begin? && v.afters[n] == v.worker.item.after;
      StaysFinished(s, q, step, v.worker.item.after[i]);
    }
  }

  lemma {:induction false} StepKeepsPassed(s: System, q: nat, step: Step, r: nat, i: nat)
    requires Inv(s) && Enabled(s, q, step) && s.Has(r)
    requires var w := Apply(s, q, step).queues[r]; w.worker.Waiting? && i < w.worker.next <= |w.worker.item.after|
    ensures Apply(s, q, step).Finished(Apply(s, q, step).queues[r].worker.item.after[i])
  {
    var v := s.queues[r];
    assert MarkersMet(s, r);
    StepGrowsAll(s, q, step, r);
    if v.worker.Waiting? && i < v.worker.next {
      StaysFinished(s, q, step, v.worker.item.after[i]);
    } else {
      PassedMarkerMet(s, q, step);
    }
  }

  lemma {:induction false} StepKeepsMet(s: System, q: nat, step: Step, r: nat)
    requires Inv(s) && Enabled(s, q, step) && s.Has(r) && QueueInv(Apply(s, q, step).queues[r])
    ensures MarkersMet(Apply(s, q, step), r)
  {
    var t := Apply(s, q, step);
    var w := t.queues[r];
    forall n, i | 0 <= n < |w.began| && 0 <= i < |w.afters[n]|
      ensures t.Finished(w.afters[n][i])
    {
      StepKeepsBegun(s, q, step, r, n, i);
    }
    if w.worker.Waiting? {
      forall i | 0 <= i < w.worker.next
        ensures t.Finished(w.worker.item.after[i])
      {
        StepKeepsPassed(s, q, step, r, i);
      }
    }
  }

  /** The marker a waiting thread passes is finished, whether it was waited for or is its own queue's. */
  lemma {:induction false} PassedMarkerMet(s: System, q: nat, step: Step)
    requires Inv(s) && Enabled(s, q, step) && step == PassMarker
    ensures Apply(s, q, step).Finished(s.queues[q].worker.item.after[s.queues[q].worker.next])
  {
    var v := s.queues[q];
    var m, n := v.worker.item.after[v.worker.next], v.worker.item.number - 1;
    assert QueueInv(v) && MarkersOlder(s, q);
    if m.queue == q {
      assert Older(s, q, n, v.afters[n][v.worker.next]);
      OwnMarkerMet(s, q, n, m);
    } else {
      SaysDoneIsTrue(s, m);
    }
    StaysFinished(s, q, step, m);
  }

  lemma {:induction false} StepKeepsInv(s: System, q: nat, step: Step)
    requires Inv(s) && Enabled(s, q, step)
    ensures Inv(Apply(s, q, step))
  {
    var t := Apply(s, q, step);
    StepKeepsSeen(s, q, step);
    forall r: nat | t.Has(r)
      ensures QueueInv(t.queues[r]) && StampsBelow(t, r) && MarkersOlder(t, r) && MarkersMet(t, r)
    {
      StepGrowsAll(s, q, step, r);
      StepKeepsStamps(s, q, step, r);
      StepKeepsOlder(s, q, step, r);
      if r == q {
        StepKeepsQueue(s, q, step);
      } else {
        assert QueueInv(s.queues[r]);
      }
      StepKeepsMet(s, q, step, r);
    }
  }

  // ---- Runs --------------------------------------------------------------------

  ghost predicate Next(s: System, t: System) { exists q: nat, step :: Enabled(s, q, step) && t == Apply(s, q, step) }

  ghost predicate NextAt(run: seq<System>, i: nat)
    requires i + 1 < |run|
  {
    Next(run[i], run[i + 1])
  }

  ghost predicate IsRun(run: seq<System>) {
    && |run| > 0 && Initial(run[0])
    && forall i | 0 <= i < |run| - 1 :: NextAt(run, i)
  }

  lemma {:induction false} RunKeepsInv(run: seq<System>, i: nat)
    requires IsRun(run) && i < |run|
    ensures Inv(run[i])
  {
    if i > 0 {
      RunKeepsInv(run, i - 1);
      assert NextAt(run, i - 1);
      var q: nat, step :| Enabled(run[i - 1], q, step) && run[i] == Apply(run[i - 1], q, step);
      StepKeepsInv(run[i - 1], q, step);
    }
  }

  lemma {:induction false} RunGrows(run: seq<System>, i: nat, j: nat, r: nat)
    requires IsRun(run) && i <= j < |run| && run[i].Has(r)
    ensures run[j].Has(r) && Grows(run[i].queues[r], run[j].queues[r])
    decreases j
  {
    if i < j {
      RunGrows(run, i, j - 1, r);
      OneMoreGrows(run, run[i], j - 1, r);
    }
  }

  lemma {:induction false} OneMoreGrows(run: seq<System>, s: System, j: nat, r: nat)
    requires IsRun(run) && j + 1 < |run| && s.Has(r) && run[j].Has(r) && Grows(s.queues[r], run[j].queues[r])
    ensures run[j + 1].Has(r) && Grows(s.queues[r], run[j + 1].queues[r])
  {
    NextGrows(run, j, r);
    GrowsOn(s.queues[r], run[j].queues[r], run[j + 1].queues[r]);
  }

  lemma {:induction false} NextGrows(run: seq<System>, i: nat, r: nat)
    requires IsRun(run) && i + 1 < |run| && run[i].Has(r)
    ensures run[i + 1].Has(r) && Grows(run[i].queues[r], run[i + 1].queues[r])
  {
    RunKeepsInv(run, i);
    assert NextAt(run, i);
    var q: nat, step :| Enabled(run[i], q, step) && run[i + 1] == Apply(run[i], q, step);
    StepGrowsAll(run[i], q, step, r);
  }

  lemma {:induction false} GrowsOn(u: QueueState, v: QueueState, w: QueueState)
    requires Grows(u, v) && Grows(v, w)
    ensures Grows(u, w)
  {
  }

  /**
   In every state of every run a queue has begun its items in number order, each once, with none skipped; all but at
   most one of them have finished, so no two run at a time, on the thread or inline; and pending numbers are exactly
   completed + 1 .. submitted.
   */
  lemma {:induction false} ItemsRunInOrder(run: seq<System>, i: nat, q: nat)
    requires IsRun(run) && i < |run| && run[i].Has(q)
    ensures var v := run[i].queues[q];
            && (forall k | 0 <= k < |v.began| :: v.began[k] == k + 1)
            && |v.results| == v.fields.completed <= |v.began| <= |v.results| + 1 && |v.began| <= v.fields.submitted
            && (|v.began| == |v.results| + 1 <==> v.worker.Running? || v.fields.inlineOn)
            && !(v.worker.Running? && v.fields.inlineOn)
            && (forall k | 0 <= k < |v.fields.items| ::
                v.fields.items[k].number == v.fields.submitted - |v.fields.items| + 1 + k)
  {
    RunKeepsInv(run, i);
    assert QueueInv(run[i].queues[q]);
  }

  /**
   Whenever the lock is free, in every run, a queue's fields are as its lock sections require: what `Queue.Valid` says.
   */
  lemma {:induction false} LockSectionsAreMet(run: seq<System>, i: nat, q: nat)
    requires IsRun(run) && i < |run| && run[i].Has(q) && run[i].queues[q].ending == Unlocked
    ensures Consistent(run[i].queues[q].fields) && WorkQueue.Held(run[i].queues[q].fields) == run[i].queues[q].Held()
  {
    RunKeepsInv(run, i);
    assert QueueInv(run[i].queues[q]);
  }

  /**
   When an item begins, on the thread or inline, every item its markers name has finished, on its own queue or another.
   */
  lemma {:induction false} MarkersComeFirst(run: seq<System>, i: nat, q: nat, n: nat, m: Marker)
    requires IsRun(run) && i < |run| && run[i].Has(q)
    requires n < |run[i].queues[q].began| && n < |run[i].queues[q].afters| && m in run[i].queues[q].afters[n]
    ensures run[i].Finished(m) && |run[i].queues[m.queue].results| >= m.number
  {
    RunKeepsInv(run, i);
    assert MarkersMet(run[i], q);
    var k :| 0 <= k < |run[i].queues[q].afters[n]| && run[i].queues[q].afters[n][k] == m;
    assert run[i].Finished(run[i].queues[q].afters[n][k]);
    assert QueueInv(run[i].queues[m.queue]);
  }

  /**
   `idle`: if the copy of the completed count read at one moment is the submitted count read at a later one, nothing was
   queued or running at the first.
   */
  lemma {:induction false} IdleIsTrue(run: seq<System>, i: nat, j: nat, q: nat)
    requires IsRun(run) && i <= j < |run| && run[i].Has(q) && run[j].Has(q)
    requires run[i].queues[q].fields.hint == run[j].queues[q].fields.submitted
    ensures var v := run[i].queues[q];
            v.fields.completed == v.fields.submitted && v.fields.items == [] && v.worker == Resting
            && !v.fields.inlineOn
  {
    RunGrows(run, i, j, q);
    RunKeepsInv(run, i);
    assert QueueInv(run[i].queues[q]);
  }

  /** `done` and `wait`: a yes, through the copy or the count, means the item has finished, then and for good. */
  lemma {:induction false} DoneIsTrue(run: seq<System>, i: nat, j: nat, m: Marker)
    requires IsRun(run) && i <= j < |run| && run[i].SaysDone(m)
    ensures run[j].Finished(m) && |run[j].queues[m.queue].results| >= m.number
  {
    RunKeepsInv(run, i);
    SaysDoneIsTrue(run[i], m);
    RunGrows(run, i, j, m.queue);
    RunKeepsInv(run, j);
    assert QueueInv(run[j].queues[m.queue]);
  }

  lemma {:induction false} FirstFailureFinds(results: seq<Error>, k: nat)
    requires k < |results| && results[k] != Ok
    ensures FirstFailure(results) != Ok
  {
    if results[0] == Ok {
      FirstFailureFinds(results[1..], k - 1);
    }
  }

  /** A caller that saw a failed item done finds a failure to take, unless a take has already answered for that item. */
  lemma {:induction false} FailureIsFound(run: seq<System>, i: nat, j: nat, q: nat, n: nat)
    requires IsRun(run) && i <= j < |run| && run[i].SaysDone(Marker(q, n + 1))
    requires n < |run[i].queues[q].results| && run[i].queues[q].results[n] != Ok
    requires run[j].Has(q) && run[j].queues[q].Cut() <= n
    ensures run[j].queues[q].fields.failedSince && run[j].queues[q].fields.error != Ok
  {
    RunKeepsInv(run, i);
    RunKeepsInv(run, j);
    assert QueueInv(run[i].queues[q]) && QueueInv(run[j].queues[q]);
    RunGrows(run, i, j, q);
    FailureIsKept(run[j].queues[q], n);
  }

  lemma {:induction false} FailureIsKept(v: QueueState, n: nat)
    requires Reported(v) && v.Cut() <= n < v.noted && v.results[n] != Ok
    ensures v.fields.failedSince && v.fields.error != Ok
  {
    FirstFailureFinds(v.results[v.Cut()..v.noted], n - v.Cut());
  }

  /**
   take_error answered without the lock: a clear flag means no failure among the results noted since the last take.
   */
  lemma {:induction false} ClearFlagIsTrue(run: seq<System>, i: nat, q: nat, k: nat)
    requires IsRun(run) && i < |run| && run[i].Has(q) && !run[i].queues[q].fields.failedSince
    requires run[i].queues[q].Cut() <= k < run[i].queues[q].noted
    ensures k < |run[i].queues[q].results| && run[i].queues[q].results[k] == Ok
  {
    var v := run[i].queues[q];
    RunKeepsInv(run, i);
    assert QueueInv(v);
    if v.results[k] != Ok {
      FirstFailureFinds(v.results[v.Cut()..v.noted], k - v.Cut());
    }
  }

  lemma {:induction false} TakesCover(takes: seq<Take>, results: seq<Error>, k: nat, n: nat)
    requires TakesRight(takes, results) && n <= |takes| && k < (if n == 0 then 0 else takes[n - 1].to)
    ensures exists t :: 0 <= t < n && takes[t].from <= k < takes[t].to
  {
    if n > 0 {
      assert TakeIsRight(takes, results, n - 1);
      if k < takes[n - 1].from {
        TakesCover(takes, results, k, n - 1);
      }
    }
  }

  lemma {:induction false} TakesApart(takes: seq<Take>, results: seq<Error>, a: nat, b: nat)
    requires TakesRight(takes, results) && a < b < |takes|
    ensures takes[a].to <= takes[b].from
    decreases b
  {
    assert TakeIsRight(takes, results, b);
    if a + 1 < b {
      TakesApart(takes, results, a, b - 1);
      assert TakeIsRight(takes, results, b - 1);
    }
  }

  /**
   Every result up to the last take is answered for by exactly one take, and that take gave out the first failure of its
   stretch.
   */
  lemma {:induction false} FailuresGivenOnce(run: seq<System>, i: nat, q: nat, k: nat)
    requires IsRun(run) && i < |run| && run[i].Has(q) && k < run[i].queues[q].Cut()
    ensures var v := run[i].queues[q];
            exists t :: && 0 <= t < |v.takes| && v.takes[t].from <= k < v.takes[t].to <= |v.results|
                        && v.takes[t].given == FirstFailure(v.results[v.takes[t].from..v.takes[t].to])
                        && forall u | 0 <= u < |v.takes| && v.takes[u].from <= k < v.takes[u].to :: u == t
  {
    var v := run[i].queues[q];
    RunKeepsInv(run, i);
    assert QueueInv(v);
    TakesCover(v.takes, v.results, k, |v.takes|);
    var t :| 0 <= t < |v.takes| && v.takes[t].from <= k < v.takes[t].to;
    assert TakeIsRight(v.takes, v.results, t);
    forall u | 0 <= u < |v.takes| && v.takes[u].from <= k < v.takes[u].to
      ensures u == t
    {
      if u < t {
        TakesApart(v.takes, v.results, u, t);
      } else if t < u {
        TakesApart(v.takes, v.results, t, u);
      }
    }
  }

  // ---- No deadlock -------------------------------------------------------------

  /** A step that work already submitted takes: nothing here needs another caller. */
  predicate Progress(step: Step) {
    step.TakeFront? || step.PassMarker? || step.Begin? || step.Count? || step.Note? || step.Publish?
  }

  /** When the oldest unfinished item of a pending queue was submitted. */
  function OldestStamp(v: QueueState): nat {
    if v.fields.completed < |v.stamps| then v.stamps[v.fields.completed] else 0
  }

  /** Among the first n queues, a pending one whose oldest item is the oldest of all of theirs. */
  lemma {:induction false} OldestQueue(queues: seq<QueueState>, n: nat) returns (q: nat)
    requires n <= |queues| && exists p: nat :: p < n && queues[p].Pending()
    ensures q < n && queues[q].Pending()
    ensures forall p: nat | p < n && queues[p].Pending() :: OldestStamp(queues[q]) <= OldestStamp(queues[p])
  {
    if exists p: nat :: p < n - 1 && queues[p].Pending() {
      q := OldestQueue(queues, n - 1);
      if queues[n - 1].Pending() && OldestStamp(queues[n - 1]) < OldestStamp(queues[q]) {
        q := n - 1;
      }
    } else {
      q := n - 1;
    }
  }

  /**
   A step of queue q's own work, which is on its oldest item, or one by which a queue makes one of the stores that end
   an item.
   */
  ghost predicate Moves(s: System, q: nat, r: nat, step: Step) {
    Progress(step) && Enabled(s, r, step) && (r == q || step.Note? || step.Publish?)
  }

  /** No queue has an unfinished item older than queue q's oldest. */
  ghost predicate Oldest(s: System, q: nat) {
    && s.Has(q) && s.queues[q].Pending()
    && forall p: nat | s.Has(p) && s.queues[p].Pending() :: OldestStamp(s.queues[q]) <= OldestStamp(s.queues[p])
  }

  /** The globally oldest unfinished item, or one of the stores that end another, can always move. */
  lemma {:induction false} OldestCanMove(s: System, q: nat)
    requires Inv(s) && Oldest(s, q)
    ensures exists r: nat, step :: Moves(s, q, r, step)
  {
    var v := s.queues[q];
    assert QueueInv(v);
    if v.ending.AfterCount? {
      assert Moves(s, q, q, Note);
    } else if v.ending == AfterNote {
      assert Moves(s, q, q, Publish);
    } else if v.ItemRuns() {
      assert Moves(s, q, q, Count(Ok));
    } else if v.worker == Resting {
      assert Moves(s, q, q, TakeFront);
    } else if v.worker.next >= |v.worker.item.after| {
      assert Moves(s, q, q, Begin);
    } else {
      WaiterCanMove(s, q);
    }
  }

  /** The oldest item waits for nothing that is not done, or whose queue is between the stores that end an item. */
  lemma {:induction false} WaiterCanMove(s: System, q: nat)
    requires Inv(s) && Oldest(s, q)
    requires s.queues[q].worker.Waiting? && s.queues[q].worker.next < |s.queues[q].worker.item.after|
    ensures exists r: nat, step :: Moves(s, q, r, step)
  {
    var v := s.queues[q];
    var m, n := v.worker.item.after[v.worker.next], v.worker.item.number - 1;
    assert QueueInv(v) && MarkersOlder(s, q);
    assert Older(s, q, n, v.afters[n][v.worker.next]);
    var w := s.queues[m.queue];
    assert QueueInv(w);
    if m.queue == q || s.SaysDone(m) {
      assert Moves(s, q, q, PassMarker);
    } else if w.fields.completed >= m.number {
      if w.ending.AfterCount? {
        assert Moves(s, q, m.queue, Note);
      } else {
        assert Moves(s, q, m.queue, Publish);
      }
    } else {
      assert false;
    }
  }

  /**
   No reachable state with pending items is stuck: the queue with the globally oldest can move, or a store that ends an
   item can be made.
   */
  lemma {:induction false} NeverStuck(run: seq<System>, i: nat, q: nat) returns (oldest: nat)
    requires IsRun(run) && i < |run| && run[i].Has(q) && run[i].queues[q].Pending()
    ensures Oldest(run[i], oldest) && exists r: nat, step :: Moves(run[i], oldest, r, step)
  {
    RunKeepsInv(run, i);
    oldest := OldestQueue(run[i].queues, |run[i].queues|);
    OldestCanMove(run[i], oldest);
  }

  // ---- Everything submitted runs -----------------------------------------------

  function ItemsWork(items: seq<Item>): nat { if items == [] then 0 else |items[0].after| + 7 + ItemsWork(items[1..]) }

  /** An upper bound on the steps a queue's submitted work still takes. */
  function Work(v: QueueState): nat {
    ItemsWork(v.fields.items) +
    (match v.worker
     case Resting => if v.fields.inlineOn then 4 else 0
     case Waiting(item, next) => if next <= |item.after| then |item.after| - next + 6 else 6
     case Running(_) => 4) +
    (match v.ending case Unlocked => 0 case AfterCount(_) => 2 case AfterNote => 1)
  }

  function TotalWork(queues: seq<QueueState>): nat {
    if queues == [] then 0 else Work(queues[0]) + TotalWork(queues[1..])
  }

  lemma {:induction false} TotalWorkUpdates(queues: seq<QueueState>, q: nat, v: QueueState)
    requires q < |queues|
    ensures TotalWork(queues[q := v]) == TotalWork(queues) - Work(queues[q]) + Work(v)
  {
    if q == 0 {
      assert queues[q := v][1..] == queues[1..];
    } else {
      assert queues[q := v][1..] == queues[1..][q - 1 := v];
      TotalWorkUpdates(queues[1..], q - 1, v);
    }
  }

  lemma {:induction false} ProgressTakesWork(s: System, q: nat, step: Step)
    requires Inv(s) && Enabled(s, q, step) && Progress(step)
    ensures TotalWork(Apply(s, q, step).queues) < TotalWork(s.queues)
  {
    var v := s.queues[q];
    assert QueueInv(v);
    TotalWorkUpdates(s.queues, q, Moved(s, q, step));
  }

  ghost predicate AllDone(s: System) { forall q: nat | s.Has(q) :: !s.queues[q].Pending() }

  /** A run of progress steps. */
  ghost predicate ProgressRun(path: seq<System>) {
    && |path| > 0
    && forall i | 0 <= i < |path| - 1 :: ProgressNext(path[i], path[i + 1])
  }

  ghost predicate ProgressNext(s: System, t: System) {
    exists q: nat, step :: Progress(step) && Enabled(s, q, step) && t == Apply(s, q, step)
  }

  /**
   From every reachable state the work already submitted can run to its end, whatever results it has; and no sequence of
   progress steps goes on forever, since each takes from TotalWork (ProgressTakesWork).
   */
  lemma {:induction false} WorkDrains(s: System) returns (path: seq<System>)
    requires Inv(s)
    ensures ProgressRun(path) && path[0] == s && Inv(path[|path| - 1]) && AllDone(path[|path| - 1])
    decreases TotalWork(s.queues)
  {
    if AllDone(s) {
      path := [s];
    } else {
      var oldest := OldestQueue(s.queues, |s.queues|);
      OldestCanMove(s, oldest);
      var q: nat, step :| Moves(s, oldest, q, step);
      ProgressTakesWork(s, q, step);
      StepKeepsInv(s, q, step);
      var rest := WorkDrains(Apply(s, q, step));
      path := [s] + rest;
      Prepend(s, rest, q, step);
    }
  }

  lemma {:induction false} Prepend(s: System, rest: seq<System>, q: nat, step: Step)
    requires ProgressRun(rest) && Progress(step) && Enabled(s, q, step) && rest[0] == Apply(s, q, step)
    ensures ProgressRun([s] + rest)
  {
    var path := [s] + rest;
    forall i | 0 <= i < |path| - 1
      ensures ProgressNext(path[i], path[i + 1])
    {
      if i > 0 {
        assert ProgressNext(rest[i - 1], rest[i - 1 + 1]);
      }
    }
  }

  /** Where nothing is pending every number that was given out has run exactly once and finished. */
  lemma {:induction false} DoneMeansRanOnce(s: System, q: nat)
    requires Inv(s) && s.Has(q) && !s.queues[q].Pending()
    ensures var v := s.queues[q];
            |v.began| == |v.results| == v.fields.submitted && forall k | 0 <= k < |v.began| :: v.began[k] == k + 1
  {
    assert QueueInv(s.queues[q]);
  }
}
