/** What an AQL queue promises, over every run of any number of producers. */
module AqlTheorems {
  import opened Basics
  import opened AqlRing

  ghost predicate Next(s: Ring, t: Ring) { exists step :: Enabled(s, step) && t == Apply(s, step) }

  ghost predicate IsRun(run: seq<Ring>) {
    |run| > 0 && Initial(run[0]) && forall i | 0 <= i < |run| - 1 :: Next(run[i], run[i + 1])
  }

  /** The invariant holds in every state of every run. */
  lemma {:induction false} RunKeepsInv(run: seq<Ring>, i: nat)
    requires IsRun(run) && i < |run|
    ensures Inv(run[i])
  {
    if i == 0 {
      InitialIsOk(run[0]);
    } else {
      RunKeepsInv(run, i - 1);
      assert Next(run[i - 1], run[i - 1 + 1]);
      var step :| Enabled(run[i - 1], step) && run[i] == Apply(run[i - 1], step);
      StepKeepsInv(run[i - 1], step);
    }
  }

  // ---- Exactly once, in order --------------------------------------------------

  /**
   The packets run so far are those reserved for index 0, 1, 2, ... in that order, each published before it ran: none
   twice, none skipped, none changed.
   */
  lemma {:induction false} RunsInOrder(run: seq<Ring>, at: nat, i: nat)
    requires IsRun(run) && at < |run| && i < |run[at].ran|
    ensures i < |run[at].plan| == |run[at].published| && run[at].ran[i] == run[at].plan[i] && run[at].published[i]
  {
    RunKeepsInv(run, at);
  }

  /** Every packet the processor is past has run: nothing below read_index is missed. */
  lemma {:induction false} RunsEveryPacket(run: seq<Ring>, at: nat)
    requires IsRun(run) && at < |run|
    ensures run[at].read <= |run[at].ran| <= run[at].read + 1 && |run[at].ran| <= run[at].write
  {
    RunKeepsInv(run, at);
  }

  ghost predicate Grows(s: Ring, t: Ring) {
    && s.plan <= t.plan && s.ran <= t.ran && s.completed <= t.completed && |s.published| <= |t.published|
    && forall i | 0 <= i < |s.published| && s.published[i] :: t.published[i]
  }

  lemma {:induction false} StepGrows(s: Ring, step: Step)
    requires Enabled(s, step)
    ensures Grows(s, Apply(s, step))
  {
  }

  lemma {:induction false} GrowsOn(s: Ring, t: Ring, u: Ring)
    requires Grows(s, t) && Grows(t, u)
    ensures Grows(s, u)
  {
  }

  lemma {:induction false} NextGrows(run: seq<Ring>, i: nat)
    requires IsRun(run) && i + 1 < |run|
    ensures Grows(run[i], run[i + 1])
  {
    assert Next(run[i], run[i + 1]);
    var step :| Enabled(run[i], step) && run[i + 1] == Apply(run[i], step);
    StepGrows(run[i], step);
  }

  /** The plan for an index never changes once it is reserved, and what is published, run or completed stays so. */
  lemma {:induction false} PlansStay(run: seq<Ring>, at: nat, later: nat)
    requires IsRun(run) && at <= later < |run|
    ensures Grows(run[at], run[later])
  {
    forall i | 0 <= i < |run| - 1
      ensures Grows(run[i], run[i + 1])
    {
      NextGrows(run, i);
    }
    GrowthAddsUp(run, at, later);
  }

  lemma {:induction false} GrowthAddsUp(run: seq<Ring>, at: nat, later: nat)
    requires (forall i | 0 <= i < |run| - 1 :: Grows(run[i], run[i + 1])) && at <= later < |run|
    ensures Grows(run[at], run[later])
    decreases later
  {
    if at < later {
      GrowthAddsUp(run, at, later - 1);
      assert Grows(run[later - 1], run[later - 1 + 1]);
      GrowsOn(run[at], run[later - 1], run[later]);
    }
  }

  /** The store of INVALID finds the packet that has just run, and leaves every other published packet where it is. */
  lemma {:induction false} ClearErasesItsOwn(run: seq<Ring>, at: nat, i: nat)
    requires IsRun(run) && at < |run| && Enabled(run[at], Clear)
    requires i < |run[at].published| && run[at].published[i] && i > run[at].processor.at
    ensures var s, t := run[at], Apply(run[at], Clear);
            && |s.plan| == |s.published| && s.processor.at < |s.plan|
            && s.slots[Place(s.processor.at, s.Size())]
               == Slot(Type(s.plan[s.processor.at].kind), s.plan[s.processor.at].body)
            && t.slots[Place(i, t.Size())] == s.slots[Place(i, s.Size())] == Slot(Type(s.plan[i].kind), s.plan[i].body)
  {
    RunKeepsInv(run, at);
    var s := run[at];
    assert SlotOk(s, s.processor.at) && SlotOk(s, i);
    OtherSlots(s, s.processor.at, i);
  }

  /** A producer writes a body only into a slot that holds no packet the processor still needs. */
  lemma {:induction false} BodyOverwritesNothing(run: seq<Ring>, at: nat, p: nat)
    requires IsRun(run) && at < |run| && (Enabled(run[at], WriteBody(p)) || Enabled(run[at], WriteHeader(p)))
    ensures var s := run[at]; s.slots[Place(s.producers[p].next, s.Size())].header == Invalid
  {
    RunKeepsInv(run, at);
    FirstIsKept(run[at], p);
    assert ProducerOk(run[at], p);
    assert SlotOk(run[at], run[at].producers[p].next);
  }

  // ---- Completion signals ------------------------------------------------------

  /** How many of these packets name this signal. */
  function Named(packets: seq<Packet>, signal: nat): nat {
    if packets == [] then 0
    else var last := packets[|packets| - 1];
         Named(packets[..|packets| - 1], signal) + (if last.body.signal == Some(signal) then 1 else 0)
  }

  lemma {:induction false} StepDecrements(s: Ring, step: Step, signal: nat)
    requires Enabled(s, step) && signal < |s.signals|
    ensures var t := Apply(s, step);
            |t.signals| == |s.signals|
            && t.signals[signal] + Named(t.completed, signal) == s.signals[signal] + Named(s.completed, signal)
  {
    if step.Complete? {
      assert (s.completed + [s.processor.packet])[..|s.completed|] == s.completed;
    }
  }

  /**
   A signal has been decremented once for each completed packet that names it, no more: the completed packets being
   those of index 0, 1, 2, ...
   */
  lemma {:induction false} CompletesOnce(run: seq<Ring>, at: nat, signal: nat)
    requires IsRun(run) && at < |run| && signal < |run[0].signals|
    ensures |run[at].signals| == |run[0].signals|
            && run[at].signals[signal] == run[0].signals[signal] - Named(run[at].completed, signal)
  {
    if at > 0 {
      CompletesOnce(run, at - 1, signal);
      assert Next(run[at - 1], run[at - 1 + 1]);
      var step :| Enabled(run[at - 1], step) && run[at] == Apply(run[at - 1], step);
      StepDecrements(run[at - 1], step, signal);
    }
  }

  /** The packets completed are those run, in order, but for the last where it is still at work. */
  lemma {:induction false} CompletesWhatRan(run: seq<Ring>, at: nat)
    requires IsRun(run) && at < |run|
    ensures run[at].completed <= run[at].ran <= run[at].plan && |run[at].ran| <= |run[at].completed| + 1
  {
    RunKeepsInv(run, at);
  }

  // ---- Progress ----------------------------------------------------------------

  /** A step of the work already reserved. */
  predicate Works(step: Step) { !step.Join? && !step.Reserve? }

  /**
   While an index is reserved that the processor is not past, the processor or the producer of the first such index can
   go on: no producer waits on one behind it.
   */
  lemma {:induction false} NeverStuck(s: Ring) returns (step: Step)
    requires Inv(s) && (s.read < s.write || s.processor.Advanced?)
    ensures Works(step) && Enabled(s, step)
  {
    if s.processor.Looking? {
      step := LoadRead;
    } else if s.processor.At? {
      step := TestWrite;
    } else if s.processor.Ran? {
      step := Clear;
    } else if s.processor.Cleared? {
      step := Advance;
    } else if s.processor.Advanced? {
      step := Complete;
    } else if s.published[s.read] {
      assert SlotOk(s, s.read);
      step := if s.processor.Behind? then TestHeader else Run;
    } else {
      assert Owned(s, s.read);
      var p := s.owner[s.read];
      FirstIsKept(s, p);
      assert ProducerOk(s, p);
      step := if !s.producers[p].room then SeeRoom(p) else if !s.producers[p].body then WriteBody(p)
        else WriteHeader(p);
    }
  }

  /** Steps a producer has ahead of it. */
  function ProducerWork(d: Producer): int { 3 * |d.packets| - (if d.room then 1 else 0) - (if d.body then 1 else 0) }

  function ProducersWork(ds: seq<Producer>): int {
    if ds == [] then 0 else ProducerWork(ds[0]) + ProducersWork(ds[1..])
  }

  /** Steps the processor has ahead of it: seven for each index it is not past. */
  function ProcessorWork(s: Ring): int {
    7 * (s.write - s.read) +
    match s.processor
    case Looking => 1
    case At(_) => 0
    case Behind(_) => -1
    case Ready(_) => -2
    case Ran(_, _) => -3
    case Cleared(_, _) => -4
    case Advanced(_, _) => 2
  }

  function Work(s: Ring): int { ProducersWork(s.producers) + ProcessorWork(s) }

  lemma {:induction false} ProducersWorkUpdates(ds: seq<Producer>, p: nat, d: Producer)
    requires p < |ds|
    ensures ProducersWork(ds[p := d]) == ProducersWork(ds) - ProducerWork(ds[p]) + ProducerWork(d)
  {
    if p > 0 {
      assert ds[p := d][1..] == ds[1..][p - 1 := d];
      ProducersWorkUpdates(ds[1..], p - 1, d);
    } else {
      assert ds[p := d][1..] == ds[1..];
    }
  }

  /** Every step of reserved work leaves less of it. */
  lemma {:induction false} StepTakesWork(s: Ring, step: Step)
    requires Inv(s) && Works(step) && Enabled(s, step)
    ensures Work(Apply(s, step)) < Work(s)
  {
    if step.SeeRoom? || step.WriteBody? || step.WriteHeader? {
      assert ProducerOk(s, step.p);
      ProducersWorkUpdates(s.producers, step.p, Apply(s, step).producers[step.p]);
    }
  }

  lemma {:induction false} ProducersWorkIsNatural(s: Ring, p: nat)
    requires Inv(s) && p <= |s.producers|
    ensures ProducersWork(s.producers[p..]) >= 0
    decreases |s.producers| - p
  {
    if p < |s.producers| {
      assert ProducerOk(s, p);
      assert s.producers[p..][1..] == s.producers[p + 1..];
      ProducersWorkIsNatural(s, p + 1);
    }
  }

  lemma {:induction false} WorkIsNatural(s: Ring)
    requires Inv(s)
    ensures Work(s) >= 0
  {
    ProducersWorkIsNatural(s, 0);
    assert s.producers[0..] == s.producers;
  }

  ghost predicate WorksNext(s: Ring, t: Ring) { exists step :: Works(step) && Enabled(s, step) && t == Apply(s, step) }

  /** However the steps interleave, no more of them can be taken without a new reservation than the work there is. */
  lemma {:induction false} WorkEnds(states: seq<Ring>)
    requires |states| > 0 && Inv(states[0]) && forall i | 0 <= i < |states| - 1 :: WorksNext(states[i], states[i + 1])
    ensures Inv(states[|states| - 1]) && 0 <= Work(states[|states| - 1]) <= Work(states[0]) - (|states| - 1)
  {
    WorkIsNatural(states[0]);
    for i := 0 to |states| - 1
      invariant Lessened(states[0], states[i], i)
    {
      assert WorksNext(states[i], states[i + 1]);
      NextLessens(states[0], states[i], states[i + 1], i);
    }
  }

  ghost predicate Lessened(s: Ring, t: Ring, steps: nat) { Inv(t) && 0 <= Work(t) <= Work(s) - steps }

  lemma {:induction false} NextLessens(s: Ring, t: Ring, u: Ring, steps: nat)
    requires Lessened(s, t, steps) && WorksNext(t, u)
    ensures Lessened(s, u, steps + 1)
  {
    NextTakesWork(t, u);
  }

  lemma {:induction false} NextTakesWork(s: Ring, t: Ring)
    requires Inv(s) && WorksNext(s, t)
    ensures Inv(t) && 0 <= Work(t) < Work(s)
  {
    var step :| Works(step) && Enabled(s, step) && t == Apply(s, step);
    StepKeepsInv(s, step);
    StepTakesWork(s, step);
    WorkIsNatural(t);
  }

  /**
   Where no step of reserved work is left, which WorkEnds says comes, every packet reserved has run and completed, in
   order.
   */
  lemma {:induction false} EverythingRuns(s: Ring)
    requires Inv(s) && forall step | Works(step) :: !Enabled(s, step)
    ensures s.ran == s.completed == s.plan && s.read == s.write && forall i | 0 <= i < |s.published| :: s.published[i]
  {
    if s.read < s.write || s.processor.Advanced? {
      var step := NeverStuck(s);
      assert false;
    }
    assert !Enabled(s, LoadRead);
    assert s.plan[..s.write] == s.plan;
  }
}
