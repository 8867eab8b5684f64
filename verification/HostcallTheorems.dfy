/** What the hostcall buffer promises, over every run of the host and any number of waves. */
module HostcallTheorems {
  import opened Powers
  import opened HostcallSystem

  ghost predicate Next(s: Buffer, t: Buffer) { exists step :: Enabled(s, step) && t == Apply(s, step) }

  ghost predicate NextAt(run: seq<Buffer>, i: nat)
    requires i + 1 < |run|
  {
    Next(run[i], run[i + 1])
  }

  ghost predicate IsRun(run: seq<Buffer>) {
    |run| > 0 && Initial(run[0]) && forall i | 0 <= i < |run| - 1 :: NextAt(run, i)
  }

  /** The invariant holds in every state of every run. */
  lemma {:induction false} RunKeepsInv(run: seq<Buffer>, i: nat)
    requires IsRun(run) && i < |run|
    ensures Inv(run[i])
  {
    if i == 0 {
      InitialIsOk(run[0]);
    } else {
      RunKeepsInv(run, i - 1);
      assert NextAt(run, i - 1);
      var step :| Enabled(run[i - 1], step) && run[i] == Apply(run[i - 1], step);
      StepKeepsInv(run[i - 1], step);
    }
  }

  ghost predicate TagsOk(s: Buffer) { forall i | 0 <= i < |s.packets| :: s.packets[i].tag > 0 }

  lemma {:induction false} StepKeepsTags(s: Buffer, step: Step)
    requires TagsOk(s) && Enabled(s, step)
    ensures TagsOk(Apply(s, step)) && |Apply(s, step).packets| == |s.packets|
  {
  }

  lemma {:induction false} RunKeepsTags(run: seq<Buffer>, i: nat)
    requires IsRun(run) && i < |run|
    ensures TagsOk(run[i]) && |run[i].packets| == |run[0].packets|
  {
    if i > 0 {
      RunKeepsTags(run, i - 1);
      assert NextAt(run, i - 1);
      var step :| Enabled(run[i - 1], step) && run[i] == Apply(run[i - 1], step);
      StepKeepsTags(run[i - 1], step);
    }
  }

  /**
   The word of a stack's top is zero exactly where the stack is empty, and masked it is the index of the first packet.
   */
  ghost predicate WordReads(top: Entry, list: seq<nat>, packets: nat) {
    && (Encode(top, packets) == 0 <==> list == [])
    && (list != [] ==> packets > 0 && Encode(top, packets) > 0 && BitAnd(Encode(top, packets), packets - 1) == list[0])
  }

  lemma {:induction false} TopReads(packets: seq<Packet>, top: Entry, list: seq<nat>, n: nat)
    requires Chain(packets, top, list) && |packets| == Pow2(n) && forall i | 0 <= i < |packets| :: packets[i].tag > 0
    ensures WordReads(top, list, |packets|)
  {
    if list != [] {
      EntryDecodes(top, |packets|, n);
    }
  }

  /**
   In every state of every run, from a power of two packets, the words the host walks by are read as the entries they
   are.
   */
  lemma {:induction false} WordsRead(run: seq<Buffer>, at: nat, n: nat)
    requires IsRun(run) && at < |run| && |run[0].packets| == Pow2(n)
    ensures var s := run[at];
            && WordReads(s.freeTop, s.free, |s.packets|) && WordReads(s.readyTop, s.ready, |s.packets|)
            && WordReads(HostTop(s.host), s.walk, |s.packets|)
  {
    var s := run[at];
    RunKeepsInv(run, at);
    RunKeepsTags(run, at);
    TopReads(s.packets, s.freeTop, s.free, n);
    TopReads(s.packets, s.readyTop, s.ready, n);
    TopReads(s.packets, HostTop(s.host), s.walk, n);
  }

  /**
   Every packet is in exactly one place: on the free stack, on the ready stack, among those the host has taken, the one
   it is at, or one wave's own. The stacks' words and the links from packet to packet lead through exactly the packets
   there.
   */
  lemma {:induction false} InOnePlace(run: seq<Buffer>, at: nat, i: nat)
    requires IsRun(run) && at < |run| && i < |run[at].packets|
    ensures var s := run[at];
            && i < |s.place|
            && (i in s.free <==> s.place[i] == Free) && (i in s.ready <==> s.place[i].Ready?)
            && (i in s.walk <==> s.place[i].Walk?)
            && ((s.host.Loaded? || s.host.Served?) && s.host.index == i <==> s.place[i].Current?)
            && (forall w | 0 <= w < |s.waves| && Owns(s.waves[w]) && s.waves[w].i == i ::
                  s.place[i] != Free && s.place[i].wave == w)
            && (s.place[i] != Free
                ==> s.place[i].wave < |s.waves| && Owns(s.waves[s.place[i].wave]) && s.waves[s.place[i].wave].i == i)
            && NoRepeats(s.free) && NoRepeats(s.ready) && NoRepeats(s.walk)
            && Chain(s.packets, s.freeTop, s.free) && Chain(s.packets, s.readyTop, s.ready)
            && Chain(s.packets, HostTop(s.host), s.walk)
  {
    var s := run[at];
    RunKeepsInv(run, at);
    assert PacketOk(s, i) && PacketListed(s, i);
    forall w | 0 <= w < |s.waves| && Owns(s.waves[w]) && s.waves[w].i == i
      ensures s.place[i] != Free && s.place[i].wave == w
    {
      assert WaveOk(s, w);
    }
  }

  // ---- Each call once ----------------------------------------------------------

  function Occurs(served: seq<nat>, c: nat): nat {
    if served == [] then 0 else Occurs(served[..|served| - 1], c) + (if served[|served| - 1] == c then 1 else 0)
  }

  /** A step serves a call or leaves the log; it makes a call or leaves the counts' length. */
  predicate Logs(s: Buffer, t: Buffer) {
    || (t.served == s.served && (t.count == s.count || t.count == s.count + [0]))
    || exists c | 0 <= c < |s.count| :: t.served == s.served + [c] && t.count == s.count[c := s.count[c] + 1]
  }

  lemma {:induction false} NextLogs(s: Buffer, t: Buffer)
    requires Next(s, t)
    ensures Logs(s, t)
  {
    var step :| Enabled(s, step) && t == Apply(s, step);
    match step
    case Start =>
    case OfWave(w, act) => WaveLogs(s, w, act);
    case OfHost(does) => HostLogs(s, does);
  }

  lemma {:induction false} WaveLogs(s: Buffer, w: nat, act: WaveAction)
    requires w < |s.waves| && WaveEnabled(s, s.waves[w], act)
    ensures Logs(s, WaveStep(s, w, act))
  {
  }

  lemma {:induction false} HostLogs(s: Buffer, does: HostAction)
    requires HostEnabled(s, does)
    ensures Logs(s, HostStep(s, does))
  {
  }

  lemma {:induction false} OccursMore(served: seq<nat>, c: nat, d: nat)
    ensures Occurs(served + [d], c) == Occurs(served, c) + (if c == d then 1 else 0)
  {
    assert (served + [d])[..|served|] == served;
  }

  /** A call has been served as often as the host's log says, and one that has not been made, never. */
  lemma {:induction false} CountIsServed(run: seq<Buffer>, at: nat, c: nat)
    requires IsRun(run) && at < |run|
    ensures Occurs(run[at].served, c) == if c < |run[at].count| then run[at].count[c] else 0
  {
    if at > 0 {
      CountIsServed(run, at - 1, c);
      assert NextAt(run, at - 1);
      NextLogs(run[at - 1], run[at]);
      LogsCount(run[at - 1], run[at], c);
    }
  }

  lemma {:induction false} LogsCount(s: Buffer, t: Buffer, c: nat)
    requires Logs(s, t) && Occurs(s.served, c) == if c < |s.count| then s.count[c] else 0
    ensures Occurs(t.served, c) == if c < |t.count| then t.count[c] else 0
  {
    if t.served != s.served {
      var d :| 0 <= d < |s.count| && t.served == s.served + [d] && t.count == s.count[d := s.count[d] + 1];
      OccursMore(s.served, c, d);
    }
  }

  /** No call is ever served twice, and one that has not been served is still in its packet, waiting. */
  lemma {:induction false} ServedAtMostOnce(run: seq<Buffer>, at: nat, c: nat)
    requires IsRun(run) && at < |run| && c < |run[at].count|
    ensures Occurs(run[at].served, c) <= 1 && c < |run[at].home|
            && (Occurs(run[at].served, c) == 0 ==> Pending(run[at], c))
  {
    RunKeepsInv(run, at);
    CountIsServed(run, at, c);
  }

  /** A wave that sees its ready bit cleared has had its own call served, once. */
  lemma {:induction false} AnswerIsOwn(run: seq<Buffer>, at: nat, w: nat)
    requires IsRun(run) && at < |run| && w < |run[at].waves| && WaveEnabled(run[at], run[at].waves[w], SeeAnswer)
    ensures var s := run[at];
            s.packets[s.waves[w].i].call < |s.count| && Occurs(s.served, s.packets[s.waves[w].i].call) == 1
            && s.place[s.waves[w].i] == Held(w)
  {
    var s := run[at];
    RunKeepsInv(run, at);
    assert WaveOk(s, w) && PacketOk(s, s.waves[w].i);
    CountIsServed(run, at, s.packets[s.waves[w].i].call);
  }

  // ---- One service -------------------------------------------------------------

  lemma {:induction false} GoalStays(run: seq<Buffer>, a: nat, b: nat)
    requires IsRun(run) && a <= b < |run| && forall k | a <= k < b :: run[k].host != Resting
    ensures run[b].goal == run[a].goal
    decreases b
  {
    if a < b {
      GoalStays(run, a, b - 1);
      assert NextAt(run, b - 1);
    }
  }

  /**
   One service answers exactly the calls on the ready stack at the moment it is taken, in stack order and once each,
   whatever the waves do meanwhile.
   */
  lemma {:induction false} ServiceAnswersReady(run: seq<Buffer>, a: nat, b: nat)
    requires IsRun(run) && a + 1 <= b < |run| && Enabled(run[a], OfHost(TakeReady))
             && run[a + 1] == Apply(run[a], OfHost(TakeReady))
    requires run[b].host == Resting && forall k | a + 1 <= k < b :: run[k].host != Resting
    ensures (forall k | 0 <= k < |run[a].ready| :: run[a].ready[k] < |run[a].packets|)
            && run[b].served == run[a].served + Calls(run[a].packets, run[a].ready)
  {
    TakeSetsGoal(run[a]);
    GoalStays(run, a + 1, b);
    RunKeepsInv(run, b);
    RestMeetsGoal(run[b]);
  }

  lemma {:induction false} TakeSetsGoal(s: Buffer)
    requires Enabled(s, OfHost(TakeReady))
    ensures (forall k | 0 <= k < |s.ready| :: s.ready[k] < |s.packets|)
            && Apply(s, OfHost(TakeReady)).goal == s.served + Calls(s.packets, s.ready)
  {
  }

  lemma {:induction false} RestMeetsGoal(s: Buffer)
    requires Inv(s) && s.host == Resting
    ensures s.served == s.goal
  {
  }

  /** The host is never held up in its walk: some step of its own is always open to it. */
  lemma {:induction false} HostNeverBlocked(s: Buffer) returns (does: HostAction)
    requires Inv(s)
    ensures HostEnabled(s, does) && (s.host != Resting ==> does != TakeReady)
  {
    match s.host
    case Resting => does := TakeReady;
    case AtTop(top) => does := if top == Nil then Finish else LoadPacket;
    case Loaded(i, _) =>
      assert PacketOk(s, i);
      does := Serve;
    case Served(i, _) =>
      assert PacketOk(s, i);
      does := Clear;
  }

  /** Steps the walk has ahead of it. */
  function WalkWork(s: Buffer): nat {
    match s.host
    case Resting => 0
    case AtTop(_) => 1 + 3 * |s.walk|
    case Loaded(_, _) => 3 + 3 * |s.walk|
    case Served(_, _) => 2 + 3 * |s.walk|
  }

  /** The walk ends: each step of the host in it leaves less, and no wave can add to it. */
  lemma {:induction false} WalkEnds(s: Buffer, step: Step)
    requires Inv(s) && Enabled(s, step) && s.host != Resting
    ensures step.OfHost? ==> WalkWork(Apply(s, step)) < WalkWork(s)
    ensures !step.OfHost? ==> WalkWork(Apply(s, step)) == WalkWork(s)
  {
    match step
    case OfHost(does) => HostLeavesLess(s, does);
    case OfWave(w, act) => WaveAddsNothing(s, w, act);
    case _ =>
  }

  lemma {:induction false} WaveAddsNothing(s: Buffer, w: nat, act: WaveAction)
    requires Enabled(s, OfWave(w, act))
    ensures WalkWork(Apply(s, OfWave(w, act))) == WalkWork(s)
  {
  }

  lemma {:induction false} HostLeavesLess(s: Buffer, does: HostAction)
    requires Inv(s) && HostEnabled(s, does) && s.host != Resting
    ensures WalkWork(HostStep(s, does)) < WalkWork(s)
  {
  }

  // ---- Tags --------------------------------------------------------------------

  /**
   A wave's compare-and-swap that succeeds pops the top packet and leaves the rest of the free stack: a packet that left
   and came back carries another tag.
   */
  lemma {:induction false} PopIsSafe(run: seq<Buffer>, at: nat, w: nat)
    requires IsRun(run) && at < |run| && w < |run[at].waves| && WaveEnabled(run[at], run[at].waves[w], Pop)
             && run[at].freeTop == run[at].waves[w].e
    ensures var s, t := run[at], Apply(run[at], OfWave(w, Pop));
            s.free != [] && t.waves[w] == Holding(s.free[0]) && t.free == s.free[1..]
              && Chain(t.packets, t.freeTop, t.free)
  {
    RunKeepsInv(run, at);
    PopTakesTop(run[at], w);
  }
}
