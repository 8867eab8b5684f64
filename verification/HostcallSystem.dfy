/**
 The hostcall buffer as a step machine: the host's service walk, and any number of waves that pop a packet off the free
 stack, fill it, push it on the ready stack, spin until it is answered and push it back with its tag stepped. The waves
 are ROCm's device library, here only as the environment: every shared load, store and compare-and-swap of theirs is a
 step.
 */
module HostcallSystem {
  import opened Powers

  /** An entry of a stack: nothing, or a packet and its tag. */
  datatype Entry = Nil | Top(index: nat, tag: nat)

  /** The entry as the 64-bit word the stacks hold. */
  function Encode(e: Entry, packets: nat): int { if e == Nil then 0 else e.index + Times(packets, e.tag) }

  /** Bitwise and. */
  function BitAnd(a: nat, b: nat): nat {
    if a == 0 || b == 0 then 0 else (if a % 2 == b % 2 == 1 then 1 else 0) + 2 * BitAnd(a / 2, b / 2)
  }

  /** A mask of the low n bits takes them out of a number, whatever is above them. */
  lemma {:induction false} MaskTakesLow(low: nat, high: nat, n: nat)
    requires low < Pow2(n)
    ensures Shl(high, n) >= 0 && BitAnd(low + Shl(high, n), Pow2(n) - 1) == low
  {
    ShlSign(high, n);
    if n > 0 {
      ShlSign(high, n - 1);
      MaskTakesLow(low / 2, high, n - 1);
      assert (low + Shl(high, n)) / 2 == low / 2 + Shl(high, n - 1) && (Pow2(n) - 1) / 2 == Pow2(n - 1) - 1;
    }
  }

  lemma {:induction false} TagsAreHigh(tag: nat, n: nat)
    ensures Times(Pow2(n), tag) == Shl(tag, n)
  {
    if tag == 0 {
      ShlSign(0, n);
    } else {
      TagsAreHigh(tag - 1, n);
      ShlAdd(tag - 1, 1, n);
    }
  }

  /**
   An entry is never the empty stack's zero, tags being from one on, and the index mask takes the packet out of it.
   */
  lemma {:induction false} EntryDecodes(e: Entry, packets: nat, n: nat)
    requires e.Top? && e.index < packets && e.tag > 0 && packets == Pow2(n)
    ensures Encode(e, packets) > 0 && BitAnd(Encode(e, packets), packets - 1) == e.index
  {
    TimesGrows(packets, 1, e.tag);
    TagsAreHigh(e.tag, n);
    MaskTakesLow(e.index, e.tag, n);
  }

  /** Two entries are one word only where they are one entry. */
  lemma {:induction false} EntriesDiffer(d: Entry, e: Entry, packets: nat)
    requires d.Top? && e.Top? && d.index < packets && e.index < packets && Encode(d, packets) == Encode(e, packets)
    ensures d == e
  {
    if d.tag < e.tag {
      TimesGrows(packets, d.tag + 1, e.tag);
    } else if e.tag < d.tag {
      TimesGrows(packets, e.tag + 1, d.tag);
    }
  }

  /**
   Where a packet is: on the free stack, a wave's own, on the ready stack, taken by the host and not yet reached, or
   being served.
   */
  datatype Place = Free | Held(wave: nat) | Ready(wave: nat) | Walk(wave: nat) | Current(wave: nat)

  /**
   A wave: idle; popping (top seen, its next seen); holding its packet; with it filled; pushing (ready top seen,
   linked); spinning on its call; answered; returning (free top seen, linked).
   */
  datatype Wave =
    | Idle | SawTop(e: Entry) | SawNext(e: Entry, n: Entry)
    | Holding(i: nat) | Filled(i: nat) | SawReady(i: nat, e: Entry) | Linked(i: nat, e: Entry) | Spinning(i: nat)
    | Answered(i: nat) | SawFree(i: nat, e: Entry) | Relinked(i: nat, e: Entry)

  /**
   The host: outside service, at the head of its loop with top, with the packet's next loaded, with the packet served.
   */
  datatype Host = Resting | AtTop(top: Entry) | Loaded(index: nat, next: Entry) | Served(index: nat, next: Entry)

  datatype Packet = Packet(next: Entry, tag: nat, control: bool, call: nat)

  /**
   The buffer. From `free` on its fields are history: the packets on each stack, those the host has taken and not
   reached, where each packet is; for each call the packet it is in and how often it has been served; the calls served,
   in order, and what they are to be when the walk ends.
   */
  datatype Buffer = Buffer(packets: seq<Packet>, freeTop: Entry, readyTop: Entry, waves: seq<Wave>, host: Host,
                           free: seq<nat>, ready: seq<nat>, walk: seq<nat>, place: seq<Place>, home: seq<nat>,
                           count: seq<nat>, served: seq<nat>, goal: seq<nat>)

  // ---- Steps -------------------------------------------------------------------

  datatype WaveAction = LoadFree | LoadNext | Pop | Fill | LoadReady | StoreNext | Push | SeeAnswer | LoadTop
      | StoreLink | Return
  datatype HostAction = TakeReady | LoadPacket | Serve | Clear | Finish
  datatype Step = Start | OfWave(w: nat, act: WaveAction) | OfHost(does: HostAction)

  predicate Has(s: Buffer, i: nat) { i < |s.packets| == |s.place| }

  predicate WaveEnabled(s: Buffer, v: Wave, act: WaveAction) {
    match act
    case LoadFree => v == Idle && s.freeTop.Top?
    case LoadNext => v.SawTop? && v.e.Top? && Has(s, v.e.index)
    case Pop => v.SawNext? && v.e.Top? && Has(s, v.e.index)
    case Fill => v.Holding? && Has(s, v.i)
    case LoadReady => v.Filled?
    case StoreNext => v.SawReady? && Has(s, v.i)
    case Push => v.Linked? && Has(s, v.i)
    case SeeAnswer => v.Spinning? && Has(s, v.i) && !s.packets[v.i].control
    case LoadTop => v.Answered?
    case StoreLink => v.SawFree? && Has(s, v.i)
    case Return => v.Relinked? && Has(s, v.i)
  }

  predicate HostEnabled(s: Buffer, does: HostAction) {
    match does
    case TakeReady => s.host == Resting && (forall k | 0 <= k < |s.ready| :: Has(s, s.ready[k]))
    case LoadPacket => s.host.AtTop? && s.host.top.Top? && Has(s, s.host.top.index) && s.walk != []
    case Serve => s.host.Loaded? && Has(s, s.host.index) && s.packets[s.host.index].call < |s.count|
    case Clear => s.host.Served? && Has(s, s.host.index) && s.place[s.host.index] != Free
    case Finish => s.host == AtTop(Nil)
  }

  predicate Enabled(s: Buffer, step: Step) {
    match step
    case Start => true
    case OfWave(w, act) => w < |s.waves| && WaveEnabled(s, s.waves[w], act)
    case OfHost(does) => HostEnabled(s, does)
  }

  function SetWave(s: Buffer, w: nat, v: Wave): Buffer
    requires w < |s.waves|
  {
    s.(waves := s.waves[w := v])
  }

  function SetPacket(s: Buffer, i: nat, p: Packet): Buffer
    requires i < |s.packets|
  {
    s.(packets := s.packets[i := p])
  }

  function WaveStep(s: Buffer, w: nat, act: WaveAction): Buffer
    requires w < |s.waves| && WaveEnabled(s, s.waves[w], act)
  {
    var v := s.waves[w];
    match act
    case LoadFree => SetWave(s, w, SawTop(s.freeTop))
    case LoadNext => SetWave(s, w, SawNext(v.e, s.packets[v.e.index].next))
    case Pop =>
      if s.freeTop == v.e && s.free != [] then
        SetWave(s, w, Holding(v.e.index)).(freeTop := v.n, free := s.free[1..], place := s.place[v.e.index := Held(w)])
      else SetWave(s, w, Idle)
    case Fill =>
      SetPacket(SetWave(s, w, Filled(v.i)), v.i,
                s.packets[v.i].(control := true, call := |s.count|)).(count := s.count + [0], home := s.home + [v.i])
    case LoadReady => SetWave(s, w, SawReady(v.i, s.readyTop))
    case StoreNext => SetPacket(SetWave(s, w, Linked(v.i, v.e)), v.i, s.packets[v.i].(next := v.e))
    case Push =>
      if s.readyTop == v.e then
        SetWave(s, w, Spinning(v.i)).(readyTop := Top(v.i, s.packets[v.i].tag), ready := [v.i] + s.ready,
                                      place := s.place[v.i := Ready(w)])
      else SetWave(s, w, Filled(v.i))
    case SeeAnswer => SetWave(s, w, Answered(v.i))
    case LoadTop => SetWave(s, w, SawFree(v.i, s.freeTop))
    case StoreLink => SetPacket(SetWave(s, w, Relinked(v.i, v.e)), v.i, s.packets[v.i].(next := v.e))
    case Return =>
      if s.freeTop == v.e then
        SetPacket(SetWave(s, w, Idle), v.i, s.packets[v.i].(tag := s.packets[v.i].tag + 1)).(
          freeTop := Top(v.i, s.packets[v.i].tag + 1), free := [v.i] + s.free, place := s.place[v.i := Free])
      else SetWave(s, w, Answered(v.i))
  }

  /** Each listed packet of the ready stack becomes the host's. */
  function Taken(place: seq<Place>, list: seq<nat>): (r: seq<Place>)
    requires forall k | 0 <= k < |list| :: list[k] < |place|
    ensures |r| == |place|
  {
    seq(|place|, i requires 0 <= i < |place| => if i in list && place[i].Ready? then Walk(place[i].wave) else place[i])
  }

  /** The calls in listed packets. */
  function Calls(packets: seq<Packet>, list: seq<nat>): (c: seq<nat>)
    requires forall k | 0 <= k < |list| :: list[k] < |packets|
    ensures |c| == |list|
  {
    if list == [] then [] else [packets[list[0]].call] + Calls(packets, list[1..])
  }

  function HostStep(s: Buffer, does: HostAction): Buffer
    requires HostEnabled(s, does)
  {
    match does
    case TakeReady =>
      s.(host := AtTop(s.readyTop), readyTop := Nil, walk := s.ready, ready := [], place := Taken(s.place, s.ready),
         goal := s.served + Calls(s.packets, s.ready))
    case LoadPacket =>
      var i := s.host.top.index;
      s.(host := Loaded(i, s.packets[i].next), walk := s.walk[1..],
         place := s.place[i := if s.place[i].Walk? then Current(s.place[i].wave) else s.place[i]])
    case Serve =>
      var c := s.packets[s.host.index].call;
      s.(host := Served(s.host.index, s.host.next), served := s.served + [c], count := s.count[c := s.count[c] + 1])
    case Clear =>
      var i := s.host.index;
      SetPacket(s, i, s.packets[i].(control := false)).(
        host := AtTop(s.host.next), place := s.place[i := Held(s.place[i].wave)])
    case Finish => s.(host := Resting)
  }

  function Apply(s: Buffer, step: Step): Buffer
    requires Enabled(s, step)
  {
    match step
    case Start => s.(waves := s.waves + [Idle])
    case OfWave(w, act) => WaveStep(s, w, act)
    case OfHost(does) => HostStep(s, does)
  }

  /** The constructor: every packet on the free stack, in order, tags from one; no packet ready. */
  ghost predicate Initial(s: Buffer) {
    && |s.packets| > 0 && |s.free| == |s.place| == |s.packets| && s.freeTop == Top(0, 1) && s.readyTop == Nil
    && s.waves == [] && s.host == Resting
    && (forall i | 0 <= i < |s.packets| ::
          s.free[i] == i && s.place[i] == Free
            && s.packets[i] == Packet(if i + 1 < |s.packets| then Top(i + 1, 1) else Nil, 1, false, 0))
    && s.ready == s.walk == s.home == s.count == s.served == s.goal == []
  }

  // ---- The invariant -----------------------------------------------------------

  /** The links from an entry on lead through the listed packets, each under its present tag. */
  predicate Chain(packets: seq<Packet>, top: Entry, list: seq<nat>)
    decreases |list|
  {
    if list == [] then top == Nil
    else list[0] < |packets| && top == Top(list[0], packets[list[0]].tag)
         && Chain(packets, packets[list[0]].next, list[1..])
  }

  predicate NoRepeats(list: seq<nat>) { forall i, k | 0 <= i < k < |list| :: list[i] != list[k] }

  function HostTop(h: Host): Entry {
    match h case Resting => Nil case AtTop(top) => top case Loaded(_, n) => n case Served(_, n) => n
  }

  predicate ChainsOk(s: Buffer) {
    Chain(s.packets, s.freeTop, s.free) && Chain(s.packets, s.readyTop, s.ready)
      && Chain(s.packets, HostTop(s.host), s.walk)
  }

  /** Each list holds exactly the packets in its place, each once. */
  predicate ListsOk(s: Buffer) {
    && |s.packets| == |s.place| && NoRepeats(s.free) && NoRepeats(s.ready) && NoRepeats(s.walk)
    && (forall k | 0 <= k < |s.free| :: s.free[k] < |s.place| && s.place[s.free[k]] == Free)
    && (forall k | 0 <= k < |s.ready| :: s.ready[k] < |s.place| && s.place[s.ready[k]].Ready?)
    && (forall k | 0 <= k < |s.walk| :: s.walk[k] < |s.place| && s.place[s.walk[k]].Walk?)
  }

  predicate PacketListed(s: Buffer, i: nat)
    requires i < |s.place|
  {
    && (s.place[i] == Free ==> i in s.free) && (s.place[i].Ready? ==> i in s.ready)
    && (s.place[i].Walk? ==> i in s.walk)
    && (s.place[i].Current? ==> (s.host.Loaded? || s.host.Served?) && s.host.index == i)
  }

  predicate Owns(v: Wave) { !(v.Idle? || v.SawTop? || v.SawNext?) }
  /** The wave has not pushed its packet yet. */
  predicate Filling(v: Wave) { v.Filled? || v.SawReady? || v.Linked? }

  /** A packet in use: its wave, whether its call is answered, and how often it has been served. */
  predicate PacketOk(s: Buffer, i: nat)
    requires Has(s, i)
  {
    var p := s.packets[i];
    && (s.place[i] == Free ==> !p.control)
    && (s.place[i] != Free ==>
      && s.place[i].wave < |s.waves| && Owns(s.waves[s.place[i].wave]) && s.waves[s.place[i].wave].i == i
      && var v := s.waves[s.place[i].wave];
         && (!v.Holding? ==> p.call < |s.count| == |s.home| && s.home[p.call] == i)
         && (s.place[i].Held?
             ==> (p.control <==> Filling(v)) && (!v.Holding? ==> s.count[p.call] == if Filling(v) then 0 else 1))
         && (!s.place[i].Held?
             ==> v.Spinning? && p.control && s.count[p.call] == if s.place[i].Current? && s.host.Served? then 1 else 0))
  }

  predicate WaveOk(s: Buffer, w: nat)
    requires w < |s.waves|
  {
    var v := s.waves[w];
    && (Owns(v) ==> Has(s, v.i) && s.place[v.i] != Free && s.place[v.i].wave == w)
    && ((v.Linked? || v.Relinked?) ==> Has(s, v.i) && s.packets[v.i].next == v.e)
    && ((v.SawTop? || v.SawNext?) ==> v.e.Top? && Has(s, v.e.index) && v.e.tag <= s.packets[v.e.index].tag)
    && (v.SawNext? && s.place[v.e.index] == Free && s.packets[v.e.index].tag == v.e.tag
        ==> s.packets[v.e.index].next == v.n)
  }

  predicate CallsOk(s: Buffer) {
    && |s.home| == |s.count| && (forall c | 0 <= c < |s.count| :: s.home[c] < |s.packets| && s.count[c] <= 1)
    && (forall c | 0 <= c < |s.count| :: s.count[c] == 0 ==> Pending(s, c))
  }

  /** A call that has not been served is in its packet still. */
  predicate Pending(s: Buffer, c: nat)
    requires c < |s.home|
  {
    Has(s, s.home[c]) && s.packets[s.home[c]].call == c && s.place[s.home[c]] != Free && s.packets[s.home[c]].control
  }

  /** What the walk has served and what it has still to serve. */
  predicate WalkOk(s: Buffer) {
    && (forall k | 0 <= k < |s.walk| :: s.walk[k] < |s.packets|)
    && match s.host
       case Resting => s.walk == [] && s.served == s.goal
       case AtTop(_) => s.served + Calls(s.packets, s.walk) == s.goal
       case Loaded(i, _) => Has(s, i) && s.place[i].Current?
                            && s.served + [s.packets[i].call] + Calls(s.packets, s.walk) == s.goal
       case Served(i, _) => Has(s, i) && s.place[i].Current? && s.served + Calls(s.packets, s.walk) == s.goal
  }

  ghost predicate Inv(s: Buffer) {
    && ListsOk(s) && ChainsOk(s) && CallsOk(s) && WalkOk(s)
    && (forall i | 0 <= i < |s.place| :: PacketListed(s, i))
    && (forall i | 0 <= i < |s.place| :: PacketOk(s, i))
    && (forall w | 0 <= w < |s.waves| :: WaveOk(s, w))
  }

  // ---- What a step leaves alone ------------------------------------------------

  lemma {:induction false} ChainStays(p: seq<Packet>, q: seq<Packet>, top: Entry, list: seq<nat>)
    requires Chain(p, top, list) && |p| == |q|
             && forall k | 0 <= k < |list| && list[k] < |p| ::
                  q[list[k]].next == p[list[k]].next && q[list[k]].tag == p[list[k]].tag
    ensures Chain(q, top, list)
    decreases |list|
  {
    if list != [] {
      assert forall k | 0 <= k < |list[1..]| :: list[1..][k] == list[k + 1];
      ChainStays(p, q, p[list[0]].next, list[1..]);
    }
  }

  lemma {:induction false} CallsStay(p: seq<Packet>, q: seq<Packet>, list: seq<nat>)
    requires |p| == |q| && (forall k | 0 <= k < |list| :: list[k] < |p|)
             && forall k | 0 <= k < |list| :: q[list[k]].call == p[list[k]].call
    ensures Calls(q, list) == Calls(p, list)
    decreases |list|
  {
    if list != [] {
      assert forall k | 0 <= k < |list[1..]| :: list[1..][k] == list[k + 1];
      CallsStay(p, q, list[1..]);
    }
  }

  /** A change to the links and tag of a packet on no list leaves the lists' chains. */
  lemma {:induction false} ChainsStay(s: Buffer, i: nat, p: Packet)
    requires ListsOk(s) && ChainsOk(s) && i < |s.packets| && s.place[i].Held?
    ensures var q := s.packets[i := p];
            Chain(q, s.freeTop, s.free) && Chain(q, s.readyTop, s.ready) && Chain(q, HostTop(s.host), s.walk)
  {
    var q := s.packets[i := p];
    ChainStays(s.packets, q, s.freeTop, s.free);
    ChainStays(s.packets, q, s.readyTop, s.ready);
    ChainStays(s.packets, q, HostTop(s.host), s.walk);
  }

  // ---- Steps of a wave ---------------------------------------------------------

  /** The wave's step changes the wave alone: a load, a test, or a compare-and-swap that fails. */
  predicate Looks(s: Buffer, w: nat, act: WaveAction)
    requires w < |s.waves|
  {
    match act
    case Pop => s.waves[w].SawNext? && s.freeTop != s.waves[w].e
    case Push => s.waves[w].Linked? && s.readyTop != s.waves[w].e
    case Return => s.waves[w].Relinked? && s.freeTop != s.waves[w].e
    case Fill => false
    case StoreNext => false
    case StoreLink => false
    case _ => true
  }

  lemma {:induction false} LookKeepsWave(s: Buffer, w: nat, act: WaveAction)
    requires Inv(s) && w < |s.waves| && WaveEnabled(s, s.waves[w], act) && Looks(s, w, act)
    ensures WaveOk(WaveStep(s, w, act), w)
  {
    assert WaveOk(s, w);
  }

  lemma {:induction false} LookKeepsPacket(s: Buffer, w: nat, act: WaveAction, i: nat)
    requires Inv(s) && w < |s.waves| && WaveEnabled(s, s.waves[w], act) && Looks(s, w, act) && i < |s.place|
    ensures PacketOk(WaveStep(s, w, act), i) && PacketListed(WaveStep(s, w, act), i)
  {
    assert WaveOk(s, w) && PacketOk(s, i) && PacketListed(s, i);
  }

  lemma {:induction false} LookKeepsInv(s: Buffer, w: nat, act: WaveAction)
    requires Inv(s) && w < |s.waves| && WaveEnabled(s, s.waves[w], act) && Looks(s, w, act)
    ensures Inv(WaveStep(s, w, act))
  {
    var t := WaveStep(s, w, act);
    forall i | 0 <= i < |t.place|
      ensures PacketOk(t, i) && PacketListed(t, i)
    {
      LookKeepsPacket(s, w, act, i);
    }
    forall u | 0 <= u < |t.waves|
      ensures WaveOk(t, u)
    {
      LookKeepsOther(s, w, act, u);
    }
    LookKeepsLists(s, w, act);
  }

  lemma {:induction false} LookKeepsOther(s: Buffer, w: nat, act: WaveAction, u: nat)
    requires Inv(s) && w < |s.waves| && WaveEnabled(s, s.waves[w], act) && Looks(s, w, act) && u < |s.waves|
    ensures WaveOk(WaveStep(s, w, act), u)
  {
    assert WaveOk(s, u);
    if u == w {
      LookKeepsWave(s, w, act);
    }
  }

  lemma {:induction false} LookKeepsLists(s: Buffer, w: nat, act: WaveAction)
    requires Inv(s) && w < |s.waves| && WaveEnabled(s, s.waves[w], act) && Looks(s, w, act)
    ensures var t := WaveStep(s, w, act);
            ListsOk(t) && ChainsOk(t) && CallsOk(t) && WalkOk(t)
  {
    KeepsCalls(s, WaveStep(s, w, act));
  }

  /** The stores of a wave into its own packet: a link, or a new call. */
  predicate Stores(act: WaveAction) { act == StoreNext || act == StoreLink || act == Fill }

  lemma {:induction false} StoreIsHeld(s: Buffer, w: nat, act: WaveAction)
    requires Inv(s) && w < |s.waves| && WaveEnabled(s, s.waves[w], act)
             && (Stores(act) || (!Looks(s, w, act) && act != Pop))
    ensures s.place[s.waves[w].i] == Held(w) && PacketOk(s, s.waves[w].i)
  {
    assert WaveOk(s, w) && PacketOk(s, s.waves[w].i);
  }

  lemma {:induction false} StoreKeepsPacket(s: Buffer, w: nat, act: WaveAction, i: nat)
    requires Inv(s) && w < |s.waves| && WaveEnabled(s, s.waves[w], act) && Stores(act) && i < |s.place|
    ensures PacketOk(WaveStep(s, w, act), i) && PacketListed(WaveStep(s, w, act), i)
  {
    StoreIsHeld(s, w, act);
    assert WaveOk(s, w) && PacketOk(s, i) && PacketListed(s, i);
    if act == Fill {
      FillKeepsPacket(s, w, i);
    }
  }

  lemma {:induction false} FillKeepsPacket(s: Buffer, w: nat, i: nat)
    requires Inv(s) && w < |s.waves| && WaveEnabled(s, s.waves[w], Fill) && i < |s.place|
    ensures PacketOk(WaveStep(s, w, Fill), i)
  {
    StoreIsHeld(s, w, Fill);
    assert WaveOk(s, w) && PacketOk(s, i);
  }

  lemma {:induction false} StoreKeepsCalls(s: Buffer, w: nat, act: WaveAction)
    requires Inv(s) && w < |s.waves| && WaveEnabled(s, s.waves[w], act) && Stores(act)
    ensures CallsOk(WaveStep(s, w, act)) && WalkOk(WaveStep(s, w, act))
  {
    var t, x := WaveStep(s, w, act), s.waves[w].i;
    StoreIsHeld(s, w, act);
    CallsStay(s.packets, t.packets, s.walk);
    forall c | 0 <= c < |t.count| && t.count[c] == 0
      ensures Pending(t, c)
    {
      if c < |s.count| {
        assert Pending(s, c);
      }
    }
  }

  lemma {:induction false} StoreKeepsInv(s: Buffer, w: nat, act: WaveAction)
    requires Inv(s) && w < |s.waves| && WaveEnabled(s, s.waves[w], act) && Stores(act)
    ensures Inv(WaveStep(s, w, act))
  {
    var t := WaveStep(s, w, act);
    StoreIsHeld(s, w, act);
    StoreKeepsCalls(s, w, act);
    ChainsStay(s, s.waves[w].i, t.packets[s.waves[w].i]);
    forall i | 0 <= i < |t.place|
      ensures PacketOk(t, i) && PacketListed(t, i)
    {
      StoreKeepsPacket(s, w, act, i);
    }
    forall u | 0 <= u < |t.waves|
      ensures WaveOk(t, u)
    {
      StoreKeepsWave(s, w, act, u);
    }
  }

  lemma {:induction false} StoreKeepsWave(s: Buffer, w: nat, act: WaveAction, u: nat)
    requires Inv(s) && w < |s.waves| && WaveEnabled(s, s.waves[w], act) && Stores(act) && u < |s.waves|
    ensures WaveOk(WaveStep(s, w, act), u)
  {
    StoreIsHeld(s, w, act);
    assert WaveOk(s, w) && WaveOk(s, u);
  }

  /**
   A compare-and-swap on the free stack that succeeds takes its top packet, and the next it saw is still that packet's:
   had the packet left the stack and come back, its tag would have stepped.
   */
  lemma {:induction false} PopTakesTop(s: Buffer, w: nat)
    requires Inv(s) && w < |s.waves| && WaveEnabled(s, s.waves[w], Pop) && s.freeTop == s.waves[w].e
    ensures s.free != [] && s.free[0] == s.waves[w].e.index && s.packets[s.free[0]].next == s.waves[w].n
            && Chain(s.packets, s.waves[w].n, s.free[1..])
  {
    assert WaveOk(s, w);
  }

  lemma {:induction false} PopKeepsLists(s: Buffer, w: nat)
    requires Inv(s) && w < |s.waves| && WaveEnabled(s, s.waves[w], Pop) && s.freeTop == s.waves[w].e
    ensures ListsOk(WaveStep(s, w, Pop)) && ChainsOk(WaveStep(s, w, Pop))
  {
    PopTakesTop(s, w);
    var t := WaveStep(s, w, Pop);
    assert forall k | 0 <= k < |t.free| :: t.free[k] == s.free[k + 1];
  }

  lemma {:induction false} PopKeepsPacket(s: Buffer, w: nat, i: nat)
    requires Inv(s) && w < |s.waves| && WaveEnabled(s, s.waves[w], Pop) && s.freeTop == s.waves[w].e && i < |s.place|
    ensures PacketOk(WaveStep(s, w, Pop), i) && PacketListed(WaveStep(s, w, Pop), i)
  {
    PopTakesTop(s, w);
    assert WaveOk(s, w) && PacketOk(s, i) && PacketListed(s, i);
    var t := WaveStep(s, w, Pop);
    if s.place[i] == Free && i != s.free[0] {
      var k :| 0 <= k < |s.free| && s.free[k] == i;
      assert t.free[k - 1] == i;
    }
  }

  lemma {:induction false} PopKeepsWave(s: Buffer, w: nat, u: nat)
    requires Inv(s) && w < |s.waves| && WaveEnabled(s, s.waves[w], Pop) && s.freeTop == s.waves[w].e && u < |s.waves|
    ensures WaveOk(WaveStep(s, w, Pop), u)
  {
    PopTakesTop(s, w);
    assert s.place[s.free[0]] == Free;
    assert WaveOk(s, w) && WaveOk(s, u);
  }

  lemma {:induction false} PopKeepsInv(s: Buffer, w: nat)
    requires Inv(s) && w < |s.waves| && WaveEnabled(s, s.waves[w], Pop) && s.freeTop == s.waves[w].e
    ensures Inv(WaveStep(s, w, Pop))
  {
    var t := WaveStep(s, w, Pop);
    PopTakesTop(s, w);
    PopKeepsLists(s, w);
    assert s.place[s.free[0]] == Free;
    forall i | 0 <= i < |t.place|
      ensures PacketOk(t, i) && PacketListed(t, i)
    {
      PopKeepsPacket(s, w, i);
    }
    forall u | 0 <= u < |t.waves|
      ensures WaveOk(t, u)
    {
      PopKeepsWave(s, w, u);
    }
    KeepsCalls(s, t);
  }

  lemma {:induction false} KeepsCalls(s: Buffer, t: Buffer)
    requires CallsOk(s) && t.home == s.home && t.count == s.count
             && |t.packets| == |s.packets| == |s.place| == |t.place|
    requires forall i | 0 <= i < |s.packets| && s.place[i] != Free && s.packets[i].control ::
               t.place[i] != Free && t.packets[i].control && t.packets[i].call == s.packets[i].call
    ensures CallsOk(t)
  {
    forall c | 0 <= c < |t.count| && t.count[c] == 0
      ensures Pending(t, c)
    {
      assert Pending(s, c);
    }
  }

  // ---- Pushes ------------------------------------------------------------------

  predicate Pushes(s: Buffer, w: nat, act: WaveAction)
    requires w < |s.waves|
  {
    (act == Push && s.waves[w].Linked? && s.readyTop == s.waves[w].e)
      || (act == Return && s.waves[w].Relinked? && s.freeTop == s.waves[w].e)
  }

  lemma {:induction false} PushKeepsLists(s: Buffer, w: nat)
    requires Inv(s) && w < |s.waves| && WaveEnabled(s, s.waves[w], Push) && Pushes(s, w, Push)
    ensures ListsOk(WaveStep(s, w, Push)) && ChainsOk(WaveStep(s, w, Push))
  {
    StoreIsHeld(s, w, Push);
    assert WaveOk(s, w);
    PushedList(s.packets, s.ready, s.waves[w].i, s.readyTop);
  }

  lemma {:induction false} ReturnKeepsLists(s: Buffer, w: nat)
    requires Inv(s) && w < |s.waves| && WaveEnabled(s, s.waves[w], Return) && Pushes(s, w, Return)
    ensures ListsOk(WaveStep(s, w, Return))
  {
    StoreIsHeld(s, w, Return);
  }

  lemma {:induction false} ReturnKeepsChains(s: Buffer, w: nat)
    requires Inv(s) && w < |s.waves| && WaveEnabled(s, s.waves[w], Return) && Pushes(s, w, Return)
    ensures ChainsOk(WaveStep(s, w, Return))
  {
    var t, x := WaveStep(s, w, Return), s.waves[w].i;
    StoreIsHeld(s, w, Return);
    assert WaveOk(s, w);
    ChainsStay(s, x, t.packets[x]);
    PushedList(t.packets, s.free, x, s.freeTop);
  }

  lemma {:induction false} PushedList(p: seq<Packet>, list: seq<nat>, x: nat, top: Entry)
    requires x < |p| && p[x].next == top && Chain(p, top, list)
    ensures Chain(p, Top(x, p[x].tag), [x] + list)
  {
    assert ([x] + list)[1..] == list;
  }

  lemma {:induction false} PushKeepsPacket(s: Buffer, w: nat, act: WaveAction, i: nat)
    requires Inv(s) && w < |s.waves| && WaveEnabled(s, s.waves[w], act) && Pushes(s, w, act) && i < |s.place|
    ensures PacketOk(WaveStep(s, w, act), i) && PacketListed(WaveStep(s, w, act), i)
  {
    StoreIsHeld(s, w, act);
    assert WaveOk(s, w) && PacketOk(s, i) && PacketListed(s, i);
    var t := WaveStep(s, w, act);
    if i == s.waves[w].i {
      assert act == Push ==> t.ready[0] == i;
      assert act == Return ==> t.free[0] == i;
    }
  }

  lemma {:induction false} PushKeepsWave(s: Buffer, w: nat, act: WaveAction, u: nat)
    requires Inv(s) && w < |s.waves| && WaveEnabled(s, s.waves[w], act) && Pushes(s, w, act) && u < |s.waves|
    ensures WaveOk(WaveStep(s, w, act), u)
  {
    if act == Push {
      ReadyKeepsWave(s, w, u);
    } else {
      ReturnKeepsWave(s, w, u);
    }
  }

  lemma {:induction false} ReadyKeepsWave(s: Buffer, w: nat, u: nat)
    requires Inv(s) && w < |s.waves| && WaveEnabled(s, s.waves[w], Push) && Pushes(s, w, Push) && u < |s.waves|
    ensures WaveOk(WaveStep(s, w, Push), u)
  {
    StoreIsHeld(s, w, Push);
    assert WaveOk(s, w) && WaveOk(s, u);
  }

  lemma {:induction false} ReturnKeepsWave(s: Buffer, w: nat, u: nat)
    requires Inv(s) && w < |s.waves| && WaveEnabled(s, s.waves[w], Return) && Pushes(s, w, Return) && u < |s.waves|
    ensures WaveOk(WaveStep(s, w, Return), u)
  {
    StoreIsHeld(s, w, Return);
    assert WaveOk(s, w) && WaveOk(s, u);
  }

  lemma {:induction false} PushKeepsInv(s: Buffer, w: nat, act: WaveAction)
    requires Inv(s) && w < |s.waves| && WaveEnabled(s, s.waves[w], act) && Pushes(s, w, act)
    ensures Inv(WaveStep(s, w, act))
  {
    var t := WaveStep(s, w, act);
    StoreIsHeld(s, w, act);
    if act == Push {
      PushKeepsLists(s, w);
    } else {
      ReturnKeepsLists(s, w);
      ReturnKeepsChains(s, w);
    }
    forall i | 0 <= i < |t.place|
      ensures PacketOk(t, i) && PacketListed(t, i)
    {
      PushKeepsPacket(s, w, act, i);
    }
    forall u | 0 <= u < |t.waves|
      ensures WaveOk(t, u)
    {
      PushKeepsWave(s, w, act, u);
    }
    PushKeepsCalls(s, w, act);
    PushKeepsWalk(s, w, act);
  }

  lemma {:induction false} PushKeepsCalls(s: Buffer, w: nat, act: WaveAction)
    requires Inv(s) && w < |s.waves| && WaveEnabled(s, s.waves[w], act) && Pushes(s, w, act)
    ensures CallsOk(WaveStep(s, w, act))
  {
    StoreIsHeld(s, w, act);
    KeepsCalls(s, WaveStep(s, w, act));
  }

  lemma {:induction false} PushKeepsWalk(s: Buffer, w: nat, act: WaveAction)
    requires Inv(s) && w < |s.waves| && WaveEnabled(s, s.waves[w], act) && Pushes(s, w, act)
    ensures WalkOk(WaveStep(s, w, act))
  {
    StoreIsHeld(s, w, act);
    KeepsWalk(s, WaveStep(s, w, act));
  }

  lemma {:induction false} KeepsWalk(s: Buffer, t: Buffer)
    requires WalkOk(s) && t.host == s.host && t.walk == s.walk && t.served == s.served && t.goal == s.goal
             && |t.packets| == |s.packets| == |s.place| == |t.place|
    requires forall i | 0 <= i < |s.packets| ::
               t.packets[i].call == s.packets[i].call && (s.place[i].Current? ==> t.place[i].Current?)
    ensures WalkOk(t)
  {
    CallsStay(s.packets, t.packets, s.walk);
  }

  // ---- Steps of the host -------------------------------------------------------

  lemma {:induction false} TakeKeepsInv(s: Buffer)
    requires Inv(s) && HostEnabled(s, TakeReady)
    ensures Inv(HostStep(s, TakeReady))
  {
    var t := HostStep(s, TakeReady);
    forall i | 0 <= i < |t.place|
      ensures PacketOk(t, i) && PacketListed(t, i)
    {
      assert PacketOk(s, i) && PacketListed(s, i);
    }
    forall u | 0 <= u < |t.waves|
      ensures WaveOk(t, u)
    {
      assert WaveOk(s, u);
    }
    KeepsCalls(s, t);
  }

  lemma {:induction false} LoadKeepsInv(s: Buffer)
    requires Inv(s) && HostEnabled(s, LoadPacket)
    ensures Inv(HostStep(s, LoadPacket))
  {
    var t := HostStep(s, LoadPacket);
    LoadKeepsLists(s);
    forall i | 0 <= i < |t.place|
      ensures PacketOk(t, i) && PacketListed(t, i)
    {
      LoadKeepsPacket(s, i);
    }
    forall u | 0 <= u < |t.waves|
      ensures WaveOk(t, u)
    {
      assert WaveOk(s, u);
    }
    KeepsCalls(s, t);
  }

  lemma {:induction false} LoadKeepsLists(s: Buffer)
    requires Inv(s) && HostEnabled(s, LoadPacket)
    ensures var t := HostStep(s, LoadPacket); ListsOk(t) && ChainsOk(t) && WalkOk(t)
  {
    var t := HostStep(s, LoadPacket);
    assert s.walk[0] == s.host.top.index;
    assert forall k | 0 <= k < |t.walk| :: t.walk[k] == s.walk[k + 1];
  }

  lemma {:induction false} LoadKeepsPacket(s: Buffer, i: nat)
    requires Inv(s) && HostEnabled(s, LoadPacket) && i < |s.place|
    ensures var t := HostStep(s, LoadPacket); PacketOk(t, i) && PacketListed(t, i)
  {
    var t := HostStep(s, LoadPacket);
    assert s.walk[0] == s.host.top.index;
    assert PacketOk(s, i) && PacketListed(s, i);
    if s.place[i].Walk? && i != s.walk[0] {
      var k :| 0 <= k < |s.walk| && s.walk[k] == i;
      assert t.walk[k - 1] == i;
    }
  }

  lemma {:induction false} ServeKeepsInv(s: Buffer)
    requires Inv(s) && HostEnabled(s, Serve)
    ensures Inv(HostStep(s, Serve))
  {
    var t, x := HostStep(s, Serve), s.host.index;
    assert PacketOk(s, x) && PacketListed(s, x);
    forall i | 0 <= i < |t.place|
      ensures PacketOk(t, i) && PacketListed(t, i)
    {
      assert PacketOk(s, i) && PacketListed(s, i);
    }
    forall u | 0 <= u < |t.waves|
      ensures WaveOk(t, u)
    {
      assert WaveOk(s, u);
    }
    forall c | 0 <= c < |t.count| && t.count[c] == 0
      ensures Pending(t, c)
    {
      assert Pending(s, c);
    }
  }

  lemma {:induction false} ClearKeepsInv(s: Buffer)
    requires Inv(s) && HostEnabled(s, Clear)
    ensures Inv(HostStep(s, Clear))
  {
    var t := HostStep(s, Clear);
    ClearKeepsChains(s);
    ClearKeepsCalls(s);
    forall i | 0 <= i < |t.place|
      ensures PacketOk(t, i) && PacketListed(t, i)
    {
      ClearKeepsPacket(s, i);
    }
    forall u | 0 <= u < |t.waves|
      ensures WaveOk(t, u)
    {
      assert WaveOk(s, u);
    }
  }

  lemma {:induction false} ClearKeepsPacket(s: Buffer, i: nat)
    requires Inv(s) && HostEnabled(s, Clear) && i < |s.place|
    ensures var t := HostStep(s, Clear); PacketOk(t, i) && PacketListed(t, i)
  {
    assert PacketOk(s, s.host.index) && PacketOk(s, i) && PacketListed(s, i);
  }

  lemma {:induction false} ClearKeepsCalls(s: Buffer)
    requires Inv(s) && HostEnabled(s, Clear)
    ensures CallsOk(HostStep(s, Clear)) && WalkOk(HostStep(s, Clear))
  {
    var t := HostStep(s, Clear);
    assert PacketOk(s, s.host.index);
    CallsStay(s.packets, t.packets, s.walk);
    forall c | 0 <= c < |t.count| && t.count[c] == 0
      ensures Pending(t, c)
    {
      assert Pending(s, c);
    }
  }

  lemma {:induction false} ClearKeepsChains(s: Buffer)
    requires Inv(s) && HostEnabled(s, Clear)
    ensures ChainsOk(HostStep(s, Clear)) && ListsOk(HostStep(s, Clear))
  {
    var t := HostStep(s, Clear);
    ChainStays(s.packets, t.packets, s.freeTop, s.free);
    ChainStays(s.packets, t.packets, s.readyTop, s.ready);
    ChainStays(s.packets, t.packets, HostTop(s.host), s.walk);
  }

  lemma {:induction false} FinishKeepsInv(s: Buffer)
    requires Inv(s) && HostEnabled(s, Finish)
    ensures Inv(HostStep(s, Finish))
  {
    var t := HostStep(s, Finish);
    assert s.walk == [];
    assert s.served + Calls(s.packets, s.walk) == s.served;
    forall i | 0 <= i < |t.place|
      ensures PacketOk(t, i) && PacketListed(t, i)
    {
      assert PacketOk(s, i) && PacketListed(s, i);
    }
    forall u | 0 <= u < |t.waves|
      ensures WaveOk(t, u)
    {
      assert WaveOk(s, u);
    }
    KeepsCalls(s, t);
  }

  lemma {:induction false} StartKeepsInv(s: Buffer)
    requires Inv(s)
    ensures Inv(Apply(s, Start))
  {
    var t := Apply(s, Start);
    forall i | 0 <= i < |t.place|
      ensures PacketOk(t, i) && PacketListed(t, i)
    {
      assert PacketOk(s, i) && PacketListed(s, i);
    }
    forall u | 0 <= u < |t.waves|
      ensures WaveOk(t, u)
    {
      if u < |s.waves| {
        assert WaveOk(s, u);
      }
    }
    KeepsCalls(s, t);
  }

  /** Every step keeps the invariant. */
  lemma {:induction false} StepKeepsInv(s: Buffer, step: Step)
    requires Inv(s) && Enabled(s, step)
    ensures Inv(Apply(s, step))
  {
    match step
    case Start => StartKeepsInv(s);
    case OfHost(TakeReady) => TakeKeepsInv(s);
    case OfHost(LoadPacket) => LoadKeepsInv(s);
    case OfHost(Serve) => ServeKeepsInv(s);
    case OfHost(Clear) => ClearKeepsInv(s);
    case OfHost(Finish) => FinishKeepsInv(s);
    case OfWave(w, act) =>
      if Looks(s, w, act) {
        LookKeepsInv(s, w, act);
      } else if Stores(act) {
        StoreKeepsInv(s, w, act);
      } else if act == Pop {
        PopKeepsInv(s, w);
      } else {
        PushKeepsInv(s, w, act);
      }
  }

  lemma {:induction false} InitialIsOk(s: Buffer)
    requires Initial(s)
    ensures Inv(s)
  {
    FreeInOrder(s, 0);
    assert s.free[0..] == s.free;
    forall i | 0 <= i < |s.place|
      ensures PacketListed(s, i)
    {
      assert s.free[i] == i;
    }
  }

  lemma {:induction false} FreeInOrder(s: Buffer, i: nat)
    requires Initial(s) && i < |s.packets|
    ensures Chain(s.packets, Top(i, 1), s.free[i..])
    decreases |s.packets| - i
  {
    assert s.free[i..][0] == i && s.free[i..][1..] == s.free[i + 1..];
    if i + 1 < |s.packets| {
      FreeInOrder(s, i + 1);
    }
  }
}
