/**
 An AQL queue: any number of producers that reserve indices, wait for room and write a packet's header last, and the
 packet processor. Every shared load and store is a step. The protocol the producers keep is that of sections 2.8 and
 2.9 of the HSA Platform System Architecture Specification 1.1.
 */
module AqlRing {
  import opened Basics
  import opened Powers

  /** What follows the header: the completion signal, and the rest. */
  datatype Body = Body(signal: Option<nat>, rest: nat)
  datatype Header = Invalid | Type(kind: nat)
  datatype Packet = Packet(kind: nat, body: Body)
  datatype Slot = Slot(header: Header, body: Body)

  /**
   A producer: the indices it has reserved and not published, with what it will put there; whether it has seen room for
   the first; whether that one's body is written.
   */
  datatype Producer = Producer(next: nat, packets: seq<Packet>, room: bool, body: bool)

  /**
   The packet processor: before it loads read_index, with it loaded, past the test of write_index, past the test of the
   header, with the packet copied out and run, with INVALID stored, with read_index stored.
   */
  datatype Processor = Looking | At(at: nat) | Behind(at: nat) | Ready(at: nat) | Ran(at: nat, packet: Packet)
      | Cleared(at: nat, packet: Packet) | Advanced(at: nat, packet: Packet)

  /**
   The queue. From `plan` on its fields are history: by index, the packet its producer reserved it for, which producer,
   and whether it is published; the packets run and those completed, in order.
   */
  datatype Ring = Ring(slots: seq<Slot>, write: nat, read: nat, producers: seq<Producer>, processor: Processor,
                       signals: seq<int>, plan: seq<Packet>, owner: seq<nat>, published: seq<bool>, ran: seq<Packet>,
                       completed: seq<Packet>)
  {
    function Size(): nat { |slots| }
    /** The first index whose packet the processor has not given up. */
    function Kept(): nat { if processor.Cleared? then read + 1 else read }
  }

  /** An index's place in the ring: index mod size. */
  function Place(i: nat, size: nat): (p: nat)
    requires size > 0
    ensures p < size
  {
    if i < size then i else Place(i - size, size)
  }

  /** Place is the remainder of the index by the ring's size: a whole number of laps and less than one more. */
  lemma {:induction false} PlaceIsRemainder(i: nat, size: nat) returns (laps: nat)
    requires size > 0
    ensures i == Times(size, laps) + Place(i, size) && Place(i, size) < size
  {
    laps := 0;
    if i >= size {
      laps := PlaceIsRemainder(i - size, size);
      laps := laps + 1;
    }
  }

  /** Less than a ring apart, two indices have two places. */
  lemma {:induction false} PlacesApart(i: nat, k: nat, size: nat)
    requires size > 0 && i < k < i + size
    ensures Place(i, size) != Place(k, size)
    decreases k
  {
    if i >= size {
      PlacesApart(i - size, k - size, size);
    }
  }

  lemma {:induction false} NextLap(i: nat, size: nat)
    requires size > 0
    ensures Place(i + size, size) == Place(i, size)
  {
  }

  // ---- Steps -------------------------------------------------------------------

  datatype Step =
    | Join
    | Reserve(p: nat, packets: seq<Packet>) | SeeRoom(p: nat) | WriteBody(p: nat) | WriteHeader(p: nat)
    | LoadRead | TestWrite | TestHeader | Run | Clear | Advance | Complete

  predicate Enabled(s: Ring, step: Step) {
    s.Size() > 0 &&
    match step
    case Join => true
    case Reserve(p, packets) => p < |s.producers| && s.producers[p].packets == [] && packets != []
                                && forall i | 0 <= i < |packets| :: SignalExists(s, packets[i])
    case SeeRoom(p) => p < |s.producers| && s.producers[p].packets != [] && !s.producers[p].room
                       && s.producers[p].next < s.read + s.Size()
    case WriteBody(p) => p < |s.producers| && s.producers[p].packets != [] && s.producers[p].room
                         && !s.producers[p].body
    case WriteHeader(p) => p < |s.producers| && s.producers[p].packets != [] && s.producers[p].body
                           && s.producers[p].next < |s.published|
    case LoadRead => s.processor == Looking
    case TestWrite => s.processor.At? && s.processor.at < s.write
    case TestHeader => s.processor.Behind? && s.slots[Place(s.processor.at, s.Size())].header != Invalid
    case Run => s.processor.Ready? && s.slots[Place(s.processor.at, s.Size())].header != Invalid
    case Clear => s.processor.Ran?
    case Advance => s.processor.Cleared?
    case Complete => s.processor.Advanced? && SignalExists(s, s.processor.packet)
  }

  predicate SignalExists(s: Ring, packet: Packet) {
    packet.body.signal.Some? ==> packet.body.signal.value < |s.signals|
  }

  function WithProducer(s: Ring, p: nat, d: Producer): Ring
    requires p < |s.producers|
  {
    s.(producers := s.producers[p := d])
  }

  function Same<T>(n: nat, x: T): (r: seq<T>)
    ensures |r| == n && forall i | 0 <= i < n :: r[i] == x
  {
    seq(n, i => x)
  }

  function Decremented(signals: seq<int>, packet: Packet): (r: seq<int>)
    ensures |r| == |signals|
  {
    if packet.body.signal.Some? && packet.body.signal.value < |signals|
      then signals[packet.body.signal.value := signals[packet.body.signal.value] - 1] else signals
  }

  function ProducerStep(s: Ring, step: Step): Ring
    requires Enabled(s, step) && (step.Reserve? || step.SeeRoom? || step.WriteBody? || step.WriteHeader?)
  {
    var d := s.producers[step.p];
    match step
    case Reserve(p, packets) =>
      WithProducer(s, p, Producer(s.write, packets, false, false)).(
        write := s.write + |packets|, plan := s.plan + packets, owner := s.owner + Same(|packets|, p),
          published := s.published + Same(|packets|, false))
    case SeeRoom(p) => WithProducer(s, p, d.(room := true))
    case WriteBody(p) =>
      var at := Place(d.next, s.Size());
      WithProducer(s, p, d.(body := true)).(slots := s.slots[at := Slot(s.slots[at].header, d.packets[0].body)])
    case WriteHeader(p) =>
      var at := Place(d.next, s.Size());
      WithProducer(s, p, Producer(d.next + 1, d.packets[1..], false, false)).(
        slots := s.slots[at := Slot(Type(d.packets[0].kind), s.slots[at].body)],
          published := s.published[d.next := true])
  }

  function ProcessorStep(s: Ring, step: Step): Ring
    requires Enabled(s, step)
             && (step.LoadRead? || step.TestWrite? || step.TestHeader? || step.Run? || step.Clear? || step.Advance?
                 || step.Complete?)
  {
    match step
    case LoadRead => s.(processor := At(s.read))
    case TestWrite => s.(processor := Behind(s.processor.at))
    case TestHeader => s.(processor := Ready(s.processor.at))
    case Run =>
      var slot := s.slots[Place(s.processor.at, s.Size())];
      var packet := Packet(slot.header.kind, slot.body);
      s.(processor := Ran(s.processor.at, packet), ran := s.ran + [packet])
    case Clear =>
      var at := Place(s.processor.at, s.Size());
      s.(processor := Cleared(s.processor.at, s.processor.packet),
         slots := s.slots[at := Slot(Invalid, s.slots[at].body)])
    case Advance => s.(processor := Advanced(s.processor.at, s.processor.packet), read := s.processor.at + 1)
    case Complete => s.(processor := Looking, completed := s.completed + [s.processor.packet],
                        signals := Decremented(s.signals, s.processor.packet))
  }

  function Apply(s: Ring, step: Step): Ring
    requires Enabled(s, step)
  {
    match step
    case Join => s.(producers := s.producers + [Producer(0, [], false, false)])
    case Reserve(_, _) => ProducerStep(s, step)
    case SeeRoom(_) => ProducerStep(s, step)
    case WriteBody(_) => ProducerStep(s, step)
    case WriteHeader(_) => ProducerStep(s, step)
    case _ => ProcessorStep(s, step)
  }

  /** hsa_queue_create: every header INVALID, both indices 0. */
  ghost predicate Initial(s: Ring) {
    && |s.slots| > 0 && (forall i | 0 <= i < |s.slots| :: s.slots[i].header == Invalid) && s.write == s.read == 0
    && s.producers == [] && s.processor == Looking
    && s.plan == s.ran == s.completed == [] && s.owner == [] && s.published == []
  }

  // ---- The invariant -----------------------------------------------------------

  predicate HistoryOk(s: Ring) {
    && |s.plan| == |s.owner| == |s.published| == s.write && s.Size() > 0 && s.Kept() <= s.write && s.read <= s.write
    && (forall i | 0 <= i < |s.plan| :: SignalExists(s, s.plan[i]))
  }

  /** Where the processor is, and what it has run and completed by then: the reserved packets, from the first on. */
  predicate ProcessorOk(s: Ring) {
    && |s.plan| == |s.published| == s.write && s.read <= s.write
    && match s.processor
       case Looking => Logged(s, s.read, s.read)
       case At(at) => at == s.read && Logged(s, s.read, s.read)
       case Behind(at) => at == s.read < s.write && Logged(s, s.read, s.read)
       case Ready(at) => at == s.read < s.write && s.published[at] && Logged(s, s.read, s.read)
       case Ran(at, packet) => at == s.read < s.write && s.published[at] && packet == s.plan[at]
                               && Logged(s, s.read + 1, s.read)
       case Cleared(at, packet) => at == s.read < s.write && s.published[at] && packet == s.plan[at]
                                   && Logged(s, s.read + 1, s.read)
       case Advanced(at, packet) => at + 1 == s.read <= s.write && packet == s.plan[at] && Logged(s, s.read, s.read - 1)
  }

  predicate Logged(s: Ring, ran: nat, completed: int) {
    0 <= completed <= ran <= |s.plan| && s.ran == s.plan[..ran] && s.completed == s.plan[..completed]
  }

  /**
   The ring from the first kept index on, one lap of it: a slot's header is set exactly where its index is published,
   and then it holds that index's packet.
   */
  predicate SlotOk(s: Ring, i: nat)
    requires s.Size() > 0 && |s.plan| == |s.published|
  {
    var slot := s.slots[Place(i, s.Size())];
    if i < |s.plan| && s.published[i] then slot == Slot(Type(s.plan[i].kind), s.plan[i].body)
    else slot.header == Invalid
  }

  predicate SlotsOk(s: Ring)
    requires s.Size() > 0 && |s.plan| == |s.published|
  {
    forall i | s.Kept() <= i < s.Kept() + s.Size() :: SlotOk(s, i)
  }

  /** Published indices have room; those the processor is past are published. */
  predicate PublishedOk(s: Ring) {
    forall i | 0 <= i < |s.published| :: (i < s.Kept() ==> s.published[i]) && (s.published[i] ==> i < s.read + s.Size())
  }

  predicate ProducerOk(s: Ring, p: nat)
    requires p < |s.producers| && |s.plan| == |s.owner| == |s.published| && s.Size() > 0
  {
    var d := s.producers[p];
    && (d.packets != [] ==> d.next + |d.packets| <= |s.plan|)
    && (forall k | 0 <= k < |d.packets| :: Reserved(s, p, d.next + k, d.packets[k]))
    && (d.body ==> d.room) && (d.packets == [] ==> !d.room && !d.body)
    && (d.room ==> d.next < s.read + s.Size())
    && (d.body ==> s.slots[Place(d.next, s.Size())].body == d.packets[0].body)
  }

  predicate Reserved(s: Ring, p: nat, i: nat, packet: Packet) {
    i < |s.plan| == |s.owner| == |s.published| && s.owner[i] == p && !s.published[i] && s.plan[i] == packet
  }

  /** An index that is not published is still its producer's. */
  predicate OwnedOk(s: Ring) {
    |s.owner| == |s.published| &&
    forall i | 0 <= i < |s.published| && !s.published[i] :: Owned(s, i)
  }

  predicate Owned(s: Ring, i: nat)
    requires i < |s.owner|
  {
    s.owner[i] < |s.producers| && var d := s.producers[s.owner[i]]; d.next <= i < d.next + |d.packets|
  }

  ghost predicate Inv(s: Ring) {
    && HistoryOk(s) && ProcessorOk(s) && SlotsOk(s) && PublishedOk(s) && OwnedOk(s)
    && forall p | 0 <= p < |s.producers| :: ProducerOk(s, p)
  }

  // ---- Producers' steps --------------------------------------------------------

  /** A producer's first index is past what the processor gave up, and within the lap. */
  lemma {:induction false} FirstIsKept(s: Ring, p: nat)
    requires Inv(s) && p < |s.producers| && s.producers[p].packets != []
    ensures s.Kept() <= s.producers[p].next < |s.published| && !s.published[s.producers[p].next]
            && s.owner[s.producers[p].next] == p && s.plan[s.producers[p].next] == s.producers[p].packets[0]
    ensures s.producers[p].room ==> s.producers[p].next < s.Kept() + s.Size()
  {
    var d := s.producers[p];
    assert ProducerOk(s, p) && Reserved(s, p, d.next + 0, d.packets[0]);
  }

  lemma {:induction false} ReserveKeepsInv(s: Ring, p: nat, packets: seq<Packet>)
    requires Inv(s) && Enabled(s, Reserve(p, packets))
    ensures Inv(Apply(s, Reserve(p, packets)))
  {
    var t := Apply(s, Reserve(p, packets));
    ReserveKeepsLogs(s, p, packets);
    ReserveKeepsSlots(s, p, packets);
    forall q | 0 <= q < |t.producers|
      ensures ProducerOk(t, q)
    {
      ReserveKeepsProducer(s, p, packets, q);
    }
  }

  lemma {:induction false} ReserveKeepsSlots(s: Ring, p: nat, packets: seq<Packet>)
    requires Inv(s) && Enabled(s, Reserve(p, packets))
    ensures var t := Apply(s, Reserve(p, packets)); |t.plan| == |t.published| && SlotsOk(t) && OwnedOk(t)
  {
    var t := Apply(s, Reserve(p, packets));
    forall i | t.Kept() <= i < t.Kept() + t.Size()
      ensures SlotOk(t, i)
    {
      assert SlotOk(s, i);
    }
    forall i | 0 <= i < |t.published| && !t.published[i]
      ensures Owned(t, i)
    {
      if i < |s.published| {
        assert Owned(s, i);
      }
    }
  }

  lemma {:induction false} ReserveKeepsProducer(s: Ring, p: nat, packets: seq<Packet>, q: nat)
    requires Inv(s) && Enabled(s, Reserve(p, packets)) && q < |s.producers|
    ensures var t := Apply(s, Reserve(p, packets)); |t.plan| == |t.owner| == |t.published| && ProducerOk(t, q)
  {
    var t := Apply(s, Reserve(p, packets));
    assert ProducerOk(s, q);
    forall k | 0 <= k < |t.producers[q].packets|
      ensures Reserved(t, q, t.producers[q].next + k, t.producers[q].packets[k])
    {
      if q != p {
        assert Reserved(s, q, s.producers[q].next + k, s.producers[q].packets[k]);
      }
    }
  }

  lemma {:induction false} ReserveKeepsLogs(s: Ring, p: nat, packets: seq<Packet>)
    requires Inv(s) && Enabled(s, Reserve(p, packets))
    ensures HistoryOk(Apply(s, Reserve(p, packets))) && ProcessorOk(Apply(s, Reserve(p, packets)))
  {
    var t := Apply(s, Reserve(p, packets));
    assert forall n | 0 <= n <= |s.plan| :: t.plan[..n] == s.plan[..n];
  }

  lemma {:induction false} SeeRoomKeepsInv(s: Ring, p: nat)
    requires Inv(s) && Enabled(s, SeeRoom(p))
    ensures Inv(Apply(s, SeeRoom(p)))
  {
    var t := Apply(s, SeeRoom(p));
    forall q | 0 <= q < |t.producers|
      ensures ProducerOk(t, q)
    {
      SeeRoomKeepsProducer(s, p, q);
    }
    KeepsSlots(s, t);
    KeepsOwned(s, t);
  }

  lemma {:induction false} SeeRoomKeepsProducer(s: Ring, p: nat, q: nat)
    requires Inv(s) && Enabled(s, SeeRoom(p)) && q < |s.producers|
    ensures ProducerOk(Apply(s, SeeRoom(p)), q)
  {
    var t := Apply(s, SeeRoom(p));
    assert ProducerOk(s, q);
    forall k | 0 <= k < |t.producers[q].packets|
      ensures Reserved(t, q, t.producers[q].next + k, t.producers[q].packets[k])
    {
      assert Reserved(s, q, s.producers[q].next + k, s.producers[q].packets[k]);
    }
  }

  lemma {:induction false} KeepsSlots(s: Ring, t: Ring)
    requires s.Size() > 0 && |s.plan| == |s.published| && SlotsOk(s) && t.slots == s.slots && t.plan == s.plan
             && t.published == s.published && t.Kept() == s.Kept()
    ensures SlotsOk(t)
  {
    forall i | t.Kept() <= i < t.Kept() + t.Size()
      ensures SlotOk(t, i)
    {
      assert SlotOk(s, i);
    }
  }

  lemma {:induction false} KeepsOwned(s: Ring, t: Ring)
    requires OwnedOk(s) && t.owner == s.owner && t.published == s.published && |t.producers| == |s.producers|
    requires forall p | 0 <= p < |s.producers| ::
               t.producers[p].next == s.producers[p].next && t.producers[p].packets == s.producers[p].packets
    ensures OwnedOk(t)
  {
    forall i | 0 <= i < |t.published| && !t.published[i]
      ensures Owned(t, i)
    {
      assert Owned(s, i);
    }
  }

  /** Two producers at work in the lap have two slots. */
  lemma {:induction false} ProducersApart(s: Ring, p: nat, q: nat)
    requires Inv(s) && p < |s.producers| && q < |s.producers| && p != q && s.producers[p].packets != []
             && s.producers[q].packets != [] && s.producers[p].room && s.producers[q].room
    ensures Place(s.producers[p].next, s.Size()) != Place(s.producers[q].next, s.Size())
  {
    FirstIsKept(s, p);
    FirstIsKept(s, q);
    var i, k := s.producers[p].next, s.producers[q].next;
    if i < k {
      PlacesApart(i, k, s.Size());
    } else if k < i {
      PlacesApart(k, i, s.Size());
    }
  }

  /** A store in the slot of a kept index leaves every other index of the lap alone. */
  lemma {:induction false} OtherSlots(s: Ring, at: nat, i: nat)
    requires s.Size() > 0 && s.Kept() <= at < s.Kept() + s.Size() && s.Kept() <= i < s.Kept() + s.Size() && i != at
    ensures Place(i, s.Size()) != Place(at, s.Size())
  {
    if i < at {
      PlacesApart(i, at, s.Size());
    } else {
      PlacesApart(at, i, s.Size());
    }
  }

  lemma {:induction false} WriteBodyKeepsInv(s: Ring, p: nat)
    requires Inv(s) && Enabled(s, WriteBody(p))
    ensures Inv(Apply(s, WriteBody(p)))
  {
    var t := Apply(s, WriteBody(p));
    BodyKeepsSlots(s, p);
    KeepsOwned(s, t);
    forall q | 0 <= q < |t.producers|
      ensures ProducerOk(t, q)
    {
      BodyKeepsProducer(s, p, q);
    }
  }

  lemma {:induction false} BodyKeepsSlots(s: Ring, p: nat)
    requires Inv(s) && Enabled(s, WriteBody(p))
    ensures SlotsOk(Apply(s, WriteBody(p)))
  {
    var t, d := Apply(s, WriteBody(p)), s.producers[p];
    FirstIsKept(s, p);
    forall i | t.Kept() <= i < t.Kept() + t.Size()
      ensures SlotOk(t, i)
    {
      assert SlotOk(s, i);
      if i != d.next {
        OtherSlots(s, d.next, i);
      }
    }
  }

  lemma {:induction false} BodyKeepsProducer(s: Ring, p: nat, q: nat)
    requires Inv(s) && Enabled(s, WriteBody(p)) && q < |s.producers|
    ensures ProducerOk(Apply(s, WriteBody(p)), q)
  {
    var t := Apply(s, WriteBody(p));
    assert ProducerOk(s, q);
    if q != p {
      if s.producers[q].body {
        ProducersApart(s, p, q);
      }
      KeepsProducer(s, t, q);
    } else {
      BodyKeepsOwn(s, p);
    }
  }

  lemma {:induction false} BodyKeepsOwn(s: Ring, p: nat)
    requires Inv(s) && Enabled(s, WriteBody(p))
    ensures ProducerOk(Apply(s, WriteBody(p)), p)
  {
    var t := Apply(s, WriteBody(p));
    assert ProducerOk(s, p);
    forall k | 0 <= k < |t.producers[p].packets|
      ensures Reserved(t, p, t.producers[p].next + k, t.producers[p].packets[k])
    {
      assert Reserved(s, p, s.producers[p].next + k, s.producers[p].packets[k]);
    }
  }

  /** What a producer relies on: its own indices, and the body it has written. */
  predicate Undisturbed(s: Ring, t: Ring, q: nat) {
    && q < |s.producers| && q < |t.producers| && t.producers[q] == s.producers[q]
    && t.plan == s.plan && t.owner == s.owner && |s.plan| == |s.owner| == |s.published| == |t.published|
    && t.Size() == s.Size() > 0 && s.read <= t.read
    && (forall i | 0 <= i < |s.published| && s.owner[i] == q :: t.published[i] == s.published[i])
    && (s.producers[q].body
        ==> t.slots[Place(s.producers[q].next, s.Size())].body == s.slots[Place(s.producers[q].next, s.Size())].body)
  }

  lemma {:induction false} KeepsProducer(s: Ring, t: Ring, q: nat)
    requires Undisturbed(s, t, q) && ProducerOk(s, q)
    ensures ProducerOk(t, q)
  {
    forall k | 0 <= k < |t.producers[q].packets|
      ensures Reserved(t, q, t.producers[q].next + k, t.producers[q].packets[k])
    {
      assert Reserved(s, q, s.producers[q].next + k, s.producers[q].packets[k]);
    }
  }

  lemma {:induction false} WriteHeaderKeepsInv(s: Ring, p: nat)
    requires Inv(s) && Enabled(s, WriteHeader(p))
    ensures Inv(Apply(s, WriteHeader(p)))
  {
    var t := Apply(s, WriteHeader(p));
    FirstIsKept(s, p);
    assert ProducerOk(s, p);
    HeaderKeepsSlots(s, p);
    HeaderKeepsOwned(s, p);
    forall q | 0 <= q < |t.producers|
      ensures ProducerOk(t, q)
    {
      if q == p {
        HeaderKeepsOwn(s, p);
      } else {
        HeaderKeepsProducer(s, p, q);
      }
    }
  }

  lemma {:induction false} HeaderKeepsSlots(s: Ring, p: nat)
    requires Inv(s) && Enabled(s, WriteHeader(p))
    ensures SlotsOk(Apply(s, WriteHeader(p)))
  {
    var t, d := Apply(s, WriteHeader(p)), s.producers[p];
    FirstIsKept(s, p);
    assert ProducerOk(s, p);
    forall i | t.Kept() <= i < t.Kept() + t.Size()
      ensures SlotOk(t, i)
    {
      assert SlotOk(s, i);
      if i != d.next {
        OtherSlots(s, d.next, i);
      }
    }
  }

  lemma {:induction false} HeaderKeepsOwned(s: Ring, p: nat)
    requires Inv(s) && Enabled(s, WriteHeader(p))
    ensures OwnedOk(Apply(s, WriteHeader(p)))
  {
    var t := Apply(s, WriteHeader(p));
    forall i | 0 <= i < |t.published| && !t.published[i]
      ensures Owned(t, i)
    {
      assert Owned(s, i);
    }
  }

  lemma {:induction false} HeaderKeepsOwn(s: Ring, p: nat)
    requires Inv(s) && Enabled(s, WriteHeader(p))
    ensures ProducerOk(Apply(s, WriteHeader(p)), p)
  {
    var t, d := Apply(s, WriteHeader(p)), s.producers[p];
    assert ProducerOk(s, p);
    forall k | 0 <= k < |t.producers[p].packets|
      ensures Reserved(t, p, t.producers[p].next + k, t.producers[p].packets[k])
    {
      assert Reserved(s, p, d.next + (k + 1), d.packets[k + 1]);
    }
  }

  lemma {:induction false} HeaderKeepsProducer(s: Ring, p: nat, q: nat)
    requires Inv(s) && Enabled(s, WriteHeader(p)) && q < |s.producers| && q != p
    ensures ProducerOk(Apply(s, WriteHeader(p)), q)
  {
    var t := Apply(s, WriteHeader(p));
    FirstIsKept(s, p);
    assert ProducerOk(s, q);
    if s.producers[q].body {
      assert ProducerOk(s, p);
      ProducersApart(s, p, q);
    }
    KeepsProducer(s, t, q);
  }

  // ---- The processor's steps ---------------------------------------------------

  predicate Reads(step: Step) { step.LoadRead? || step.TestWrite? || step.TestHeader? || step.Run? }

  /** Loads, tests and the run itself change nothing that the producers see. */
  lemma {:induction false} ReadKeepsInv(s: Ring, step: Step)
    requires Inv(s) && Reads(step) && Enabled(s, step)
    ensures Inv(Apply(s, step))
  {
    var t := Apply(s, step);
    KeepsSlots(s, t);
    KeepsOwned(s, t);
    KeepsProducers(s, t);
    if s.processor.Behind? || s.processor.Ready? {
      assert SlotOk(s, s.processor.at);
      assert s.plan[..s.read + 1] == s.plan[..s.read] + [s.plan[s.read]];
    }
  }

  lemma {:induction false} KeepsProducers(s: Ring, t: Ring)
    requires Inv(s) && t.producers == s.producers && t.plan == s.plan && t.owner == s.owner
             && t.published == s.published && t.Size() == s.Size() && s.read <= t.read
    requires forall p | 0 <= p < |s.producers| && s.producers[p].body ::
             t.slots[Place(s.producers[p].next, s.Size())].body == s.slots[Place(s.producers[p].next, s.Size())].body
    ensures forall p | 0 <= p < |t.producers| :: ProducerOk(t, p)
  {
    forall p | 0 <= p < |t.producers|
      ensures ProducerOk(t, p)
    {
      assert ProducerOk(s, p);
      KeepsProducer(s, t, p);
    }
  }

  /**
   The store of INVALID: the slot is the packet's own still, for the index a lap later cannot have been published before
   read_index moves.
   */
  lemma {:induction false} ClearKeepsInv(s: Ring)
    requires Inv(s) && Enabled(s, Clear)
    ensures Inv(Apply(s, Clear))
  {
    var t := Apply(s, Clear);
    KeepsOwned(s, t);
    KeepsProducers(s, t);
    forall i | t.Kept() <= i < t.Kept() + t.Size()
      ensures SlotOk(t, i)
    {
      ClearKeepsSlot(s, i);
    }
  }

  lemma {:induction false} ClearKeepsSlot(s: Ring, i: nat)
    requires Inv(s) && Enabled(s, Clear) && s.read + 1 <= i <= s.read + s.Size()
    ensures SlotOk(Apply(s, Clear), i)
  {
    if i == s.read + s.Size() {
      NextLap(s.read, s.Size());
    } else {
      assert SlotOk(s, i);
      OtherSlots(s, s.read, i);
    }
  }

  lemma {:induction false} AdvanceKeepsInv(s: Ring)
    requires Inv(s) && Enabled(s, Advance)
    ensures Inv(Apply(s, Advance))
  {
    var t := Apply(s, Advance);
    KeepsSlots(s, t);
    KeepsOwned(s, t);
    KeepsProducers(s, t);
  }

  lemma {:induction false} CompleteKeepsInv(s: Ring)
    requires Inv(s) && Enabled(s, Complete)
    ensures Inv(Apply(s, Complete))
  {
    var t := Apply(s, Complete);
    KeepsSlots(s, t);
    KeepsOwned(s, t);
    KeepsProducers(s, t);
    assert s.plan[..s.read] == s.plan[..s.read - 1] + [s.plan[s.read - 1]];
  }

  lemma {:induction false} JoinKeepsInv(s: Ring)
    requires Inv(s) && Enabled(s, Join)
    ensures Inv(Apply(s, Join))
  {
    var t := Apply(s, Join);
    KeepsSlots(s, t);
    forall i | 0 <= i < |t.published| && !t.published[i]
      ensures Owned(t, i)
    {
      assert Owned(s, i);
    }
    forall p | 0 <= p < |t.producers|
      ensures ProducerOk(t, p)
    {
      if p < |s.producers| {
        assert ProducerOk(s, p);
        forall k | 0 <= k < |t.producers[p].packets|
          ensures Reserved(t, p, t.producers[p].next + k, t.producers[p].packets[k])
        {
          assert Reserved(s, p, s.producers[p].next + k, s.producers[p].packets[k]);
        }
      }
    }
  }

  /** Every step keeps the invariant. */
  lemma {:induction false} StepKeepsInv(s: Ring, step: Step)
    requires Inv(s) && Enabled(s, step)
    ensures Inv(Apply(s, step))
  {
    match step
    case Join => JoinKeepsInv(s);
    case Reserve(p, packets) => ReserveKeepsInv(s, p, packets);
    case SeeRoom(p) => SeeRoomKeepsInv(s, p);
    case WriteBody(p) => WriteBodyKeepsInv(s, p);
    case WriteHeader(p) => WriteHeaderKeepsInv(s, p);
    case Clear => ClearKeepsInv(s);
    case Advance => AdvanceKeepsInv(s);
    case Complete => CompleteKeepsInv(s);
    case _ => ReadKeepsInv(s, step);
  }

  lemma {:induction false} InitialIsOk(s: Ring)
    requires Initial(s)
    ensures Inv(s)
  {
  }
}
