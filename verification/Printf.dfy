/**
 The printf service: messages that lanes send a few words at a time, put together in a table by id. A lane's slot is a
 descriptor and up to seven words; the answer a lane gets is the descriptor it appends with next, or what printf
 returns.
 */
module Printf {
  // ---- Descriptors -------------------------------------------------------------

  function Begins(d: nat): bool { d % 2 == 1 }
  function Ends(d: nat): bool { d / 2 % 2 == 1 }
  function Length(d: nat): nat { d / 32 % 8 }
  function MessageId(d: nat): nat { d / 256 }

  /** A descriptor as a sender makes it; bits 2 to 4 are its own. */
  function Descriptor(first: bool, last: bool, own: nat, length: nat, id: nat): nat {
    (if first then 1 else 0) + (if last then 2 else 0) + 4 * own + 32 * length + 256 * id
  }

  lemma {:induction false} DescriptorReads(first: bool, last: bool, own: nat, length: nat, id: nat)
    requires own < 8 && length < 8
    ensures var d := Descriptor(first, last, own, length, id);
            Begins(d) == first && Ends(d) == last && Length(d) == length && MessageId(d) == id
  {
    var b: nat, e: nat := if first then 1 else 0, if last then 1 else 0;
    var d := Descriptor(first, last, own, length, id);
    SplitBy2(b, e + 2 * own + 16 * length + 128 * id);
    SplitBy2(e, own + 8 * length + 64 * id);
    SplitBy32(b + 2 * e + 4 * own, length + 8 * id);
    SplitBy8(length, id);
    SplitBy256(b + 2 * e + 4 * own + 32 * length, id);
    assert d / 2 == e + 2 * (own + 8 * length + 64 * id) && d / 32 == length + 8 * id;
  }

  lemma {:induction false} SplitBy2(low: nat, high: nat)
    requires low < 2
    ensures (low + 2 * high) % 2 == low && (low + 2 * high) / 2 == high
  {
  }

  lemma {:induction false} SplitBy8(low: nat, high: nat)
    requires low < 8
    ensures (low + 8 * high) % 8 == low
  {
  }

  lemma {:induction false} SplitBy32(low: nat, high: nat)
    requires low < 32
    ensures (low + 32 * high) / 32 == high
  {
  }

  lemma {:induction false} SplitBy256(low: nat, high: nat)
    requires low < 256
    ensures (low + 256 * high) / 256 == high
  {
  }

  // ---- The table ---------------------------------------------------------------

  /** messages_ and next_id_, and the messages formatted so far. */
  datatype Table = Table(messages: map<nat, seq<nat>>, next: nat, printed: seq<seq<nat>>)

  const NEW_TABLE := Table(map[], 1, [])

  /** What a lane gets back, or the error of a message that never began. */
  datatype Answer = Word(value: nat) | NeverBegan(id: nat)

  /** A lane's slot: eight words. */
  type Slot = s: seq<nat> | |s| == 8 witness [0, 0, 0, 0, 0, 0, 0, 0]

  function Words(slot: Slot): (w: seq<nat>)
    ensures |w| == Length(slot[0])
  {
    slot[1..1 + Length(slot[0])]
  }

  /** The message a slot is of, and the table with it begun where the slot begins it. */
  function IdOf(t: Table, slot: Slot): nat { if Begins(slot[0]) then t.next else MessageId(slot[0]) }

  function Opened(t: Table, slot: Slot): Table {
    if Begins(slot[0]) then t.(messages := t.messages[t.next := []], next := t.next + 1) else t
  }

  /** One lane served: what the table becomes. `size` is the length of a formatted message's text. */
  function Served(t: Table, slot: Slot): Table {
    var id, o := IdOf(t, slot), Opened(t, slot);
    if id !in o.messages then o
    else
      var words := o.messages[id] + Words(slot);
      if Ends(slot[0]) then o.(messages := o.messages - {id}, printed := o.printed + [words])
      else o.(messages := o.messages[id := words])
  }

  function AnswerTo(t: Table, slot: Slot, size: seq<nat> -> nat): Answer {
    var id, o := IdOf(t, slot), Opened(t, slot);
    if id !in o.messages then NeverBegan(id)
    else if Ends(slot[0]) then Word(size(o.messages[id] + Words(slot)))
    else Word(256 * id)
  }

  /** serve_printf over the lanes of a packet, in lane order, up to the first error: the table, and each lane's slot. */
  function LanesServed(t: Table, slots: seq<Slot>, active: seq<bool>, size: seq<nat> -> nat,
                       n: nat): (r: (Table, seq<Slot>, bool))
    requires |slots| == |active| && n <= |slots|
    ensures |r.1| == |slots| && forall l | n <= l < |slots| :: r.1[l] == slots[l]
  {
    if n == 0 then (t, slots, true)
    else
      var (u, done, ok) := LanesServed(t, slots, active, size, n - 1);
      if !ok || !active[n - 1] then (u, done, ok)
      else
        match AnswerTo(u, slots[n - 1], size)
        case NeverBegan(_) => (Served(u, slots[n - 1]), done, false)
        case Word(value) => (Served(u, slots[n - 1]), done[n - 1 := slots[n - 1][0 := value][1 := 0]], true)
  }

  /**
   What serving leaves in a lane's slot: nothing new where the lane is not active; otherwise, where no lane was refused,
   the answer, a zero after it, and the rest of what was there.
   */
  lemma {:induction false} SlotsAnswered(t: Table, slots: seq<Slot>, active: seq<bool>, size: seq<nat> -> nat, n: nat,
                                         l: nat)
    requires |slots| == |active| && n <= |slots| && l < n
    ensures var r := LanesServed(t, slots, active, size, n);
            && (!active[l] ==> r.1[l] == slots[l])
            && (active[l] && r.2 ==>
                  var a := AnswerTo(LanesServed(t, slots, active, size, l).0, slots[l], size);
                  a.Word? && r.1[l] == [a.value, 0] + slots[l][2..])
  {
    if l < n - 1 {
      SlotsAnswered(t, slots, active, size, n - 1, l);
    }
  }

  /** The table and slots that serving the first n lanes leaves, and whether no lane was refused. */
  predicate ServedTo(table: Table, now: seq<Slot>, ok: bool, t: Table, slots: seq<Slot>, active: seq<bool>,
                     size: seq<nat> -> nat, n: nat) {
    |slots| == |active| && n <= |slots| && (table, now, ok) == LanesServed(t, slots, active, size, n)
  }

  class Service {
    var messages: map<nat, seq<nat>>
    var next: nat
    var printed: seq<seq<nat>>
    const size: seq<nat> -> nat

    constructor (size: seq<nat> -> nat)
      ensures Contents() == NEW_TABLE && this.size == size
    {
      messages, next, printed, this.size := map[], 1, [], size;
    }

    function Contents(): Table
      reads this
    {
      Table(messages, next, printed)
    }

    /** One lane's part of serve_printf. */
    method ServeLane(slot: Slot) returns (a: Answer)
      modifies this
      ensures Contents() == Served(old(Contents()), slot) && a == AnswerTo(old(Contents()), slot, size)
    {
      var id := MessageId(slot[0]);
      if Begins(slot[0]) {
        id := next;
        next := next + 1;
        messages := messages[id := []];
      }
      if id !in messages {
        return NeverBegan(id);
      }
      Append(id, slot);
      a := Word(256 * id);
      if Ends(slot[0]) {
        var words := messages[id];
        messages := messages - {id};
        printed := printed + [words];
        a := Word(size(words));
      }
    }

    /** The slot's words onto the end of a message. */
    method Append(id: nat, slot: Slot)
      requires id in messages
      modifies `messages
      ensures messages == old(messages)[id := old(messages)[id] + Words(slot)]
    {
      ghost var was, before := messages, messages[id];
      assert before + slot[1..1] == before;
      assert was[id := before] == was;
      var k := 0;
      while k < Length(slot[0])
        invariant 0 <= k <= Length(slot[0])
        invariant messages == was[id := before + slot[1..1 + k]]
      {
        assert before + slot[1..1 + k] + [slot[1 + k]] == before + slot[1..2 + k];
        messages := messages[id := messages[id] + [slot[1 + k]]];
        k := k + 1;
      }
    }

    /** The answer to lane l, in place of its first two words. */
    method ServeAt(slots: array<Slot>, l: nat, ghost t: Table, ghost was: seq<Slot>, ghost active: seq<bool>)
      returns (ok: bool)
      requires l < |active| && active[l] && slots.Length == |active|
               && ServedTo(Contents(), slots[..], true, t, was, active, size, l)
      modifies this, slots
      ensures ServedTo(Contents(), slots[..], ok, t, was, active, size, l + 1)
    {
      var slot := slots[l];
      var a := ServeLane(slot);
      ok := a.Word?;
      if ok {
        slots[l] := slot[0 := a.value][1 := 0];
      }
    }

    /** serve_printf: the active lanes in lane order; an error leaves the lanes after it alone. */
    method Serve(slots: array<Slot>, active: seq<bool>) returns (ok: bool)
      requires slots.Length == |active|
      modifies this, slots
      ensures (Contents(), slots[..], ok) == LanesServed(old(Contents()), old(slots[..]), active, size, |active|)
    {
      ghost var t, was := Contents(), slots[..];
      ok := true;
      var l := 0;
      while l < |active|
        invariant 0 <= l <= |active| && ServedTo(Contents(), slots[..], ok, t, was, active, size, l)
      {
        if ok && active[l] {
          ok := ServeAt(slots, l, t, was, active);
        }
        l := l + 1;
      }
    }
  }

  // ---- Senders -----------------------------------------------------------------

  /** One lane's part of one packet: who sends it, whether it is a message's first or last, and its words. */
  datatype Event = Event(who: nat, first: bool, last: bool, own: nat, words: seq<nat>)

  predicate Fits(e: Event) { |e.words| <= 7 && e.own < 8 }

  /** A sender between messages, or in one with the id the host answered. */
  datatype Sender = Quiet | Talking(id: nat)

  datatype System = System(table: Table, senders: seq<Sender>)

  /** A slot with the event's descriptor and words, the words past them whatever they are. */
  predicate IsSlotOf(slot: Slot, e: Event, id: nat) {
    Fits(e) && slot[0] == Descriptor(e.first, e.last, e.own, |e.words|, id) && slot[1..1 + |e.words|] == e.words
  }

  /** A sender begins a message when it is in none, and goes on with the id it was given when it is in one. */
  predicate Conforms(s: System, e: Event) { Fits(e) && e.who < |s.senders| && (e.first <==> s.senders[e.who] == Quiet) }

  function SentId(s: System, e: Event): nat
    requires e.who < |s.senders|
  {
    if s.senders[e.who].Talking? then s.senders[e.who].id else 0
  }

  /** The host serves the event's slot, and the sender takes the id out of the answer. */
  function Delivered(s: System, e: Event, slot: Slot, size: seq<nat> -> nat): System
    requires e.who < |s.senders|
  {
    var a := AnswerTo(s.table, slot, size);
    System(Served(s.table, slot),
           s.senders[e.who := if e.last then Quiet else if a.Word? then Talking(MessageId(a.value)) else Quiet])
  }

  // ---- What the messages should be ---------------------------------------------

  /** The words a sender has sent since its message began. */
  function SinceBegin(events: seq<Event>, who: nat): seq<nat> {
    if events == [] then []
    else
      var e, before := events[|events| - 1], events[..|events| - 1];
      if e.who != who then SinceBegin(before, who) else if e.first then e.words else SinceBegin(before, who) + e.words
  }

  /** The messages that have ended, each the words its own sender sent from its first to its last. */
  function Messages(events: seq<Event>): seq<seq<nat>> {
    if events == [] then []
    else
      var e := events[|events| - 1];
      Messages(events[..|events| - 1]) + (if e.last then [SinceBegin(events, e.who)] else [])
  }

  /** A sender has begun a message and not ended it. */
  predicate InMessage(events: seq<Event>, who: nat) {
    events != [] && var e := events[|events| - 1];
      if e.who == who then !e.last else InMessage(events[..|events| - 1], who)
  }

  /** The events delivered, each with a slot of its own, from a new table and quiet senders. */
  ghost predicate Delivery(events: seq<Event>, slots: seq<Slot>, size: seq<nat> -> nat, senders: nat, s: System)
    decreases |events|
  {
    |slots| == |events| &&
    if events == [] then s == System(NEW_TABLE, Quiets(senders))
    else exists before :: LastEvent(events, slots, size, senders, before, s)
  }

  /** The last event is delivered to `before`, which those before it made. */
  ghost predicate LastEvent(events: seq<Event>, slots: seq<Slot>, size: seq<nat> -> nat, senders: nat, before: System,
                            s: System)
    requires events != [] && |slots| == |events|
    decreases |events|, 0
  {
    var n := |events| - 1;
    var e, slot := events[n], slots[n];
    && Delivery(events[..n], slots[..n], size, senders, before)
    && Conforms(before, e) && IsSlotOf(slot, e, SentId(before, e)) && s == Delivered(before, e, slot, size)
  }

  function Quiets(n: nat): (q: seq<Sender>)
    ensures |q| == n && forall i | 0 <= i < n :: q[i] == Quiet
  {
    seq(n, i => Quiet)
  }

  // ---- The table is the unfinished messages ------------------------------------

  /**
   Each talking sender's words are in the table under its id, ids are different and below the next one, and the table
   holds nothing else.
   */
  ghost predicate Matches(s: System, events: seq<Event>) {
    && s.table.next >= 1 && s.table.printed == Messages(events)
    && (forall w | 0 <= w < |s.senders| :: SenderOk(s, events, w))
    && (forall v, w | 0 <= v < w < |s.senders| && s.senders[v].Talking? && s.senders[w].Talking? ::
        s.senders[v].id != s.senders[w].id)
    && (forall id | id in s.table.messages :: exists w | 0 <= w < |s.senders| :: s.senders[w] == Talking(id))
  }

  ghost predicate SenderOk(s: System, events: seq<Event>, w: nat)
    requires w < |s.senders|
  {
    && (s.senders[w].Talking? <==> InMessage(events, w))
    && (s.senders[w].Talking? ==>
          && s.senders[w].id < s.table.next && s.senders[w].id in s.table.messages
          && s.table.messages[s.senders[w].id] == SinceBegin(events, w))
  }

  lemma {:induction false} NextIsNew(s: System, events: seq<Event>)
    requires Matches(s, events)
    ensures s.table.next !in s.table.messages
  {
    forall id | id in s.table.messages
      ensures id < s.table.next
    {
      var w :| 0 <= w < |s.senders| && s.senders[w] == Talking(id);
      assert SenderOk(s, events, w);
    }
  }

  /** The id of a conforming event's message, and its words with the event's. */
  function EventId(s: System, e: Event): nat
    requires e.who < |s.senders|
  {
    if e.first then s.table.next else SentId(s, e)
  }

  function EventWords(s: System, e: Event): seq<nat>
    requires e.who < |s.senders|
  {
    if e.first || SentId(s, e) !in s.table.messages then e.words else s.table.messages[SentId(s, e)] + e.words
  }

  /** What serving a conforming event does: never an error. */
  lemma {:induction false} ServesEvent(s: System, e: Event, slot: Slot, size: seq<nat> -> nat, events: seq<Event>)
    requires Matches(s, events) && Conforms(s, e) && IsSlotOf(slot, e, SentId(s, e))
    ensures var id, words := EventId(s, e), EventWords(s, e);
            && AnswerTo(s.table, slot, size) == Word(if e.last then size(words) else 256 * id)
            && Served(s.table, slot) == Table(if e.last then s.table.messages - {id} else s.table.messages[id := words],
                                              if e.first then s.table.next + 1 else s.table.next,
                                              s.table.printed + (if e.last then [words] else []))
  {
    DescriptorReads(e.first, e.last, e.own, |e.words|, SentId(s, e));
    assert SenderOk(s, events, e.who);
    assert Words(slot) == e.words;
    if e.first {
      NextIsNew(s, events);
      assert [] + e.words == e.words;
      assert s.table.messages[s.table.next := []] - {s.table.next} == s.table.messages - {s.table.next};
      assert s.table.messages[s.table.next := []][s.table.next := e.words] == s.table.messages[s.table.next := e.words];
    }
  }

  /** The sender's answer is its id, and everyone else's messages stay. */
  lemma {:induction false} DeliveredSender(s: System, e: Event, slot: Slot, size: seq<nat> -> nat, events: seq<Event>,
                                           w: nat)
    requires Matches(s, events) && Conforms(s, e) && IsSlotOf(slot, e, SentId(s, e)) && w < |s.senders|
    ensures SenderOk(Delivered(s, e, slot, size), events + [e], w)
  {
    ServesEvent(s, e, slot, size, events);
    assert (events + [e])[..|events|] == events;
    assert SenderOk(s, events, e.who) && SenderOk(s, events, w);
    NextIsNew(s, events);
    SplitBy256(0, EventId(s, e));
    if w != e.who && s.senders[w].Talking? {
      IdsDiffer(s, e, events, w);
    }
  }

  lemma {:induction false} IdsDiffer(s: System, e: Event, events: seq<Event>, w: nat)
    requires Matches(s, events) && Conforms(s, e) && w < |s.senders| && w != e.who && s.senders[w].Talking?
    ensures s.senders[w].id != EventId(s, e)
  {
    assert SenderOk(s, events, w);
  }

  lemma {:induction false} DeliveredIds(s: System, e: Event, slot: Slot, size: seq<nat> -> nat, events: seq<Event>)
    requires Matches(s, events) && Conforms(s, e) && IsSlotOf(slot, e, SentId(s, e))
    ensures var t := Delivered(s, e, slot, size);
            t.senders == s.senders[e.who := if e.last then Quiet else Talking(EventId(s, e))]
  {
    ServesEvent(s, e, slot, size, events);
    SplitBy256(0, EventId(s, e));
  }

  lemma {:induction false} DeliveredMatches(s: System, e: Event, slot: Slot, size: seq<nat> -> nat, events: seq<Event>)
    requires Matches(s, events) && Conforms(s, e) && IsSlotOf(slot, e, SentId(s, e))
    ensures Matches(Delivered(s, e, slot, size), events + [e])
  {
    var t, more := Delivered(s, e, slot, size), events + [e];
    ServesEvent(s, e, slot, size, events);
    DeliveredIds(s, e, slot, size, events);
    assert more[..|events|] == events && SenderOk(s, events, e.who);
    forall w | 0 <= w < |t.senders|
      ensures SenderOk(t, more, w)
    {
      DeliveredSender(s, e, slot, size, events, w);
    }
    forall id | id in t.table.messages
      ensures exists w | 0 <= w < |t.senders| :: t.senders[w] == Talking(id)
    {
      DeliveredHasSender(s, e, slot, size, events, id);
    }
    forall v, w | 0 <= v < w < |t.senders| && t.senders[v].Talking? && t.senders[w].Talking?
      ensures t.senders[v].id != t.senders[w].id
    {
      if v == e.who {
        IdsDiffer(s, e, events, w);
      } else if w == e.who {
        IdsDiffer(s, e, events, v);
      }
    }
  }

  lemma {:induction false} DeliveredHasSender(s: System, e: Event, slot: Slot, size: seq<nat> -> nat,
                                              events: seq<Event>, id: nat)
    requires Matches(s, events) && Conforms(s, e) && IsSlotOf(slot, e, SentId(s, e))
             && id in Delivered(s, e, slot, size).table.messages
    ensures exists w | 0 <= w < |s.senders| :: Delivered(s, e, slot, size).senders[w] == Talking(id)
  {
    var t := Delivered(s, e, slot, size);
    ServesEvent(s, e, slot, size, events);
    DeliveredIds(s, e, slot, size, events);
    if id == EventId(s, e) {
      assert t.senders[e.who] == Talking(id);
    } else {
      var w :| 0 <= w < |s.senders| && s.senders[w] == Talking(id);
      assert SenderOk(s, events, w) && SenderOk(s, events, e.who);
      assert t.senders[w] == Talking(id);
    }
  }

  lemma {:induction false} DeliveryMatches(events: seq<Event>, slots: seq<Slot>, size: seq<nat> -> nat, senders: nat,
                                           s: System)
    requires Delivery(events, slots, size, senders, s)
    ensures Matches(s, events)
    decreases |events|
  {
    if events != [] {
      var before :| LastEvent(events, slots, size, senders, before, s);
      var n := |events| - 1;
      DeliveryMatches(events[..n], slots[..n], size, senders, before);
      LastEventMatches(events, slots, size, senders, before, s);
    }
  }

  lemma {:induction false} LastEventMatches(events: seq<Event>, slots: seq<Slot>, size: seq<nat> -> nat, senders: nat,
                                            before: System, s: System)
    requires events != [] && |slots| == |events| && LastEvent(events, slots, size, senders, before, s)
             && Matches(before, events[..|events| - 1])
    ensures Matches(s, events)
  {
    var n := |events| - 1;
    DeliveredMatches(before, events[n], slots[n], size, events[..n]);
    assert events[..n] + [events[n]] == events;
  }

  /**
   Over any interleaving of any senders' events, the messages formatted are exactly those that ended, in that order,
   each the concatenation of its own sender's words from its first event to its last.
   */
  lemma {:induction false} MessagesAreWhole(events: seq<Event>, slots: seq<Slot>, size: seq<nat> -> nat, senders: nat,
                                            s: System)
    requires Delivery(events, slots, size, senders, s)
    ensures s.table.printed == Messages(events)
  {
    DeliveryMatches(events, slots, size, senders, s);
  }

  /**
   The table holds exactly the messages begun and not ended: an id is in it just where a sender in a message has it,
   with the words sent so far.
   */
  lemma {:induction false} TableIsUnfinished(events: seq<Event>, slots: seq<Slot>, size: seq<nat> -> nat, senders: nat,
                                             s: System)
    requires Delivery(events, slots, size, senders, s)
    ensures forall w | 0 <= w < |s.senders| :: SenderOk(s, events, w)
    ensures forall id | id in s.table.messages :: exists w | 0 <= w < |s.senders| :: s.senders[w] == Talking(id)
  {
    DeliveryMatches(events, slots, size, senders, s);
  }

  /**
   A sender that keeps the protocol is never told its message never began, and is answered its id until the message
   ends.
   */
  lemma {:induction false} ConformingIsAnswered(events: seq<Event>, slots: seq<Slot>, size: seq<nat> -> nat,
                                                senders: nat, s: System, e: Event, slot: Slot)
    requires Delivery(events, slots, size, senders, s) && Conforms(s, e) && IsSlotOf(slot, e, SentId(s, e))
    ensures AnswerTo(s.table, slot, size)
            == Word(if e.last then size(SinceBegin(events + [e], e.who)) else 256 * EventId(s, e))
  {
    DeliveryMatches(events, slots, size, senders, s);
    ServesEvent(s, e, slot, size, events);
    assert (events + [e])[..|events|] == events;
    assert SenderOk(s, events, e.who);
  }

  /**
   A continuation is refused exactly where no sender has that message open, and then nothing changes: the one error of
   the service.
   */
  lemma {:induction false} UnknownIsRefused(events: seq<Event>, slots: seq<Slot>, size: seq<nat> -> nat, senders: nat,
                                            s: System, slot: Slot)
    requires Delivery(events, slots, size, senders, s)
    ensures AnswerTo(s.table, slot, size).NeverBegan? <==>
              && !Begins(slot[0])
              && forall w | 0 <= w < |s.senders| && InMessage(events, w) :: s.senders[w] != Talking(MessageId(slot[0]))
    ensures AnswerTo(s.table, slot, size).NeverBegan? ==> Served(s.table, slot) == s.table
  {
    DeliveryMatches(events, slots, size, senders, s);
    var id := MessageId(slot[0]);
    if !Begins(slot[0]) && id in s.table.messages {
      var w :| 0 <= w < |s.senders| && s.senders[w] == Talking(id);
      assert SenderOk(s, events, w);
    }
    forall w | 0 <= w < |s.senders| && s.senders[w] == Talking(id)
      ensures id in s.table.messages && InMessage(events, w)
    {
      assert SenderOk(s, events, w);
    }
  }

  // ---- Packets of lanes --------------------------------------------------------

  /** A packet: each lane's slot, whether the lane is active, and what an active lane sends. */
  datatype Packet = Packet(slots: seq<Slot>, active: seq<bool>, events: seq<Event>)

  predicate Shaped(p: Packet) { |p.slots| == |p.active| == |p.events| }

  /** The lanes are different senders, and each active one keeps the protocol. */
  ghost predicate PacketConforms(s: System, p: Packet) {
    && Shaped(p) && (forall l, m | 0 <= l < m < |p.events| :: p.events[l].who != p.events[m].who)
    && forall l | 0 <= l < |p.events| && p.active[l] :: LaneConforms(s, p, l)
  }

  predicate LaneConforms(s: System, p: Packet, l: nat)
    requires Shaped(p) && l < |p.events|
  {
    Conforms(s, p.events[l]) && IsSlotOf(p.slots[l], p.events[l], SentId(s, p.events[l]))
  }

  /** The first n lanes' senders, each with the id it finds in its slot when the packet is answered. */
  function Told(senders: seq<Sender>, p: Packet, answers: seq<Slot>, n: nat): (r: seq<Sender>)
    requires Shaped(p) && |answers| == |p.slots| && n <= |p.slots|
    ensures |r| == |senders|
  {
    if n == 0 then senders
    else
      var q, e := Told(senders, p, answers, n - 1), p.events[n - 1];
      if p.active[n - 1] && e.who < |q|
        then q[e.who := if e.last then Quiet else Talking(MessageId(answers[n - 1][0]))] else q
  }

  /** serve_printf of a packet, and the lanes reading their slots once it is answered. */
  function PacketServed(s: System, p: Packet, size: seq<nat> -> nat, n: nat): System
    requires Shaped(p) && n <= |p.slots|
  {
    var r := LanesServed(s.table, p.slots, p.active, size, n);
    System(r.0, Told(s.senders, p, r.1, n))
  }

  /** What the first n lanes send, the active ones in lane order. */
  function EventsOf(p: Packet, n: nat): seq<Event>
    requires Shaped(p) && n <= |p.slots|
  {
    if n == 0 then [] else EventsOf(p, n - 1) + (if p.active[n - 1] then [p.events[n - 1]] else [])
  }

  function SlotsOf(p: Packet, n: nat): seq<Slot>
    requires Shaped(p) && n <= |p.slots|
  {
    if n == 0 then [] else SlotsOf(p, n - 1) + (if p.active[n - 1] then [p.slots[n - 1]] else [])
  }

  lemma {:induction false} DeliveryOn(events: seq<Event>, slots: seq<Slot>, size: seq<nat> -> nat, senders: nat,
                                      s: System, e: Event, slot: Slot)
    requires Delivery(events, slots, size, senders, s) && Conforms(s, e) && IsSlotOf(slot, e, SentId(s, e))
    ensures Delivery(events + [e], slots + [slot], size, senders, Delivered(s, e, slot, size))
  {
    assert (events + [e])[..|events|] == events && (slots + [slot])[..|events|] == slots;
    assert LastEvent(events + [e], slots + [slot], size, senders, s, Delivered(s, e, slot, size));
  }

  /** A sender that none of the first n lanes is keeps its state. */
  lemma {:induction false} OthersAreNotTold(senders: seq<Sender>, p: Packet, answers: seq<Slot>, n: nat, who: nat)
    requires Shaped(p) && |answers| == |p.slots| && n <= |p.slots| && who < |senders|
    requires forall l | 0 <= l < n :: p.events[l].who != who
    ensures Told(senders, p, answers, n)[who] == senders[who]
  {
    if n > 0 {
      OthersAreNotTold(senders, p, answers, n - 1, who);
    }
  }

  lemma {:induction false} SameAnswers(senders: seq<Sender>, p: Packet, one: seq<Slot>, two: seq<Slot>, n: nat)
    requires Shaped(p) && |one| == |two| == |p.slots| && n <= |p.slots| && forall l | 0 <= l < n :: one[l] == two[l]
    ensures Told(senders, p, one, n) == Told(senders, p, two, n)
  {
    if n > 0 {
      SameAnswers(senders, p, one, two, n - 1);
    }
  }

  /**
   The next active lane: its part of the packet is one event delivered, and its answer is what is left in its slot.
   */
  lemma {:induction false} NextLaneDelivers(events: seq<Event>, slots: seq<Slot>, size: seq<nat> -> nat, senders: nat,
                                            s: System, p: Packet, n: nat)
    requires PacketConforms(s, p) && n < |p.slots| && p.active[n] && LanesServed(s.table, p.slots, p.active, size, n).2
    requires Delivery(events, slots, size, senders, PacketServed(s, p, size, n))
    ensures Conforms(PacketServed(s, p, size, n), p.events[n])
    ensures IsSlotOf(p.slots[n], p.events[n], SentId(PacketServed(s, p, size, n), p.events[n]))
    ensures LanesServed(s.table, p.slots, p.active, size, n + 1).2
    ensures PacketServed(s, p, size, n + 1) == Delivered(PacketServed(s, p, size, n), p.events[n], p.slots[n], size)
  {
    var t, e, slot := PacketServed(s, p, size, n), p.events[n], p.slots[n];
    var r := LanesServed(s.table, p.slots, p.active, size, n);
    assert LaneConforms(s, p, n);
    OthersAreNotTold(s.senders, p, r.1, n, e.who);
    ConformingIsAnswered(events, slots, size, senders, t, e, slot);
    var q := LanesServed(s.table, p.slots, p.active, size, n + 1);
    SameAnswers(s.senders, p, r.1, q.1, n);
  }

  /** No lane of the first n is refused, and the state they leave is their events delivered. */
  ghost predicate Delivers(events: seq<Event>, slots: seq<Slot>, size: seq<nat> -> nat, senders: nat, s: System,
                           p: Packet, n: nat)
    requires Shaped(p) && n <= |p.slots|
  {
    && LanesServed(s.table, p.slots, p.active, size, n).2
    && Delivery(events + EventsOf(p, n), slots + SlotsOf(p, n), size, senders, PacketServed(s, p, size, n))
  }

  /** The lanes of a packet that keeps the protocol are served as their events delivered one after another. */
  lemma {:induction false} PacketIsDelivery(events: seq<Event>, slots: seq<Slot>, size: seq<nat> -> nat, senders: nat,
                                            s: System, p: Packet, n: nat)
    requires Delivery(events, slots, size, senders, s) && PacketConforms(s, p) && n <= |p.slots|
    ensures Delivers(events, slots, size, senders, s, p, n)
  {
    NothingDelivers(events, slots, size, senders, s, p);
    for l := 0 to n
      invariant Delivers(events, slots, size, senders, s, p, l)
    {
      LaneDelivers(events, slots, size, senders, s, p, l);
    }
  }

  lemma {:induction false} LaneDelivers(events: seq<Event>, slots: seq<Slot>, size: seq<nat> -> nat, senders: nat,
                                        s: System, p: Packet, n: nat)
    requires PacketConforms(s, p) && n < |p.slots| && Delivers(events, slots, size, senders, s, p, n)
    ensures Delivers(events, slots, size, senders, s, p, n + 1)
  {
    if p.active[n] {
      ActiveLaneDelivers(events, slots, size, senders, s, p, n);
    } else {
      IdleLane(s, p, size, n);
    }
  }

  lemma {:induction false} NothingDelivers(events: seq<Event>, slots: seq<Slot>, size: seq<nat> -> nat, senders: nat,
                                           s: System, p: Packet)
    requires Delivery(events, slots, size, senders, s) && PacketConforms(s, p)
    ensures Delivers(events, slots, size, senders, s, p, 0)
  {
    assert events + [] == events && slots + [] == slots;
  }

  lemma {:induction false} ActiveLaneDelivers(events: seq<Event>, slots: seq<Slot>, size: seq<nat> -> nat,
                                              senders: nat, s: System, p: Packet, n: nat)
    requires PacketConforms(s, p) && n < |p.slots| && p.active[n] && Delivers(events, slots, size, senders, s, p, n)
    ensures Delivers(events, slots, size, senders, s, p, n + 1)
  {
    OneMoreEvent(events, slots, p, n);
    ActiveLane(events + EventsOf(p, n), slots + SlotsOf(p, n), size, senders, s, p, n);
  }

  lemma {:induction false} ActiveLane(events: seq<Event>, slots: seq<Slot>, size: seq<nat> -> nat, senders: nat,
                                      s: System, p: Packet, n: nat)
    requires PacketConforms(s, p) && n < |p.slots| && p.active[n] && LanesServed(s.table, p.slots, p.active, size, n).2
    requires Delivery(events, slots, size, senders, PacketServed(s, p, size, n))
    ensures LanesServed(s.table, p.slots, p.active, size, n + 1).2
    ensures Delivery(events + [p.events[n]], slots + [p.slots[n]], size, senders, PacketServed(s, p, size, n + 1))
  {
    NextLaneDelivers(events, slots, size, senders, s, p, n);
    DeliveryOn(events, slots, size, senders, PacketServed(s, p, size, n), p.events[n], p.slots[n]);
  }

  lemma {:induction false} IdleLane(s: System, p: Packet, size: seq<nat> -> nat, n: nat)
    requires Shaped(p) && n < |p.slots| && !p.active[n]
    ensures PacketServed(s, p, size, n + 1) == PacketServed(s, p, size, n)
    ensures LanesServed(s.table, p.slots, p.active, size, n + 1) == LanesServed(s.table, p.slots, p.active, size, n)
    ensures EventsOf(p, n + 1) == EventsOf(p, n) && SlotsOf(p, n + 1) == SlotsOf(p, n)
  {
    assert EventsOf(p, n) + [] == EventsOf(p, n) && SlotsOf(p, n) + [] == SlotsOf(p, n);
  }

  lemma {:induction false} OneMoreEvent(events: seq<Event>, slots: seq<Slot>, p: Packet, n: nat)
    requires Shaped(p) && n < |p.slots| && p.active[n]
    ensures events + EventsOf(p, n + 1) == events + EventsOf(p, n) + [p.events[n]]
    ensures slots + SlotsOf(p, n + 1) == slots + SlotsOf(p, n) + [p.slots[n]]
  {
    assert EventsOf(p, n + 1) == EventsOf(p, n) + [p.events[n]];
    assert SlotsOf(p, n + 1) == SlotsOf(p, n) + [p.slots[n]];
  }

  /** Packets served one after another, from a new table and quiet senders. */
  ghost predicate PacketRun(packets: seq<Packet>, size: seq<nat> -> nat, senders: nat, s: System)
    decreases |packets|
  {
    if packets == [] then s == System(NEW_TABLE, Quiets(senders))
    else exists before :: LastPacket(packets, size, senders, before, s)
  }

  ghost predicate LastPacket(packets: seq<Packet>, size: seq<nat> -> nat, senders: nat, before: System, s: System)
    requires packets != []
    decreases |packets|, 0
  {
    var p := packets[|packets| - 1];
    PacketRun(packets[..|packets| - 1], size, senders, before) && PacketConforms(before, p)
      && s == PacketServed(before, p, size, |p.slots|)
  }

  /** Every event of every packet: lane by lane within a packet, packet by packet. */
  function AllEvents(packets: seq<Packet>): seq<Event>
    requires forall i | 0 <= i < |packets| :: Shaped(packets[i])
  {
    if packets == [] then []
    else var p := packets[|packets| - 1]; AllEvents(packets[..|packets| - 1]) + EventsOf(p, |p.slots|)
  }

  lemma {:induction false} PacketsAreDelivery(packets: seq<Packet>, size: seq<nat> -> nat, senders: nat, s: System)
    returns (slots: seq<Slot>)
    requires PacketRun(packets, size, senders, s)
    ensures (forall i | 0 <= i < |packets| :: Shaped(packets[i]))
            && Delivery(AllEvents(packets), slots, size, senders, s)
    decreases |packets|
  {
    slots := [];
    if packets != [] {
      var before :| LastPacket(packets, size, senders, before, s);
      var p := packets[|packets| - 1];
      slots := PacketsAreDelivery(packets[..|packets| - 1], size, senders, before);
      PacketIsDelivery(AllEvents(packets[..|packets| - 1]), slots, size, senders, before, p, |p.slots|);
      slots := slots + SlotsOf(p, |p.slots|);
    }
  }

  /**
   Over any interleaving of packets from any lanes, the messages formatted are exactly those that ended, in that order,
   each the words its own lane sent from begin to end; and no lane of a next packet that keeps the protocol is refused.
   */
  lemma {:induction false} PacketMessagesAreWhole(packets: seq<Packet>, size: seq<nat> -> nat, senders: nat, s: System)
    requires PacketRun(packets, size, senders, s)
    ensures (forall i | 0 <= i < |packets| :: Shaped(packets[i])) && s.table.printed == Messages(AllEvents(packets))
    ensures forall w | 0 <= w < |s.senders| :: SenderOk(s, AllEvents(packets), w)
    ensures forall id | id in s.table.messages :: exists w | 0 <= w < |s.senders| :: s.senders[w] == Talking(id)
    ensures forall p | PacketConforms(s, p) :: LanesServed(s.table, p.slots, p.active, size, |p.slots|).2
  {
    var slots := PacketsAreDelivery(packets, size, senders, s);
    DeliveryMatches(AllEvents(packets), slots, size, senders, s);
    forall p | PacketConforms(s, p)
      ensures LanesServed(s.table, p.slots, p.active, size, |p.slots|).2
    {
      PacketIsDelivery(AllEvents(packets), slots, size, senders, s, p, |p.slots|);
    }
  }
}
