/** The lane loops of the LDS handlers, in place, against the lane-by-lane reference. */
module LdsLanes {
  import opened Basics
  import opened Lds
  import opened LdsMoves

  ghost function StateOf(v: array2<Word>, lds: array<Byte>): State
    reads v, lds
  {
    State(RegsOf(v), lds[..])
  }

  /** The next lane's step, from an address the lanes before it have not moved. */
  lemma {:induction false} NextLane(s: State, op: Op, ex: seq<bool>, l: nat)
    requires Ready(s, op, |ex|) && l < |ex| && ex[l] && !SomePast(s, op, ex)
    ensures var t := Lanes(s, op, ex, l);
            t.regs[op.addr][l] == s.regs[op.addr][l] && !Past(op, Value(t.regs[op.addr][l]), |t.lds|)
  {
    if op.Loads() {
      LoadsPointwise(s, op, ex, l);
    } else {
      StoresKeepRegisters(s, op, ex, l);
    }
    NotPast(s, op, ex, l);
  }

  /** One lane's load leaves the other lanes' addresses. */
  lemma {:induction false} LoadStep(s: State, op: Op, lanes: nat, l: nat)
    requires Ready(s, op, lanes) && l < lanes && op.Loads() && !Past(op, Value(s.regs[op.addr][l]), |s.lds|)
    ensures LaneStep(s, op, lanes, l)
            == s.(regs := SetLane(s.regs, op.dst, LoadedWords(s.lds, op, Value(s.regs[op.addr][l])), l))
    ensures forall i | 0 <= i < lanes && i != l :: LaneStep(s, op, lanes, l).regs[op.addr][i] == s.regs[op.addr][i]
  {
  }

  lemma {:induction false} StoreStep(s: State, op: Op, lanes: nat, l: nat)
    requires Ready(s, op, lanes) && l < lanes && op.form == Write && !Past(op, Value(s.regs[op.addr][l]), |s.lds|)
    ensures LaneStep(s, op, lanes, l)
            == s.(lds := Put(s.lds, Address(Value(s.regs[op.addr][l]), op.x0),
                             BytesOf(LaneWords(s.regs, op.src, op.words, l))))
  {
  }

  method LoadLane(v: array2<Word>, lds: array<Byte>, op: Op, l: nat)
    requires Ready(StateOf(v, lds), op, v.Length1) && l < v.Length1 && !Past(op, Value(v[op.addr, l]), lds.Length)
             && op.Loads()
    modifies v
    ensures StateOf(v, lds) == LaneStep(old(StateOf(v, lds)), op, v.Length1, l)
  {
    ghost var s := StateOf(v, lds);
    LoadStep(s, op, v.Length1, l);
    var ws := LoadLaneWords(lds, op, Value(v[op.addr, l]));
    SetWords(v, op.dst, ws, l);
  }

  method LoadLaneWords(lds: array<Byte>, op: Op, base: nat) returns (ws: seq<Word>)
    requires op.Loads() && !Past(op, base, lds.Length)
    ensures ws == LoadedWords(lds[..], op, base)
  {
    ws := LoadWords(lds, Address(base, op.x0), op.words);
    if op.form == Read2 {
      var vs := LoadWords(lds, Address(base, op.x1), op.words);
      ws := ws + vs;
    }
  }

  method StoreLane(v: array2<Word>, lds: array<Byte>, op: Op, l: nat)
    requires Ready(StateOf(v, lds), op, v.Length1) && l < v.Length1 && !Past(op, Value(v[op.addr, l]), lds.Length)
             && op.form == Write
    modifies lds
    ensures StateOf(v, lds) == LaneStep(old(StateOf(v, lds)), op, v.Length1, l)
  {
    ghost var s := StateOf(v, lds);
    StoreStep(s, op, v.Length1, l);
    var ws := GetWords(v, op.src, op.words, l);
    StoreBytes(lds, Address(Value(v[op.addr, l]), op.x0), BytesOf(ws));
  }

  method StoreLane2(v: array2<Word>, lds: array<Byte>, op: Op, l: nat)
    requires Ready(StateOf(v, lds), op, v.Length1) && l < v.Length1 && !Past(op, Value(v[op.addr, l]), lds.Length)
             && op.form == Write2
    modifies lds
    ensures StateOf(v, lds) == LaneStep(old(StateOf(v, lds)), op, v.Length1, l)
  {
    var ws := GetWords(v, op.src, op.words, l);
    var vs := GetWords(v, op.src2, op.words, l);
    StoreBytes(lds, Address(Value(v[op.addr, l]), op.x0), BytesOf(ws));
    StoreBytes(lds, Address(Value(v[op.addr, l]), op.x1), BytesOf(vs));
  }

  method AddLane(v: array2<Word>, lds: array<Byte>, op: Op, l: nat)
    requires Ready(StateOf(v, lds), op, v.Length1) && l < v.Length1 && !Past(op, Value(v[op.addr, l]), lds.Length)
             && op.form == Add
    modifies lds
    ensures StateOf(v, lds) == LaneStep(old(StateOf(v, lds)), op, v.Length1, l)
  {
    AddStep(StateOf(v, lds), op, v.Length1, l);
    AddWord(lds, Address(Value(v[op.addr, l]), op.x0), Value(v[op.src, l]));
  }

  lemma {:induction false} AddStep(s: State, op: Op, lanes: nat, l: nat)
    requires Ready(s, op, lanes) && l < lanes && op.form == Add && !Past(op, Value(s.regs[op.addr][l]), |s.lds|)
    ensures LaneStep(s, op, lanes, l)
            == s.(lds := Added(s.lds, Address(Value(s.regs[op.addr][l]), op.x0), Value(s.regs[op.src][l])))
  {
  }

  /** A 32-bit addition to the word at an address. */
  function Added(m: seq<Byte>, a: nat, x: nat): seq<Byte>
    requires a + 4 <= |m|
  {
    Put(m, a, WordOf((Value(WordAt(m, a)) + x) % LIMIT).bytes)
  }

  method AddWord(lds: array<Byte>, a: nat, x: nat)
    requires a + 4 <= lds.Length
    modifies lds
    ensures lds[..] == Added(old(lds[..]), a, x)
  {
    var w := WordFrom(lds[a], lds[a + 1], lds[a + 2], lds[a + 3]);
    assert w == WordAt(lds[..], a);
    StoreBytes(lds, a, WordOf((Value(w) + x) % LIMIT).bytes);
  }

  /** One lane's access. */
  method DoLane(v: array2<Word>, lds: array<Byte>, op: Op, l: nat)
    requires Ready(StateOf(v, lds), op, v.Length1) && l < v.Length1 && !Past(op, Value(v[op.addr, l]), lds.Length)
    modifies v, lds
    ensures StateOf(v, lds) == LaneStep(old(StateOf(v, lds)), op, v.Length1, l)
  {
    match op.form
    case Read => LoadLane(v, lds, op, l);
    case Read2 => LoadLane(v, lds, op, l);
    case Write => StoreLane(v, lds, op, l);
    case Write2 => StoreLane2(v, lds, op, l);
    case Add => AddLane(v, lds, op, l);
  }

  /** Every lane that is on, one after another: the masked loops, the counted loops, and ds_add_u32. */
  method EachLane(v: array2<Word>, lds: array<Byte>, op: Op, ex: seq<bool>)
    requires |ex| == v.Length1 && Ready(StateOf(v, lds), op, |ex|) && !SomePast(StateOf(v, lds), op, ex)
    modifies v, lds
    ensures StateOf(v, lds) == Lanes(old(StateOf(v, lds)), op, ex, |ex|)
  {
    ghost var s := StateOf(v, lds);
    var l := 0;
    while l < |ex|
      invariant 0 <= l <= |ex|
      invariant StateOf(v, lds) == Lanes(s, op, ex, l)
    {
      if ex[l] {
        NextLane(s, op, ex, l);
        DoLane(v, lds, op, l);
      }
      l := l + 1;
    }
  }
}
