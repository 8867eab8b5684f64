/**
 The MessagePack reader of code object metadata, and what it reads: every encoding the MessagePack specification's int,
 str, array, map, bool and nil format families allow.
 */
module Msgpack {
  import opened Basics

  datatype Value = Int(i: int) | Str(s: seq<Byte>) | Array(list: seq<Value>)
      | Map(keys: seq<Value>, values: seq<Value>) | Bool(b: bool) | Nil

  // ---- Numbers -----------------------------------------------------------------

  /** A big-endian number. */
  function Big(s: seq<Byte>): nat { if s == [] then 0 else 256 * Big(s[..|s| - 1]) + s[|s| - 1] }

  /** A field is read as the number whose digits its bytes are, the highest first. */
  lemma {:induction false} BigReads(s: seq<Byte>, n: nat)
    ensures HighFirst(s, Big(s)) && (HighFirst(s, n) <==> n == Big(s))
  {
    BigDigits(s);
    if HighFirst(s, n) {
      forall k | 0 <= k < |s|
        ensures Digit(Big(s), k) == Digit(n, k)
      {
        assert s[|s| - 1 - k] == Digit(n, |s| - 1 - (|s| - 1 - k));
      }
      DigitsAgree(Big(s), n, |s|);
    }
  }

  lemma {:induction false} BigDigits(s: seq<Byte>)
    ensures HighFirst(s, Big(s))
  {
    if s != [] {
      var n, front := |s| - 1, s[..|s| - 1];
      BigDigits(front);
      assert Big(s) / 256 == Big(front);
      forall i | 0 <= i < |s|
        ensures Digit(Big(s), n - i) == s[i]
      {
        if i < n {
          assert Digit(Big(front), |front| - 1 - i) == front[i];
        }
      }
    }
  }

  const HALF8: int := 0x80
  const HALF16: int := 0x8000
  const HALF32: int := 0x8000_0000
  const HALF64: int := 0x8000_0000_0000_0000

  /** Two's complement of a width whose sign bit is worth half. */
  function Signed(n: nat, half: int): int { if n >= half then n - 2 * half else n }

  /** be: n bytes from at, or None past the end of the file. */
  function Field(b: seq<Byte>, at: nat, n: nat): Option<nat> {
    if at + n <= |b| then Some(Big(b[at..at + n])) else None
  }

  method ReadBig(b: seq<Byte>, at: nat, n: nat) returns (r: Option<nat>)
    ensures r == Field(b, at, n)
  {
    var v: nat := 0;
    var i := 0;
    while i < n
      invariant 0 <= i <= n && (i > 0 ==> at + i <= |b|) && (at <= |b| ==> v == Big(b[at..at + i]))
    {
      if at + i + 1 > |b| {
        return None;
      }
      assert b[at..at + i + 1][..i] == b[at..at + i];
      v := 256 * v + b[at + i];
      i := i + 1;
    }
    return if at + n <= |b| then Some(v) else None;
  }

  // ---- Heads -------------------------------------------------------------------

  /** What a tag and the number after it announce: a value whole, a string of n bytes, n values, n pairs. */
  datatype Head = Whole(v: Value) | Text(n: nat) | Items(n: nat) | Pairs(n: nat)

  /** How many bytes of number follow a tag that is none of the short ones; 0 for a tag that is not read. */
  function NumberBytes(tag: int): nat {
    match tag
    case 0xCC => 1 case 0xCD => 2 case 0xCE => 4 case 0xCF => 8
    case 0xD0 => 1 case 0xD1 => 2 case 0xD2 => 4 case 0xD3 => 8
    case 0xD9 => 1 case 0xDA => 2 case 0xDB => 4
    case 0xDC => 2 case 0xDD => 4
    case 0xDE => 2 case 0xDF => 4
    case _ => 0
  }

  /** What such a tag and its number announce: casts to int64_t and to the narrower signed types included. */
  function WideHead(tag: int, n: nat): Head {
    if tag <= 0xCE then Whole(Int(n))
    else if tag == 0xCF then Whole(Int(Signed(n, HALF64)))
    else if tag == 0xD0 then Whole(Int(Signed(n, HALF8)))
    else if tag == 0xD1 then Whole(Int(Signed(n, HALF16)))
    else if tag == 0xD2 then Whole(Int(Signed(n, HALF32)))
    else if tag == 0xD3 then Whole(Int(Signed(n, HALF64)))
    else if tag <= 0xDB then Text(n)
    else if tag <= 0xDD then Items(n)
    else Pairs(n)
  }

  /** What a tag announces by itself. */
  function ShortHead(tag: int): Option<Head> {
    if tag < 0 then None
    else if tag <= 0x7F then Some(Whole(Int(tag)))
    else if tag < 0x90 then Some(Pairs(tag - 0x80))
    else if tag < 0xA0 then Some(Items(tag - 0x90))
    else if tag < 0xC0 then Some(Text(tag - 0xA0))
    else if tag == 0xC0 then Some(Whole(Nil))
    else if tag == 0xC2 || tag == 0xC3 then Some(Whole(Bool(tag == 0xC3)))
    else if tag >= 0xE0 then Some(Whole(Int(tag - 256)))
    else None
  }

  /** The head at byte at, and how many bytes it takes. */
  function HeadAt(b: seq<Byte>, at: nat): Option<(Head, nat)> {
    if at >= |b| then None
    else
      match ShortHead(b[at])
      case Some(h) => Some((h, 1))
      case None =>
        var k := NumberBytes(b[at]);
        if k == 0 then None
        else
          match Field(b, at + 1, k)
          case None => None
          case Some(n) => Some((WideHead(b[at], n), 1 + k))
  }

  lemma {:induction false} HeadIsShort(b: seq<Byte>, at: nat)
    requires HeadAt(b, at).Some?
    ensures 1 <= HeadAt(b, at).value.1 && at + HeadAt(b, at).value.1 <= |b|
  {
  }

  // ---- The reader --------------------------------------------------------------

  const DEEPEST := 32

  /** Bytes left before end: what the recursion uses up. */
  function Left(at: nat, end: nat): nat { if at < end then end - at else 0 }

  /** parse_msgpack: the value at byte at and the byte after it, or None for every error. */
  function Parse(b: seq<Byte>, at: nat, end: nat, depth: nat): (r: Option<(Value, nat)>)
    ensures r.Some? ==> at < end && at < r.value.1 <= |b|
    decreases Left(at, end), 0
  {
    if depth > DEEPEST || at >= end then None
    else
      match HeadAt(b, at)
      case None => None
      case Some(h) =>
        HeadIsShort(b, at);
        var from := at + h.1;
        match h.0
        case Whole(v) => Some((v, from))
        case Text(n) => if from + n <= |b| then Some((Str(b[from..from + n]), from + n)) else None
        case Items(n) =>
          (match ParseItems(b, from, end, depth + 1, n)
           case None => None
           case Some(p) => Some((Array(p.0), p.1)))
        case Pairs(n) =>
          match ParsePairs(b, from, end, depth + 1, n)
          case None => None
          case Some(p) => Some((Map(p.0, p.1), p.2))
  }

  function ParseItems(b: seq<Byte>, at: nat, end: nat, depth: nat, n: nat): (r: Option<(seq<Value>, nat)>)
    ensures r.Some? ==> at <= r.value.1 && (at <= |b| ==> r.value.1 <= |b|) && |r.value.0| == n
    decreases Left(at, end), 1, n
  {
    if n == 0 then Some(([], at))
    else
      match Parse(b, at, end, depth)
      case None => None
      case Some(p) =>
        match ParseItems(b, p.1, end, depth, n - 1)
        case None => None
        case Some(q) => Some(([p.0] + q.0, q.1))
  }

  /** One key and its value. */
  function ParsePair(b: seq<Byte>, at: nat, end: nat, depth: nat): (r: Option<(Value, Value, nat)>)
    ensures r.Some? ==> at < end && at < r.value.2 <= |b|
    decreases Left(at, end), 1
  {
    match Parse(b, at, end, depth)
    case None => None
    case Some(k) =>
      match Parse(b, k.1, end, depth)
      case None => None
      case Some(v) => Some((k.0, v.0, v.1))
  }

  function ParsePairs(b: seq<Byte>, at: nat, end: nat, depth: nat, n: nat): (r: Option<(seq<Value>, seq<Value>, nat)>)
    ensures r.Some? ==> at <= r.value.2 && (at <= |b| ==> r.value.2 <= |b|) && |r.value.0| == |r.value.1| == n
    decreases Left(at, end), 2, n
  {
    if n == 0 then Some(([], [], at))
    else
      match ParsePair(b, at, end, depth)
      case None => None
      case Some(p) =>
        match ParsePairs(b, p.2, end, depth, n - 1)
        case None => None
        case Some(q) => Some(([p.0] + q.0, [p.1] + q.1, q.2))
  }

  // ---- The reader as it runs ---------------------------------------------------

  method ReadHead(b: seq<Byte>, at: nat) returns (r: Option<(Head, nat)>)
    ensures r == HeadAt(b, at)
  {
    if at >= |b| {
      return None;
    }
    var tag := b[at];
    var short := ShortHead(tag);
    if short.Some? {
      return Some((short.value, 1));
    }
    var k := NumberBytes(tag);
    if k == 0 {
      return None;
    }
    var n := ReadBig(b, at + 1, k);
    return if n.None? then None else Some((WideHead(tag, n.value), 1 + k));
  }

  method ReadValue(b: seq<Byte>, at: nat, end: nat, depth: nat) returns (r: Option<(Value, nat)>)
    ensures r == Parse(b, at, end, depth)
    decreases Left(at, end), 0
  {
    if depth > DEEPEST || at >= end {
      return None;
    }
    var head := ReadHead(b, at);
    if head.None? {
      return None;
    }
    HeadIsShort(b, at);
    var h, from := head.value.0, at + head.value.1;
    match h
    case Whole(v) => return Some((v, from));
    case Text(n) => return if from + n <= |b| then Some((Str(b[from..from + n]), from + n)) else None;
    case Items(n) =>
      var p := ReadItems(b, from, end, depth + 1, n);
      return if p.None? then None else Some((Array(p.value.0), p.value.1));
    case Pairs(n) =>
      var p := ReadPairs(b, from, end, depth + 1, n);
      return if p.None? then None else Some((Map(p.value.0, p.value.1), p.value.2));
  }

  /** Items read so far, in front of those still to be read. */
  function ItemsAfter(done: seq<Value>, rest: Option<(seq<Value>, nat)>): Option<(seq<Value>, nat)> {
    if rest.None? then None else Some((done + rest.value.0, rest.value.1))
  }

  /** fill_array: the cursor runs on from value to value. */
  method ReadItems(b: seq<Byte>, from: nat, end: nat, depth: nat, n: nat) returns (r: Option<(seq<Value>, nat)>)
    ensures r == ParseItems(b, from, end, depth, n)
    decreases Left(from, end), 1
  {
    var list: seq<Value>, at, i := [], from, 0;
    ghost var all := ParseItems(b, from, end, depth, n);
    if all.Some? {
      assert [] + all.value.0 == all.value.0;
    }
    while i < n
      invariant 0 <= i <= n && from <= at
      invariant all == ItemsAfter(list, ParseItems(b, at, end, depth, n - i))
    {
      var v := ReadValue(b, at, end, depth);
      if v.None? {
        return None;
      }
      NextItem(b, at, end, depth, n - i, list);
      list, at, i := list + [v.value.0], v.value.1, i + 1;
    }
    assert list + [] == list;
    return Some((list, at));
  }

  lemma {:induction false} NextItem(b: seq<Byte>, at: nat, end: nat, depth: nat, n: nat, list: seq<Value>)
    requires n > 0 && Parse(b, at, end, depth).Some?
    ensures var v := Parse(b, at, end, depth).value;
            ItemsAfter(list, ParseItems(b, at, end, depth, n))
              == ItemsAfter(list + [v.0], ParseItems(b, v.1, end, depth, n - 1))
  {
    var v := Parse(b, at, end, depth).value;
    var rest := ParseItems(b, v.1, end, depth, n - 1);
    if rest.Some? {
      assert list + ([v.0] + rest.value.0) == list + [v.0] + rest.value.0;
    }
  }

  function PairsAfter(ks: seq<Value>, vs: seq<Value>, rest: Option<(seq<Value>, seq<Value>, nat)>)
    : Option<(seq<Value>, seq<Value>, nat)>
  {
    if rest.None? then None else Some((ks + rest.value.0, vs + rest.value.1, rest.value.2))
  }

  /** A step of fill_map's loop. */
  method ReadPair(b: seq<Byte>, at: nat, end: nat, depth: nat) returns (r: Option<(Value, Value, nat)>)
    ensures r == ParsePair(b, at, end, depth)
    decreases Left(at, end), 1
  {
    var k := ReadValue(b, at, end, depth);
    if k.None? {
      return None;
    }
    var v := ReadValue(b, k.value.1, end, depth);
    return if v.None? then None else Some((k.value.0, v.value.0, v.value.1));
  }

  /** fill_map. */
  method ReadPairs(b: seq<Byte>, from: nat, end: nat, depth: nat, n: nat)
    returns (r: Option<(seq<Value>, seq<Value>, nat)>)
    ensures r == ParsePairs(b, from, end, depth, n)
    decreases Left(from, end), 2
  {
    var ks: seq<Value>, vs: seq<Value>, at, i := [], [], from, 0;
    ghost var all := ParsePairs(b, from, end, depth, n);
    if all.Some? {
      assert [] + all.value.0 == all.value.0 && [] + all.value.1 == all.value.1;
    }
    while i < n
      invariant 0 <= i <= n && from <= at
      invariant all == PairsAfter(ks, vs, ParsePairs(b, at, end, depth, n - i))
    {
      var p := ReadPair(b, at, end, depth);
      if p.None? {
        return None;
      }
      NextPair(b, at, end, depth, n - i, ks, vs);
      ks, vs, at, i := ks + [p.value.0], vs + [p.value.1], p.value.2, i + 1;
    }
    assert ks + [] == ks && vs + [] == vs;
    return Some((ks, vs, at));
  }

  lemma {:induction false} NextPair(b: seq<Byte>, at: nat, end: nat, depth: nat, n: nat, ks: seq<Value>, vs: seq<Value>)
    requires n > 0 && ParsePair(b, at, end, depth).Some?
    ensures var p := ParsePair(b, at, end, depth).value;
            PairsAfter(ks, vs, ParsePairs(b, at, end, depth, n))
              == PairsAfter(ks + [p.0], vs + [p.1], ParsePairs(b, p.2, end, depth, n - 1))
  {
    var p := ParsePair(b, at, end, depth).value;
    var rest := ParsePairs(b, p.2, end, depth, n - 1);
    if rest.Some? {
      assert ks + ([p.0] + rest.value.0) == ks + [p.0] + rest.value.0;
      assert vs + ([p.1] + rest.value.1) == vs + [p.1] + rest.value.1;
    }
  }
}
