/** The reader against the MessagePack specification: it reads every legal encoding, and nothing but encodings. */
module MsgpackTheorems {
  import opened Basics
  import opened Msgpack

  // ---- Encodings, from the specification ---------------------------------------

  /** The bytes are the tag and then the number's digits in base 256, the highest first. */
  predicate Tagged(h: seq<Byte>, tag: int, size: nat, n: int) {
    |h| == 1 + size && h[0] == tag && 0 <= n && HighFirst(h[1..], n)
  }

  /** What the reader takes such bytes for. */
  lemma {:induction false} TaggedIsBig(h: seq<Byte>, tag: int, size: nat, n: int)
    ensures Tagged(h, tag, size, n) <==> |h| == 1 + size && h[0] == tag && Big(h[1..]) == n
  {
    if |h| > 0 && n >= 0 {
      BigReads(h[1..], n);
    }
  }

  /** A number as two's complement of a width whose sign bit is worth half. */
  predicate TaggedSigned(h: seq<Byte>, tag: int, size: nat, half: int, i: int) {
    -half <= i < half && Tagged(h, tag, size, if i < 0 then i + 2 * half else i)
  }

  /**
   The int format family: positive and negative fixint, uint 8 to 64, int 8 to 64. `wrapped` adds uint 64 past the int64
   range, taken modulo 2^64.
   */
  predicate IntHead(h: seq<Byte>, i: int, wrapped: bool) {
    || (|h| == 1 && 0 <= i <= 127 && h[0] == i) || (|h| == 1 && -32 <= i < 0 && h[0] == 256 + i)
    || Tagged(h, 0xCC, 1, i) || Tagged(h, 0xCD, 2, i) || Tagged(h, 0xCE, 4, i) || Tagged(h, 0xCF, 8, i)
    || TaggedSigned(h, 0xD0, 1, HALF8, i) || TaggedSigned(h, 0xD1, 2, HALF16, i) || TaggedSigned(h, 0xD2, 4, HALF32, i)
    || TaggedSigned(h, 0xD3, 8, HALF64, i)
    || (wrapped && TaggedSigned(h, 0xCF, 8, HALF64, i))
  }

  /** The str format family: fixstr, str 8, 16 and 32. */
  predicate TextHead(h: seq<Byte>, n: nat) {
    (|h| == 1 && n < 32 && h[0] == 0xA0 + n) || Tagged(h, 0xD9, 1, n) || Tagged(h, 0xDA, 2, n) || Tagged(h, 0xDB, 4, n)
  }

  /** The array and map format families. */
  predicate ItemsHead(h: seq<Byte>, n: nat) {
    (|h| == 1 && n < 16 && h[0] == 0x90 + n) || Tagged(h, 0xDC, 2, n) || Tagged(h, 0xDD, 4, n)
  }
  predicate PairsHead(h: seq<Byte>, n: nat) {
    (|h| == 1 && n < 16 && h[0] == 0x80 + n) || Tagged(h, 0xDE, 2, n) || Tagged(h, 0xDF, 4, n)
  }

  /** The values in a value, itself included. */
  function Nodes(v: Value): (n: nat)
    ensures n > 0
  {
    match v
    case Array(list) => 1 + AllNodes(list)
    case Map(keys, values) => 1 + AllNodes(keys) + AllNodes(values)
    case _ => 1
  }

  function AllNodes(list: seq<Value>): nat { if list == [] then 0 else Nodes(list[0]) + AllNodes(list[1..]) }

  /** e is an encoding of v, in any of the formats its family allows. */
  ghost predicate Encodes(v: Value, e: seq<Byte>, wrapped: bool)
    decreases Nodes(v), 0
  {
    match v
    case Int(i) => -HALF64 <= i < HALF64 && IntHead(e, i, wrapped)
    case Str(s) => |s| <= |e| && TextHead(e[..|e| - |s|], |s|) && e[|e| - |s|..] == s
    case Array(list) => exists k: nat :: IsArray(list, e, wrapped, k)
    case Map(keys, values) => |keys| == |values| && exists k: nat :: IsMap(keys, values, e, wrapped, k)
    case Bool(b) => e == [if b then 0xC3 else 0xC2]
    case Nil => e == [0xC0]
  }

  /** The first k bytes are the head and the rest the values. */
  ghost predicate IsArray(list: seq<Value>, e: seq<Byte>, wrapped: bool, k: nat)
    decreases AllNodes(list), 3
  {
    k <= |e| && ItemsHead(e[..k], |list|) && EncodesItems(list, e[k..], wrapped)
  }

  ghost predicate IsMap(keys: seq<Value>, values: seq<Value>, e: seq<Byte>, wrapped: bool, k: nat)
    requires |keys| == |values|
    decreases AllNodes(keys) + AllNodes(values), 3
  {
    k <= |e| && PairsHead(e[..k], |keys|) && EncodesPairs(keys, values, e[k..], wrapped)
  }

  ghost predicate EncodesItems(list: seq<Value>, e: seq<Byte>, wrapped: bool)
    decreases AllNodes(list), 2
  {
    if list == [] then e == [] else exists k: nat :: FirstItem(list, e, wrapped, k)
  }

  /** The first k bytes are the first value and the rest the others. */
  ghost predicate FirstItem(list: seq<Value>, e: seq<Byte>, wrapped: bool, k: nat)
    requires list != []
    decreases AllNodes(list), 1
  {
    k <= |e| && Encodes(list[0], e[..k], wrapped) && EncodesItems(list[1..], e[k..], wrapped)
  }

  ghost predicate EncodesPairs(keys: seq<Value>, values: seq<Value>, e: seq<Byte>, wrapped: bool)
    requires |keys| == |values|
    decreases AllNodes(keys) + AllNodes(values), 2
  {
    if keys == [] then e == [] else exists k: nat, m: nat :: FirstPair(keys, values, e, wrapped, k, m)
  }

  ghost predicate FirstPair(keys: seq<Value>, values: seq<Value>, e: seq<Byte>, wrapped: bool, k: nat, m: nat)
    requires |keys| == |values| && keys != []
    decreases AllNodes(keys) + AllNodes(values), 1
  {
    k <= m <= |e| && Encodes(keys[0], e[..k], wrapped) && Encodes(values[0], e[k..m], wrapped)
      && EncodesPairs(keys[1..], values[1..], e[m..], wrapped)
  }

  /** How deep a value nests. */
  function Height(v: Value): nat {
    match v
    case Array(list) => if list == [] then 0 else 1 + Highest(list)
    case Map(keys, values) => if keys == [] && values == [] then 0 else 1 + Max(Highest(keys), Highest(values))
    case _ => 0
  }

  function Highest(list: seq<Value>): nat { if list == [] then 0 else Max(Height(list[0]), Highest(list[1..])) }

  // ---- Every encoding is read --------------------------------------------------

  /** Bytes e lie at byte at. */
  predicate LiesAt(b: seq<Byte>, at: nat, e: seq<Byte>) {
    at + |e| <= |b| && forall i | 0 <= i < |e| :: b[at + i] == e[i]
  }

  lemma {:induction false} PartLies(b: seq<Byte>, at: nat, e: seq<Byte>, k: nat)
    requires LiesAt(b, at, e) && k <= |e|
    ensures LiesAt(b, at, e[..k]) && LiesAt(b, at + k, e[k..])
  {
    forall i | 0 <= i < |e[k..]|
      ensures b[at + k + i] == e[k..][i]
    {
      assert b[at + (k + i)] == e[k + i];
    }
  }

  lemma {:induction false} LiesSlice(b: seq<Byte>, at: nat, e: seq<Byte>)
    requires LiesAt(b, at, e)
    ensures b[at..at + |e|] == e
  {
  }

  lemma {:induction false} ReadsTagged(b: seq<Byte>, at: nat, h: seq<Byte>, tag: int, size: nat, n: nat)
    requires LiesAt(b, at, h) && Tagged(h, tag, size, n) && ShortHead(tag) == None && NumberBytes(tag) == size > 0
    ensures HeadAt(b, at) == Some((WideHead(tag, n), |h|))
  {
    TaggedIsBig(h, tag, size, n);
    assert b[at + 0] == h[0];
    PartLies(b, at, h, 1);
    LiesSlice(b, at + 1, h[1..]);
  }

  lemma {:induction false} ReadsShort(b: seq<Byte>, at: nat, h: seq<Byte>)
    requires |h| == 1 && LiesAt(b, at, h) && ShortHead(h[0]).Some?
    ensures HeadAt(b, at) == Some((ShortHead(h[0]).value, |h|))
  {
    assert b[at + 0] == h[0];
  }

  lemma {:induction false} IntIsBig(h: seq<Byte>, i: int, wrapped: bool)
    requires |h| > 1 && IntHead(h, i, wrapped) && -HALF64 <= i < HALF64
    ensures Tagged(h, h[0], |h| - 1, Big(h[1..])) && NumberBytes(h[0]) == |h| - 1 && ShortHead(h[0]) == None
    ensures WideHead(h[0], Big(h[1..])) == Whole(Int(i))
  {
    TaggedIsBig(h, h[0], |h| - 1, if h[0] >= 0xD0 && i < 0 then i + 2 * HalfOf(h[0]) else if i < 0 then i + 2 * HALF64
                else i);
  }

  /** What the sign bit of a signed tag's number is worth. */
  function HalfOf(tag: int): int {
    if tag == 0xD0 then HALF8 else if tag == 0xD1 then HALF16 else if tag == 0xD2 then HALF32 else HALF64
  }

  lemma {:induction false} ReadsInt(b: seq<Byte>, at: nat, h: seq<Byte>, i: int, wrapped: bool)
    requires LiesAt(b, at, h) && IntHead(h, i, wrapped) && -HALF64 <= i < HALF64
    ensures HeadAt(b, at) == Some((Whole(Int(i)), |h|))
  {
    if |h| == 1 {
      ReadsShort(b, at, h);
    } else {
      IntIsBig(h, i, wrapped);
      ReadsTagged(b, at, h, h[0], |h| - 1, Big(h[1..]));
    }
  }

  lemma {:induction false} ReadsText(b: seq<Byte>, at: nat, h: seq<Byte>, n: nat)
    requires LiesAt(b, at, h) && TextHead(h, n)
    ensures HeadAt(b, at) == Some((Text(n), |h|))
  {
    if |h| == 1 {
      ReadsShort(b, at, h);
    } else {
      ReadsTagged(b, at, h, h[0], |h| - 1, n);
    }
  }

  lemma {:induction false} ReadsItems(b: seq<Byte>, at: nat, h: seq<Byte>, n: nat)
    requires LiesAt(b, at, h) && ItemsHead(h, n)
    ensures HeadAt(b, at) == Some((Items(n), |h|)) && |h| > 0
  {
    if |h| == 1 {
      ReadsShort(b, at, h);
    } else {
      ReadsTagged(b, at, h, h[0], |h| - 1, n);
    }
  }

  lemma {:induction false} ReadsPairs(b: seq<Byte>, at: nat, h: seq<Byte>, n: nat)
    requires LiesAt(b, at, h) && PairsHead(h, n)
    ensures HeadAt(b, at) == Some((Pairs(n), |h|)) && |h| > 0
  {
    if |h| == 1 {
      ReadsShort(b, at, h);
    } else {
      ReadsTagged(b, at, h, h[0], |h| - 1, n);
    }
  }

  lemma {:induction false} BytesMakeText(b: seq<Byte>, at: nat, end: nat, depth: nat, k: nat, n: nat)
    requires at < end && depth <= DEEPEST && HeadAt(b, at) == Some((Text(n), k)) && at + k + n <= |b|
    ensures Parse(b, at, end, depth) == Some((Str(b[at + k..at + k + n]), at + k + n))
  {
  }

  lemma {:induction false} TextRoundTrip(s: seq<Byte>, e: seq<Byte>, k: nat, b: seq<Byte>, at: nat, end: nat,
                                         depth: nat)
    requires k + |s| == |e| && TextHead(e[..k], |s|) && e[k..] == s && LiesAt(b, at, e) && at + |e| <= end
             && depth <= DEEPEST
    ensures e != [] && Parse(b, at, end, depth) == Some((Str(s), at + |e|))
  {
    PartLies(b, at, e, k);
    LiesSlice(b, at + k, s);
    assert k > 0;
    ReadsText(b, at, e[..k], |s|);
    BytesMakeText(b, at, end, depth, k, |s|);
  }

  lemma {:induction false} ItemsMakeArray(b: seq<Byte>, at: nat, end: nat, depth: nat, k: nat, list: seq<Value>,
                                          next: nat)
    requires at < end && depth <= DEEPEST && HeadAt(b, at) == Some((Items(|list|), k))
             && ParseItems(b, at + k, end, depth + 1, |list|) == Some((list, next))
    ensures Parse(b, at, end, depth) == Some((Array(list), next))
  {
  }

  lemma {:induction false} PairsMakeMap(b: seq<Byte>, at: nat, end: nat, depth: nat, k: nat, keys: seq<Value>,
                                        values: seq<Value>, next: nat)
    requires at < end && depth <= DEEPEST && HeadAt(b, at) == Some((Pairs(|keys|), k))
             && ParsePairs(b, at + k, end, depth + 1, |keys|) == Some((keys, values, next))
    ensures Parse(b, at, end, depth) == Some((Map(keys, values), next))
  {
  }

  /**
   Every legal encoding of a value nested no deeper than the reader goes is read as that value, and the cursor is just
   past it.
   */
  lemma {:induction false} RoundTrip(v: Value, e: seq<Byte>, wrapped: bool, b: seq<Byte>, at: nat, end: nat, depth: nat)
    requires Encodes(v, e, wrapped) && LiesAt(b, at, e) && at + |e| <= end && depth + Height(v) <= 32
    ensures e != [] && Parse(b, at, end, depth) == Some((v, at + |e|))
    decreases Nodes(v), 0
  {
    match v
    case Int(i) => ReadsInt(b, at, e, i, wrapped);
    case Bool(_) => ReadsShort(b, at, e);
    case Nil => ReadsShort(b, at, e);
    case Str(s) => TextRoundTrip(s, e, |e| - |s|, b, at, end, depth);
    case Array(list) =>
      var k: nat :| IsArray(list, e, wrapped, k);
      ArrayRoundTrip(list, e, wrapped, b, at, end, depth, k);
    case Map(keys, values) =>
      var k: nat :| IsMap(keys, values, e, wrapped, k);
      MapRoundTrip(keys, values, e, wrapped, b, at, end, depth, k);
  }

  lemma {:induction false} ArrayRoundTrip(list: seq<Value>, e: seq<Byte>, wrapped: bool, b: seq<Byte>, at: nat,
                                          end: nat, depth: nat, k: nat)
    requires IsArray(list, e, wrapped, k) && LiesAt(b, at, e) && at + |e| <= end && depth <= DEEPEST
             && (list != [] ==> depth + 1 + Highest(list) <= DEEPEST)
    ensures e != [] && Parse(b, at, end, depth) == Some((Array(list), at + |e|))
    decreases AllNodes(list), 3
  {
    PartLies(b, at, e, k);
    ReadsItems(b, at, e[..k], |list|);
    ItemsRoundTrip(list, e[k..], wrapped, b, at + k, end, depth + 1);
    ItemsMakeArray(b, at, end, depth, k, list, at + |e|);
  }

  lemma {:induction false} MapRoundTrip(keys: seq<Value>, values: seq<Value>, e: seq<Byte>, wrapped: bool,
                                        b: seq<Byte>, at: nat, end: nat, depth: nat, k: nat)
    requires |keys| == |values| && IsMap(keys, values, e, wrapped, k) && LiesAt(b, at, e) && at + |e| <= end
             && depth <= DEEPEST
    requires keys != [] ==> depth + 1 + Highest(keys) <= DEEPEST && depth + 1 + Highest(values) <= DEEPEST
    ensures e != [] && Parse(b, at, end, depth) == Some((Map(keys, values), at + |e|))
    decreases AllNodes(keys) + AllNodes(values), 4
  {
    PartLies(b, at, e, k);
    ReadsPairs(b, at, e[..k], |keys|);
    PairsRoundTrip(keys, values, e[k..], wrapped, b, at + k, end, depth + 1);
    PairsMakeMap(b, at, end, depth, k, keys, values, at + |e|);
  }

  lemma {:induction false} OneMoreItem(b: seq<Byte>, at: nat, end: nat, depth: nat, list: seq<Value>, m: nat, next: nat)
    requires list != [] && Parse(b, at, end, depth) == Some((list[0], m))
             && ParseItems(b, m, end, depth, |list| - 1) == Some((list[1..], next))
    ensures ParseItems(b, at, end, depth, |list|) == Some((list, next))
  {
    assert [list[0]] + list[1..] == list;
  }

  lemma {:induction false} ItemsRoundTrip(list: seq<Value>, e: seq<Byte>, wrapped: bool, b: seq<Byte>, at: nat,
                                          end: nat, depth: nat)
    requires EncodesItems(list, e, wrapped) && LiesAt(b, at, e) && at + |e| <= end
             && (list != [] ==> depth + Highest(list) <= DEEPEST)
    ensures ParseItems(b, at, end, depth, |list|) == Some((list, at + |e|))
    decreases AllNodes(list), 2
  {
    if list != [] {
      var k: nat :| FirstItem(list, e, wrapped, k);
      FirstItemRoundTrip(list, e, wrapped, b, at, end, depth, k);
    }
  }

  lemma {:induction false} FirstItemRoundTrip(list: seq<Value>, e: seq<Byte>, wrapped: bool, b: seq<Byte>, at: nat,
                                              end: nat, depth: nat, k: nat)
    requires list != [] && FirstItem(list, e, wrapped, k) && LiesAt(b, at, e) && at + |e| <= end
             && depth + Highest(list) <= DEEPEST
    ensures ParseItems(b, at, end, depth, |list|) == Some((list, at + |e|))
    decreases AllNodes(list), 1
  {
    PartLies(b, at, e, k);
    RoundTrip(list[0], e[..k], wrapped, b, at, end, depth);
    ItemsRoundTrip(list[1..], e[k..], wrapped, b, at + k, end, depth);
    OneMoreItem(b, at, end, depth, list, at + k, at + |e|);
  }

  lemma {:induction false} OneMorePair(b: seq<Byte>, at: nat, end: nat, depth: nat, keys: seq<Value>,
                                       values: seq<Value>, m: nat, p: nat, next: nat)
    requires |keys| == |values| && keys != [] && Parse(b, at, end, depth) == Some((keys[0], m))
             && Parse(b, m, end, depth) == Some((values[0], p))
    requires ParsePairs(b, p, end, depth, |keys| - 1) == Some((keys[1..], values[1..], next))
    ensures ParsePairs(b, at, end, depth, |keys|) == Some((keys, values, next))
  {
    assert [keys[0]] + keys[1..] == keys && [values[0]] + values[1..] == values;
  }

  lemma {:induction false} MiddleLies(b: seq<Byte>, at: nat, e: seq<Byte>, k: nat, m: nat)
    requires LiesAt(b, at, e) && k <= m <= |e|
    ensures LiesAt(b, at, e[..k]) && LiesAt(b, at + k, e[k..m]) && LiesAt(b, at + m, e[m..])
  {
    PartLies(b, at, e, k);
    PartLies(b, at, e, m);
    PartLies(b, at + k, e[k..], m - k);
    assert e[k..][..m - k] == e[k..m];
  }

  lemma {:induction false} PairsRoundTrip(keys: seq<Value>, values: seq<Value>, e: seq<Byte>, wrapped: bool,
                                          b: seq<Byte>, at: nat, end: nat, depth: nat)
    requires |keys| == |values| && EncodesPairs(keys, values, e, wrapped) && LiesAt(b, at, e) && at + |e| <= end
    requires keys != [] ==> depth + Highest(keys) <= DEEPEST && depth + Highest(values) <= DEEPEST
    ensures ParsePairs(b, at, end, depth, |keys|) == Some((keys, values, at + |e|))
    decreases AllNodes(keys) + AllNodes(values), 3
  {
    if keys != [] {
      var k: nat, m: nat :| FirstPair(keys, values, e, wrapped, k, m);
      FirstPairRoundTrip(keys, values, e, wrapped, b, at, end, depth, k, m);
    }
  }

  lemma {:induction false} FirstPairRoundTrip(keys: seq<Value>, values: seq<Value>, e: seq<Byte>, wrapped: bool,
                                              b: seq<Byte>, at: nat, end: nat, depth: nat, k: nat, m: nat)
    requires |keys| == |values| && keys != [] && FirstPair(keys, values, e, wrapped, k, m) && LiesAt(b, at, e)
             && at + |e| <= end
    requires depth + Highest(keys) <= DEEPEST && depth + Highest(values) <= DEEPEST
    ensures ParsePairs(b, at, end, depth, |keys|) == Some((keys, values, at + |e|))
    decreases AllNodes(keys) + AllNodes(values), 2
  {
    MiddleLies(b, at, e, k, m);
    PairsRoundTrip(keys[1..], values[1..], e[m..], wrapped, b, at + m, end, depth);
    PairInFront(keys, values, e[..k], e[k..m], wrapped, b, at, end, depth, at + |e|);
  }

  lemma {:induction false} PairInFront(keys: seq<Value>, values: seq<Value>, d: seq<Byte>, e: seq<Byte>, wrapped: bool,
                                       b: seq<Byte>, at: nat, end: nat, depth: nat, next: nat)
    requires |keys| == |values| && keys != [] && Encodes(keys[0], d, wrapped) && Encodes(values[0], e, wrapped)
             && LiesAt(b, at, d) && LiesAt(b, at + |d|, e) && at + |d| + |e| <= end
    requires depth + Height(keys[0]) <= DEEPEST && depth + Height(values[0]) <= DEEPEST
    requires ParsePairs(b, at + |d| + |e|, end, depth, |keys| - 1) == Some((keys[1..], values[1..], next))
    ensures ParsePairs(b, at, end, depth, |keys|) == Some((keys, values, next))
    decreases Nodes(keys[0]) + Nodes(values[0]), 1
  {
    RoundTrip(keys[0], d, wrapped, b, at, end, depth);
    ValueInFront(keys, values, e, wrapped, b, at, at + |d|, end, depth, next);
  }

  lemma {:induction false} ValueInFront(keys: seq<Value>, values: seq<Value>, e: seq<Byte>, wrapped: bool,
                                        b: seq<Byte>, at: nat, m: nat, end: nat, depth: nat, next: nat)
    requires |keys| == |values| && keys != [] && Parse(b, at, end, depth) == Some((keys[0], m))
             && Encodes(values[0], e, wrapped) && LiesAt(b, m, e) && m + |e| <= end
    requires depth + Height(values[0]) <= DEEPEST
             && ParsePairs(b, m + |e|, end, depth, |keys| - 1) == Some((keys[1..], values[1..], next))
    ensures ParsePairs(b, at, end, depth, |keys|) == Some((keys, values, next))
    decreases Nodes(values[0]), 1
  {
    RoundTrip(values[0], e, wrapped, b, m, end, depth);
    OneMorePair(b, at, end, depth, keys, values, m, m + |e|, next);
  }

  // ---- Values cost bytes -------------------------------------------------------

  lemma {:induction false} AllNodesAdds(v: Value, list: seq<Value>)
    ensures AllNodes([v] + list) == Nodes(v) + AllNodes(list)
  {
    assert ([v] + list)[1..] == list;
  }

  /**
   Whatever the bytes and whatever counts they claim, a value read has no more values in it than the bytes it took.
   */
  lemma {:induction false} ValuesCostBytes(b: seq<Byte>, at: nat, end: nat, depth: nat)
    requires Parse(b, at, end, depth).Some?
    ensures Nodes(Parse(b, at, end, depth).value.0) <= Parse(b, at, end, depth).value.1 - at
    decreases Left(at, end), 0
  {
    HeadIsShort(b, at);
    var (h, k) := HeadAt(b, at).value;
    match h
    case Items(n) => ItemsCostBytes(b, at + k, end, depth + 1, n);
    case Pairs(n) => PairsCostBytes(b, at + k, end, depth + 1, n);
    case _ =>
  }

  lemma {:induction false} ItemsCostBytes(b: seq<Byte>, at: nat, end: nat, depth: nat, n: nat)
    requires ParseItems(b, at, end, depth, n).Some?
    ensures AllNodes(ParseItems(b, at, end, depth, n).value.0) <= ParseItems(b, at, end, depth, n).value.1 - at
    decreases Left(at, end), 1, n
  {
    if n > 0 {
      var p := Parse(b, at, end, depth).value;
      ValuesCostBytes(b, at, end, depth);
      ItemsCostBytes(b, p.1, end, depth, n - 1);
      AllNodesAdds(p.0, ParseItems(b, p.1, end, depth, n - 1).value.0);
    }
  }

  lemma {:induction false} PairsCostBytes(b: seq<Byte>, at: nat, end: nat, depth: nat, n: nat)
    requires ParsePairs(b, at, end, depth, n).Some?
    ensures var r := ParsePairs(b, at, end, depth, n).value; AllNodes(r.0) + AllNodes(r.1) <= r.2 - at
    decreases Left(at, end), 1, n
  {
    if n > 0 {
      var k := Parse(b, at, end, depth).value;
      var v := Parse(b, k.1, end, depth).value;
      ValuesCostBytes(b, at, end, depth);
      ValuesCostBytes(b, k.1, end, depth);
      PairsCostBytes(b, v.1, end, depth, n - 1);
      var rest := ParsePairs(b, v.1, end, depth, n - 1).value;
      AllNodesAdds(k.0, rest.0);
      AllNodesAdds(v.0, rest.1);
    }
  }

  // ---- Nothing but encodings is read -------------------------------------------

  lemma {:induction false} BigLimits(s: seq<Byte>)
    ensures |s| == 1 ==> Big(s) < 2 * HALF8
    ensures |s| == 2 ==> Big(s) < 2 * HALF16
    ensures |s| == 4 ==> Big(s) < 2 * HALF32
    ensures |s| == 8 ==> Big(s) < 2 * HALF64
  {
    BigDigits(s);
    assert Pow256(1) == 2 * HALF8 && Pow256(2) == 2 * HALF16;
    assert Pow256(4) == 2 * HALF32;
    assert Pow256(8) == 2 * HALF64;
  }

  /** The bytes e are a head the family of h allows. */
  ghost predicate HeadEncodes(h: Head, e: seq<Byte>) {
    match h
    case Whole(v) => Encodes(v, e, true) && Height(v) == 0
    case Text(n) => TextHead(e, n)
    case Items(n) => ItemsHead(e, n)
    case Pairs(n) => PairsHead(e, n)
  }

  lemma {:induction false} ShortEncodes(e: seq<Byte>)
    requires |e| == 1 && ShortHead(e[0]).Some?
    ensures HeadEncodes(ShortHead(e[0]).value, e)
  {
  }

  lemma {:induction false} WideEncodes(e: seq<Byte>)
    requires |e| > 1 && ShortHead(e[0]).None? && NumberBytes(e[0]) == |e| - 1
    ensures HeadEncodes(WideHead(e[0], Big(e[1..])), e)
  {
    BigLimits(e[1..]);
    TaggedIsBig(e, e[0], |e| - 1, Big(e[1..]));
  }

  /** The bytes of a head are one its family allows. */
  lemma {:induction false} HeadIsEncoding(b: seq<Byte>, at: nat)
    requires HeadAt(b, at).Some?
    ensures var (h, k) := HeadAt(b, at).value; at + k <= |b| && HeadEncodes(h, b[at..at + k])
  {
    var (h, k) := HeadAt(b, at).value;
    var e := b[at..at + k];
    if k > 1 {
      assert e[1..] == b[at + 1..at + k];
      WideEncodes(e);
    } else {
      ShortEncodes(e);
    }
  }

  /**
   Whatever is read is what the bytes encode: any value returned, over any bytes, has in those bytes one of its
   encodings, a uint 64 past the int64 range being taken modulo 2^64, and nests no deeper than the limit.
   */
  lemma {:induction false} ReadsOnlyEncodings(b: seq<Byte>, at: nat, end: nat, depth: nat)
    requires Parse(b, at, end, depth).Some?
    ensures ReadIsEncoding(b, at, end, depth)
    decreases Left(at, end), 0, 1
  {
    HeadIsShort(b, at);
    var (h, k) := HeadAt(b, at).value;
    match h
    case Whole(_) => ScalarIsEncoding(b, at, end, depth);
    case Text(n) => ReadTextIsEncoding(b, at, end, depth, k, n);
    case Items(n) => ReadArrayIsEncoding(b, at, end, depth, k, n);
    case Pairs(n) => ReadMapIsEncoding(b, at, end, depth, k, n);
  }

  ghost predicate ReadIsEncoding(b: seq<Byte>, at: nat, end: nat, depth: nat) {
    Parse(b, at, end, depth).Some? && var (v, next) := Parse(b, at, end, depth).value;
      Encodes(v, b[at..next], true) && depth + Height(v) <= 32
  }

  lemma {:induction false} ScalarIsEncoding(b: seq<Byte>, at: nat, end: nat, depth: nat)
    requires Parse(b, at, end, depth).Some? && HeadAt(b, at).value.0.Whole?
    ensures ReadIsEncoding(b, at, end, depth)
  {
    HeadIsEncoding(b, at);
  }

  lemma {:induction false} ReadTextIsEncoding(b: seq<Byte>, at: nat, end: nat, depth: nat, k: nat, n: nat)
    requires at < end && depth <= DEEPEST && HeadAt(b, at) == Some((Text(n), k)) && at + k + n <= |b|
    ensures ReadIsEncoding(b, at, end, depth)
  {
    HeadIsEncoding(b, at);
    Cut(b, at, at + k, at + k + n);
    TextIsEncoding(b[at..at + k + n], k, b[at + k..at + k + n]);
    BytesMakeText(b, at, end, depth, k, n);
  }

  lemma {:induction false} ReadArrayIsEncoding(b: seq<Byte>, at: nat, end: nat, depth: nat, k: nat, n: nat)
    requires at < end && depth <= DEEPEST && at + k <= |b| && HeadAt(b, at) == Some((Items(n), k))
             && ParseItems(b, at + k, end, depth + 1, n).Some?
    requires k > 0
    ensures ReadIsEncoding(b, at, end, depth)
    decreases Left(at, end), 0, 0
  {
    ItemsAreEncoded(b, at + k, end, depth + 1, n);
    var (list, next) := ParseItems(b, at + k, end, depth + 1, n).value;
    HeadIsEncoding(b, at);
    ItemsMakeArray(b, at, end, depth, k, list, next);
    ArrayIsEncoding(b, at, k, next, list);
  }

  lemma {:induction false} ReadMapIsEncoding(b: seq<Byte>, at: nat, end: nat, depth: nat, k: nat, n: nat)
    requires at < end && depth <= DEEPEST && at + k <= |b| && HeadAt(b, at) == Some((Pairs(n), k))
             && ParsePairs(b, at + k, end, depth + 1, n).Some?
    requires k > 0
    ensures ReadIsEncoding(b, at, end, depth)
    decreases Left(at, end), 0, 0
  {
    PairsAreEncoded(b, at + k, end, depth + 1, n);
    var (keys, values, next) := ParsePairs(b, at + k, end, depth + 1, n).value;
    HeadIsEncoding(b, at);
    PairsMakeMap(b, at, end, depth, k, keys, values, next);
    MapIsEncoding(b, at, k, next, keys, values);
  }

  lemma {:induction false} Cut(b: seq<Byte>, at: nat, m: nat, next: nat)
    requires at <= m <= next <= |b|
    ensures b[at..next][..m - at] == b[at..m] && b[at..next][m - at..] == b[m..next]
  {
  }

  lemma {:induction false} TextIsEncoding(e: seq<Byte>, k: nat, s: seq<Byte>)
    requires k + |s| == |e| && TextHead(e[..k], |s|) && e[k..] == s
    ensures Encodes(Str(s), e, true)
  {
    assert |e| - |s| == k;
  }

  lemma {:induction false} ArrayIsEncoding(b: seq<Byte>, at: nat, k: nat, next: nat, list: seq<Value>)
    requires at + k <= next <= |b| && ItemsHead(b[at..at + k], |list|) && EncodesItems(list, b[at + k..next], true)
    ensures Encodes(Array(list), b[at..next], true)
  {
    Cut(b, at, at + k, next);
    assert IsArray(list, b[at..next], true, k);
  }

  lemma {:induction false} MapIsEncoding(b: seq<Byte>, at: nat, k: nat, next: nat, keys: seq<Value>, values: seq<Value>)
    requires |keys| == |values| && at + k <= next <= |b| && PairsHead(b[at..at + k], |keys|)
             && EncodesPairs(keys, values, b[at + k..next], true)
    ensures Encodes(Map(keys, values), b[at..next], true)
  {
    Cut(b, at, at + k, next);
    assert IsMap(keys, values, b[at..next], true, k);
  }

  lemma {:induction false} ItemsAreEncoded(b: seq<Byte>, at: nat, end: nat, depth: nat, n: nat)
    requires at <= |b| && ParseItems(b, at, end, depth, n).Some?
    ensures var (list, next) := ParseItems(b, at, end, depth, n).value;
            EncodesItems(list, b[at..next], true) && (list != [] ==> depth + Highest(list) <= DEEPEST)
    decreases Left(at, end), 1, n
  {
    if n > 0 {
      var (v, m) := Parse(b, at, end, depth).value;
      var (rest, next) := ParseItems(b, m, end, depth, n - 1).value;
      ReadsOnlyEncodings(b, at, end, depth);
      ItemsAreEncoded(b, m, end, depth, n - 1);
      ItemIsFirst(b, at, m, next, v, rest);
    }
  }

  lemma {:induction false} ItemIsFirst(b: seq<Byte>, at: nat, m: nat, next: nat, v: Value, rest: seq<Value>)
    requires at <= m <= next <= |b| && Encodes(v, b[at..m], true) && EncodesItems(rest, b[m..next], true)
    ensures EncodesItems([v] + rest, b[at..next], true) && Highest([v] + rest) == Max(Height(v), Highest(rest))
  {
    Cut(b, at, m, next);
    assert ([v] + rest)[1..] == rest;
    assert FirstItem([v] + rest, b[at..next], true, m - at);
  }

  /** The bytes from at to next encode the pairs, and no key or value nests past the limit. */
  ghost predicate PairsRead(b: seq<Byte>, at: nat, depth: nat, keys: seq<Value>, values: seq<Value>, next: nat) {
    && |keys| == |values| && at <= next <= |b| && EncodesPairs(keys, values, b[at..next], true)
    && (keys != [] ==> depth + Highest(keys) <= DEEPEST && depth + Highest(values) <= DEEPEST)
  }

  /** What is read of a list of pairs is a first pair and a list of the others. */
  lemma {:induction false} PairsSplit(b: seq<Byte>, at: nat, end: nat, depth: nat, n: nat)
    requires n > 0 && ParsePairs(b, at, end, depth, n).Some?
    ensures ParsePair(b, at, end, depth).Some?
    ensures var (k, v, p) := ParsePair(b, at, end, depth).value;
            && ParsePairs(b, p, end, depth, n - 1).Some?
            && var (ks, vs, next) := ParsePairs(b, p, end, depth, n - 1).value;
               ParsePairs(b, at, end, depth, n) == Some(([k] + ks, [v] + vs, next))
  {
  }

  lemma {:induction false} PairsAreEncoded(b: seq<Byte>, at: nat, end: nat, depth: nat, n: nat)
    requires at <= |b| && ParsePairs(b, at, end, depth, n).Some?
    ensures var (keys, values, next) := ParsePairs(b, at, end, depth, n).value;
            PairsRead(b, at, depth, keys, values, next)
    decreases Left(at, end), 2, n
  {
    if n > 0 {
      PairsSplit(b, at, end, depth, n);
      FirstPairIsEncoded(b, at, end, depth, n);
    }
  }

  lemma {:induction false} FirstPairIsEncoded(b: seq<Byte>, at: nat, end: nat, depth: nat, n: nat)
    requires n > 0 && at <= |b| && ParsePair(b, at, end, depth).Some?
             && ParsePairs(b, ParsePair(b, at, end, depth).value.2, end, depth, n - 1).Some?
    ensures var (k, v, p) := ParsePair(b, at, end, depth).value;
            var (ks, vs, next) := ParsePairs(b, p, end, depth, n - 1).value;
            PairsRead(b, at, depth, [k] + ks, [v] + vs, next)
    decreases Left(at, end), 2, n, 0
  {
    var (k, v, p) := ParsePair(b, at, end, depth).value;
    var (ks, vs, next) := ParsePairs(b, p, end, depth, n - 1).value;
    var m := PairIsEncoded(b, at, end, depth);
    PairsAreEncoded(b, p, end, depth, n - 1);
    PairIsFirst(b, at, m, p, next, depth, k, v, ks, vs);
  }

  lemma {:induction false} PairIsEncoded(b: seq<Byte>, at: nat, end: nat, depth: nat) returns (m: nat)
    requires ParsePair(b, at, end, depth).Some?
    ensures var (k, v, p) := ParsePair(b, at, end, depth).value;
            && at <= m <= p <= |b| && Encodes(k, b[at..m], true) && Encodes(v, b[m..p], true)
            && depth + Height(k) <= DEEPEST && depth + Height(v) <= DEEPEST
    decreases Left(at, end), 1, 0
  {
    m := Parse(b, at, end, depth).value.1;
    ReadsOnlyEncodings(b, at, end, depth);
    ReadsOnlyEncodings(b, m, end, depth);
  }

  lemma {:induction false} HighestAdds(v: Value, list: seq<Value>)
    ensures Highest([v] + list) == Max(Height(v), Highest(list))
  {
    assert ([v] + list)[1..] == list;
  }

  lemma {:induction false} PairIsFirst(b: seq<Byte>, at: nat, m: nat, p: nat, next: nat, depth: nat, k: Value,
                                       v: Value, ks: seq<Value>, vs: seq<Value>)
    requires at <= m <= p && PairsRead(b, p, depth, ks, vs, next) && Encodes(k, b[at..m], true)
             && Encodes(v, b[m..p], true)
    requires depth + Height(k) <= DEEPEST && depth + Height(v) <= DEEPEST
    ensures PairsRead(b, at, depth, [k] + ks, [v] + vs, next)
  {
    PairEncodes(b, at, m, p, next, k, v, ks, vs);
    HighestAdds(k, ks);
    HighestAdds(v, vs);
  }

  lemma {:induction false} PairEncodes(b: seq<Byte>, at: nat, m: nat, p: nat, next: nat, k: Value, v: Value,
                                       ks: seq<Value>, vs: seq<Value>)
    requires |ks| == |vs| && at <= m <= p <= next <= |b| && Encodes(k, b[at..m], true) && Encodes(v, b[m..p], true)
             && EncodesPairs(ks, vs, b[p..next], true)
    ensures EncodesPairs([k] + ks, [v] + vs, b[at..next], true)
  {
    Cut(b, at, m, next);
    Cut(b, at, p, next);
    assert b[at..next][m - at..p - at] == b[m..p];
    assert ([k] + ks)[1..] == ks && ([v] + vs)[1..] == vs;
    assert FirstPair([k] + ks, [v] + vs, b[at..next], true, m - at, p - at);
  }

  /** The one departure from the specification: a uint 64 is read as its number exactly where that fits int64_t. */
  lemma {:induction false} Uint64Reads(b: seq<Byte>, at: nat, end: nat, depth: nat, n: nat)
    requires depth <= 32 && at < end && at + 9 <= |b| && Tagged(b[at..at + 9], 0xCF, 8, n)
    ensures Parse(b, at, end, depth) == Some((Int(n), at + 9)) <==> n < 0x8000_0000_0000_0000
  {
    LiesThere(b, at, at + 9);
    ReadsTagged(b, at, b[at..at + 9], 0xCF, 8, n);
  }

  lemma {:induction false} LiesThere(b: seq<Byte>, at: nat, next: nat)
    requires at <= next <= |b|
    ensures LiesAt(b, at, b[at..next])
  {
  }

  /** The smallest uint 64 past the int64 range: the number 2^63 by the specification, read as -2^63. */
  lemma {:induction false} Uint64Wraps()
    ensures var e: seq<Byte> := [0xCF, 0x80, 0, 0, 0, 0, 0, 0, 0];
            && Parse(e, 0, 9, 0) == Some((Int(-HALF64), 9)) && Tagged(e, 0xCF, 8, HALF64)
            && !Encodes(Int(-HALF64), e, false)
  {
    var e: seq<Byte> := [0xCF, 0x80, 0, 0, 0, 0, 0, 0, 0];
    HalfDigits();
    assert e[1..] == [0x80, 0, 0, 0, 0, 0, 0, 0];
    assert Tagged(e, 0xCF, 8, HALF64);
    ReadsTagged(e, 0, e, 0xCF, 8, HALF64);
  }

  lemma {:induction false} HalfDigits()
    ensures HALF64 < Pow256(8) && Digit(HALF64, 7) == 0x80 && forall i | 0 <= i < 7 :: Digit(HALF64, i) == 0
  {
    assert Pow256(8) == 2 * HALF64;
    assert HALF64 / 256 / 256 / 256 / 256 == HALF32;
    assert Digit(HALF64, 0) == 0 && Digit(HALF64, 1) == 0 && Digit(HALF64, 2) == 0 && Digit(HALF64, 3) == 0;
    assert Digit(HALF32, 0) == 0 && Digit(HALF32, 1) == 0 && Digit(HALF32, 2) == 0 && Digit(HALF32, 3) == 0x80;
    assert Digit(HALF64, 4) == Digit(HALF32, 0) && Digit(HALF64, 5) == Digit(HALF32, 1);
    assert Digit(HALF64, 6) == Digit(HALF32, 2) && Digit(HALF64, 7) == Digit(HALF32, 3);
  }
}
