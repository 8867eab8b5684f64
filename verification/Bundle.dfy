/**
 Compressed offload bundles: the inflated bundle read whole (zlib), or a piece at a time as the decompressor gives it
 (zstd), keeping only the code objects that are wanted. The decompressor is any sequence of pieces, and what is wanted
 any choice of entries.
 */
module Bundle {
  import opened Basics

  datatype Entry = Entry(triple: seq<Byte>, offset: nat, size: nat)

  /** The bytes of a text of one-byte characters. */
  function Ascii(text: string): (r: seq<Byte>)
    ensures |r| == |text|
  {
    seq(|text|, i requires 0 <= i < |text| => if text[i] as int < 256 then text[i] as int else 0)
  }

  const MAGIC: seq<Byte> := Ascii("__CLANG_OFFLOAD_BUNDLE__")

  /** A little-endian number. */
  function Little(b: seq<Byte>): nat { if b == [] then 0 else b[0] + 256 * Little(b[1..]) }

  function U64(b: seq<Byte>, at: nat): nat
    requires at + 8 <= |b|
  {
    Little(b[at..at + 8])
  }

  const WORD64: nat := 0x1_0000_0000_0000_0000

  lemma {:induction false} LittleDigits(s: seq<Byte>)
    ensures LowFirst(s, Little(s))
  {
    if s != [] {
      LittleDigits(s[1..]);
      assert Little(s) / 256 == Little(s[1..]);
      forall i | 0 <= i < |s|
        ensures s[i] == Digit(Little(s), i)
      {
        if i > 0 {
          assert s[1..][i - 1] == Digit(Little(s[1..]), i - 1);
        }
      }
    }
  }

  /** A field is read as the number whose digits its bytes are, the lowest first. */
  lemma {:induction false} LittleReads(s: seq<Byte>, n: nat)
    ensures LowFirst(s, n) <==> n == Little(s)
  {
    LittleDigits(s);
    if LowFirst(s, n) {
      forall i | 0 <= i < |s|
        ensures Digit(Little(s), i) == Digit(n, i)
      {
        assert s[i] == Digit(n, i);
      }
      DigitsAgree(Little(s), n, |s|);
    }
  }

  // ---- The table of contents ---------------------------------------------------

  /** count entries from byte at on, or None where the bytes do not reach their end. */
  function EntriesFrom(b: seq<Byte>, at: nat, count: nat): Option<seq<Entry>>
    decreases count
  {
    if count == 0 then Some([])
    else if at + 24 > |b| || at + 24 + U64(b, at + 16) > |b| then None
    else
      var length := U64(b, at + 16);
      match EntriesFrom(b, at + 24 + length, count - 1)
      case None => None
      case Some(rest) => Some([Entry(b[at + 24..at + 24 + length], U64(b, at), U64(b, at + 8))] + rest)
  }

  function Entries(b: seq<Byte>): Option<seq<Entry>> { if |b| < 32 then None else EntriesFrom(b, 32, U64(b, 24)) }

  lemma {:induction false} PrefixReads(b: seq<Byte>, h: nat, at: nat)
    requires h <= |b| && at + 8 <= h
    ensures U64(b[..h], at) == U64(b, at)
  {
    assert b[..h][at..at + 8] == b[at..at + 8];
  }

  /** What the start of a bundle says, the whole of it says: a table read early is the table. */
  lemma {:induction false} EntriesFromStable(b: seq<Byte>, h: nat, at: nat, count: nat)
    requires h <= |b| && EntriesFrom(b[..h], at, count).Some?
    ensures EntriesFrom(b, at, count) == EntriesFrom(b[..h], at, count)
    decreases count
  {
    if count > 0 {
      PrefixReads(b, h, at);
      PrefixReads(b, h, at + 8);
      PrefixReads(b, h, at + 16);
      var length := U64(b, at + 16);
      assert b[..h][at + 24..at + 24 + length] == b[at + 24..at + 24 + length];
      EntriesFromStable(b, h, at + 24 + length, count - 1);
    }
  }

  lemma {:induction false} EntriesStable(b: seq<Byte>, h: nat)
    requires h <= |b| && Entries(b[..h]).Some?
    ensures Entries(b) == Entries(b[..h])
  {
    PrefixReads(b, h, 24);
    EntriesFromStable(b, h, 32, U64(b, 24));
  }

  // ---- The table as clang writes it --------------------------------------------

  /** A 64-bit number, its lowest byte first. */
  function Field64(n: nat): (r: seq<Byte>)
    ensures |r| == 8
  {
    seq(8, i requires 0 <= i < 8 => Digit(n, i))
  }

  /** Offset, size, the triple's length and the triple. */
  function EntryBytes(e: Entry): seq<Byte> { Field64(e.offset) + Field64(e.size) + Field64(|e.triple|) + e.triple }

  function TableBytes(entries: seq<Entry>): seq<Byte> {
    if entries == [] then [] else EntryBytes(entries[0]) + TableBytes(entries[1..])
  }

  predicate EntryFits(e: Entry) { e.offset < WORD64 && e.size < WORD64 && |e.triple| < WORD64 }

  /** The bytes s are in b from byte at on. */
  predicate Lies(b: seq<Byte>, at: nat, s: seq<Byte>) { at + |s| <= |b| && b[at..at + |s|] == s }

  lemma {:induction false} LiesInParts(b: seq<Byte>, at: nat, s: seq<Byte>, t: seq<Byte>)
    ensures Lies(b, at, s + t) <==> Lies(b, at, s) && Lies(b, at + |s|, t)
  {
    if at + |s| + |t| <= |b| {
      var all := b[at..at + |s| + |t|];
      assert all[..|s|] == b[at..at + |s|] && all[|s|..] == b[at + |s|..at + |s| + |t|];
      assert (s + t)[..|s|] == s && (s + t)[|s|..] == t;
      assert all == all[..|s|] + all[|s|..];
    }
  }

  lemma {:induction false} FieldIsBelow(b: seq<Byte>, at: nat)
    requires at + 8 <= |b|
    ensures U64(b, at) < WORD64
  {
    LittleDigits(b[at..at + 8]);
    assert Pow256(8) == WORD64;
  }

  lemma {:induction false} FieldLies(b: seq<Byte>, at: nat, n: nat)
    requires n < WORD64
    ensures Lies(b, at, Field64(n)) <==> at + 8 <= |b| && U64(b, at) == n
  {
    assert Pow256(8) == WORD64;
    if at + 8 <= |b| {
      LittleReads(b[at..at + 8], n);
    }
  }

  lemma {:induction false} EntryLies(b: seq<Byte>, at: nat, e: Entry)
    requires EntryFits(e)
    ensures Lies(b, at, EntryBytes(e)) <==>
              && at + 24 <= |b| && U64(b, at) == e.offset && U64(b, at + 8) == e.size && U64(b, at + 16) == |e.triple|
              && Lies(b, at + 24, e.triple)
  {
    var x, y, z := Field64(e.offset), Field64(e.size), Field64(|e.triple|);
    LiesInParts(b, at, x + y + z, e.triple);
    LiesInParts(b, at, x + y, z);
    LiesInParts(b, at, x, y);
    FieldLies(b, at, e.offset);
    FieldLies(b, at + 8, e.size);
    FieldLies(b, at + 16, |e.triple|);
  }

  predicate AllFit(entries: seq<Entry>) { forall i | 0 <= i < |entries| :: EntryFits(entries[i]) }

  /** Entries that were written from a byte on are read there. */
  lemma {:induction false} WrittenIsRead(b: seq<Byte>, at: nat, entries: seq<Entry>)
    requires AllFit(entries) && Lies(b, at, TableBytes(entries))
    ensures EntriesFrom(b, at, |entries|) == Some(entries)
    decreases |entries|
  {
    if entries != [] {
      var e, rest := entries[0], entries[1..];
      LiesInParts(b, at, EntryBytes(e), TableBytes(rest));
      WrittenIsRead(b, at + |EntryBytes(e)|, rest);
      FirstRead(b, at, e, rest);
      assert entries == [e] + rest;
    }
  }

  lemma {:induction false} FirstRead(b: seq<Byte>, at: nat, e: Entry, rest: seq<Entry>)
    requires EntryFits(e) && Lies(b, at, EntryBytes(e))
             && EntriesFrom(b, at + |EntryBytes(e)|, |rest|) == Some(rest)
    ensures EntriesFrom(b, at, 1 + |rest|) == Some([e] + rest)
  {
    EntryLies(b, at, e);
  }

  /** And entries that are read from a byte on were written there. */
  lemma {:induction false} ReadIsWritten(b: seq<Byte>, at: nat, count: nat)
    requires at <= |b| && EntriesFrom(b, at, count).Some?
    ensures var entries := EntriesFrom(b, at, count).value;
            |entries| == count && AllFit(entries) && Lies(b, at, TableBytes(entries))
    decreases count
  {
    if count > 0 {
      var length := U64(b, at + 16);
      var e := Entry(b[at + 24..at + 24 + length], U64(b, at), U64(b, at + 8));
      EntryIsWritten(b, at, e);
      ReadIsWritten(b, at + 24 + length, count - 1);
      FirstWritten(b, at, e, EntriesFrom(b, at + 24 + length, count - 1).value);
    }
  }

  lemma {:induction false} EntryIsWritten(b: seq<Byte>, at: nat, e: Entry)
    requires at + 24 <= |b| && at + 24 + U64(b, at + 16) <= |b|
    requires e == Entry(b[at + 24..at + 24 + U64(b, at + 16)], U64(b, at), U64(b, at + 8))
    ensures EntryFits(e) && Lies(b, at, EntryBytes(e))
  {
    FieldIsBelow(b, at);
    FieldIsBelow(b, at + 8);
    FieldIsBelow(b, at + 16);
    EntryLies(b, at, e);
  }

  lemma {:induction false} FirstWritten(b: seq<Byte>, at: nat, e: Entry, rest: seq<Entry>)
    requires EntryFits(e) && AllFit(rest) && Lies(b, at, EntryBytes(e))
             && Lies(b, at + |EntryBytes(e)|, TableBytes(rest))
    ensures AllFit([e] + rest) && Lies(b, at, TableBytes([e] + rest))
  {
    LiesInParts(b, at, EntryBytes(e), TableBytes(rest));
    assert ([e] + rest)[1..] == rest;
  }

  /**
   The bytes are a header of 24 bytes, the number of entries and the entries, as clang writes them, and whatever
   follows.
   */
  predicate IsTable(b: seq<Byte>, entries: seq<Entry>) {
    && |entries| < WORD64 && AllFit(entries)
    && Lies(b, 24, Field64(|entries|)) && Lies(b, 32, TableBytes(entries))
  }

  /** The table read is the table written: every list of entries comes back, and nothing else does. */
  lemma {:induction false} EntriesAreWritten(b: seq<Byte>, entries: seq<Entry>)
    ensures Entries(b) == Some(entries) <==> IsTable(b, entries)
  {
    if IsTable(b, entries) {
      FieldLies(b, 24, |entries|);
      WrittenIsRead(b, 32, entries);
    }
    if Entries(b) == Some(entries) {
      ReadIsWritten(b, 32, U64(b, 24));
      FieldIsBelow(b, 24);
      FieldLies(b, 24, |entries|);
    }
  }

  /** Entries in front of what is still to be read. */
  function InFront(out: seq<Entry>, rest: Option<seq<Entry>>): Option<seq<Entry>> {
    if rest.None? then None else Some(out + rest.value)
  }

  /** read_entries. */
  method ReadEntries(b: seq<Byte>) returns (ok: bool, out: seq<Entry>)
    ensures Entries(b) == if ok then Some(out) else None
  {
    out := [];
    if |b| < 32 {
      return false, out;
    }
    var count := U64(b, 24);
    var at: nat := 32;
    var i := 0;
    NothingInFront(EntriesFrom(b, at, count));
    while i < count
      invariant 0 <= i <= count
      invariant Entries(b) == InFront(out, EntriesFrom(b, at, count - i))
    {
      if at + 24 > |b| {
        return false, out;
      }
      var length := U64(b, at + 16);
      if at + 24 + length > |b| {
        return false, out;
      }
      NextEntry(b, at, count - i, out);
      out := out + [Entry(b[at + 24..at + 24 + length], U64(b, at), U64(b, at + 8))];
      at := at + 24 + length;
      i := i + 1;
    }
    assert out + [] == out;
    return true, out;
  }

  lemma {:induction false} NothingInFront(rest: Option<seq<Entry>>)
    ensures InFront([], rest) == rest
  {
    if rest.Some? {
      assert [] + rest.value == rest.value;
    }
  }

  lemma {:induction false} NextEntry(b: seq<Byte>, at: nat, count: nat, out: seq<Entry>)
    requires count > 0 && at + 24 <= |b| && at + 24 + U64(b, at + 16) <= |b|
    ensures var length := U64(b, at + 16);
            InFront(out, EntriesFrom(b, at, count))
              == InFront(out + [Entry(b[at + 24..at + 24 + length], U64(b, at), U64(b, at + 8))],
                         EntriesFrom(b, at + 24 + length, count - 1))
  {
    var length := U64(b, at + 16);
    var e, rest := Entry(b[at + 24..at + 24 + length], U64(b, at), U64(b, at + 8)),
        EntriesFrom(b, at + 24 + length, count - 1);
    if rest.Some? {
      assert out + ([e] + rest.value) == out + [e] + rest.value;
    }
  }

  // ---- Where the kept code goes ------------------------------------------------

  /** The bytes of the wanted entries among the first n. */
  function BytesBefore(entries: seq<Entry>, wanted: Entry -> bool, n: nat): nat
    requires n <= |entries|
  {
    if n == 0 then 0
    else BytesBefore(entries, wanted, n - 1) + (if wanted(entries[n - 1]) then entries[n - 1].size else 0)
  }

  /** Each wanted entry's place is after those before it; an entry that is not wanted has none. */
  function Placed(entries: seq<Entry>, wanted: Entry -> bool, i: nat): Option<nat>
    requires i < |entries|
  {
    if wanted(entries[i]) then Some(BytesBefore(entries, wanted, i)) else None
  }

  /** No wanted entry of the first n runs past the bundle's end. */
  predicate AllInside(entries: seq<Entry>, wanted: Entry -> bool, size: nat, n: nat)
    requires n <= |entries|
  {
    forall i | 0 <= i < n && wanted(entries[i]) :: entries[i].offset + entries[i].size <= size
  }

  datatype Plan = Plan(entries: seq<Entry>, placed: seq<Option<nat>>, bytes: nat)

  predicate PlanFor(p: Plan, entries: seq<Entry>, wanted: Entry -> bool) {
    && p.entries == entries && p.bytes == BytesBefore(entries, wanted, |entries|) && |p.placed| == |entries|
    && forall i | 0 <= i < |entries| :: p.placed[i] == Placed(entries, wanted, i)
  }

  /** plan. */
  method MakePlan(entries: seq<Entry>, wanted: Entry -> bool, size: nat) returns (ok: bool, p: Plan)
    ensures ok <==> AllInside(entries, wanted, size, |entries|)
    ensures ok ==> PlanFor(p, entries, wanted)
  {
    p := Plan(entries, [], 0);
    var i := 0;
    while i < |entries|
      invariant 0 <= i <= |entries| && p.entries == entries && |p.placed| == i
                && p.bytes == BytesBefore(entries, wanted, i)
      invariant AllInside(entries, wanted, size, i)
                && forall j | 0 <= j < i :: p.placed[j] == Placed(entries, wanted, j)
    {
      var e := entries[i];
      if !wanted(e) {
        p := p.(placed := p.placed + [None]);
      } else {
        if e.offset + e.size > size {
          return false, p;
        }
        p := p.(placed := p.placed + [Some(p.bytes)], bytes := p.bytes + e.size);
      }
      i := i + 1;
    }
    return true, p;
  }

  /** An entry's code ends before the next one's begins. */
  lemma {:induction false} PlacesApart(entries: seq<Entry>, wanted: Entry -> bool, i: nat, j: nat)
    requires i < j <= |entries|
    ensures BytesBefore(entries, wanted, i) + (if wanted(entries[i]) then entries[i].size else 0)
            <= BytesBefore(entries, wanted, j)
    decreases j
  {
    if i < j - 1 {
      PlacesApart(entries, wanted, i, j - 1);
    }
  }

  // ---- The tests in 64-bit arithmetic ------------------------------------------

  /**
   A test of a wrapping sum against a length it is not far past: it holds where the sum is within, and where it wraps.
   */
  lemma {:induction false} WrappedTest(from: nat, more: nat, have: nat)
    requires from <= have < WORD64 && more < WORD64
    ensures (from + more) % WORD64 <= have <==> from + more <= have || from + more >= WORD64
  {
  }

  /**
   What read_entries comes to with sums that wrap: a table, too few bytes for it, or a read past the bytes there are.
   */
  datatype Walk = Short | Past | Table(entries: seq<Entry>)

  function WalkFrom(b: seq<Byte>, at: nat, count: nat): Walk
    decreases count
  {
    if count == 0 then Table([])
    else if (at + 24) % WORD64 > |b| then Short
    else if at + 24 > |b| then Past
    else if (at + 24 + U64(b, at + 16)) % WORD64 > |b| then Short
    else if at + 24 + U64(b, at + 16) > |b| then Past
    else
      var length := U64(b, at + 16);
      match WalkFrom(b, at + 24 + length, count - 1)
      case Table(rest) => Table([Entry(b[at + 24..at + 24 + length], U64(b, at), U64(b, at + 8))] + rest)
      case w => w
  }

  /** None of the sums of the table's walk reaches 2^64. */
  predicate SumsFit(b: seq<Byte>, at: nat, count: nat)
    decreases count
  {
    count == 0 ||
    (at + 24 < WORD64 &&
     (at + 24 <= |b| ==>
        var next := at + 24 + U64(b, at + 16);
        next < WORD64 && (next <= |b| ==> SumsFit(b, next, count - 1))))
  }

  /** The wrapping walk is the model's table exactly where no sum wraps; where one does, it reads past the bytes. */
  lemma {:induction false} WalkIsTable(b: seq<Byte>, at: nat, count: nat)
    requires at <= |b| < WORD64
    ensures SumsFit(b, at, count) ==>
              WalkFrom(b, at, count) == match EntriesFrom(b, at, count) case None => Short case Some(e) => Table(e)
    ensures !SumsFit(b, at, count) ==> WalkFrom(b, at, count) == Past && EntriesFrom(b, at, count) == None
    decreases count
  {
    if count > 0 {
      WrappedTest(at, 24, |b|);
      if at + 24 <= |b| {
        FieldIsBelow(b, at + 16);
        WrappedTest(at + 24, U64(b, at + 16), |b|);
        if at + 24 + U64(b, at + 16) <= |b| {
          WalkIsTable(b, at + 24 + U64(b, at + 16), count - 1);
        }
      }
    }
  }

  /** A table of one entry whose length field is 2^64 - 1: the sum wraps and passes the source's test. */
  lemma {:induction false} WrappedLengthPasses(front: seq<Byte>)
    requires |front| == 48
    ensures var b := front + [0xFF, 0xFF, 0xFF, 0xFF, 0xFF, 0xFF, 0xFF, 0xFF];
            WalkFrom(b, 32, 1) == Past && !SumsFit(b, 32, 1) && EntriesFrom(b, 32, 1) == None
  {
    var field: seq<Byte> := [0xFF, 0xFF, 0xFF, 0xFF, 0xFF, 0xFF, 0xFF, 0xFF];
    var b := front + field;
    assert b[48..56] == field;
    assert Little(field) == WORD64 - 1;
  }

  /** The plan's test with a sum that wraps. */
  predicate PassesTest(e: Entry, size: nat) { (e.offset + e.size) % WORD64 <= size }

  /**
   No wanted entry runs past the end exactly where every wanted entry passes the wrapping test and no wanted entry's sum
   wraps.
   */
  lemma {:induction false} InsideIsPassing(entries: seq<Entry>, wanted: Entry -> bool, size: nat, n: nat)
    requires n <= |entries| && size < WORD64
    ensures AllInside(entries, wanted, size, n) <==>
              forall i | 0 <= i < n && wanted(entries[i]) ::
                PassesTest(entries[i], size) && entries[i].offset + entries[i].size < WORD64
  {
    forall i | 0 <= i < n && wanted(entries[i])
      ensures entries[i].offset + entries[i].size <= size <==>
                PassesTest(entries[i], size) && entries[i].offset + entries[i].size < WORD64
    {
      EndTest(entries[i], size);
    }
  }

  lemma {:induction false} EndTest(e: Entry, size: nat)
    requires size < WORD64
    ensures e.offset + e.size <= size <==> PassesTest(e, size) && e.offset + e.size < WORD64
    ensures (PassesTest(e, size) <==> e.offset + e.size <= size) <==>
              !(PassesTest(e, size) && e.offset + e.size >= WORD64)
  {
  }

  /** An entry whose sum wraps passes the source's test in a bundle of 32 bytes and is not inside it. */
  lemma {:induction false} WrappedEndPasses(wanted: Entry -> bool)
    ensures var e := Entry([], WORD64 - 16, 32);
            PassesTest(e, 32) && (wanted(e) ==> !AllInside([e], wanted, 32, 1))
  {
    var e := Entry([], WORD64 - 16, 32);
    if wanted(e) {
      assert [e][0] == e && wanted([e][0]);
    }
  }

  // ---- Copying what is kept ----------------------------------------------------

  /** Byte k of a kept entry: the bundle's where the first `known` bytes reach it, zero where they do not. */
  predicate Cell(into: seq<Byte>, place: nat, e: Entry, whole: seq<Byte>, known: nat, k: int) {
    && 0 <= k && place + k < |into| && known <= |whole|
    && into[place + k] == if e.offset + k < known then whole[e.offset + k] else 0
  }

  /** All of a kept entry, as far as the bundle is known. */
  predicate Kept(into: seq<Byte>, place: nat, e: Entry, whole: seq<Byte>, known: nat) {
    forall k | 0 <= k < e.size :: Cell(into, place, e, whole, known, k)
  }

  /** Every kept entry from i up to n. */
  predicate KeptUpTo(into: seq<Byte>, entries: seq<Entry>, wanted: Entry -> bool, whole: seq<Byte>, known: nat, i: nat,
                     n: nat)
    requires n <= |entries|
  {
    forall j | i <= j < n && wanted(entries[j]) :: Kept(into, BytesBefore(entries, wanted, j), entries[j], whole, known)
  }

  /** memcpy of the n bytes from lo on. */
  method Copy(into: array<Byte>, at: nat, bytes: seq<Byte>, lo: nat, n: nat)
    requires at + n <= into.Length && lo + n <= |bytes|
    modifies into
    ensures forall q | 0 <= q < into.Length :: into[q] == if at <= q < at + n then bytes[lo + (q - at)]
            else old(into[q])
  {
    var i := 0;
    while i < n
      invariant 0 <= i <= n
      invariant forall q | 0 <= q < into.Length ::
                  into[q] == if at <= q < at + i then bytes[lo + (q - at)] else old(into[q])
    {
      into[at + i] := bytes[lo + i];
      i := i + 1;
    }
  }

  /**
   Byte q of a buffer with an entry at place, once a piece has been kept: the piece's where it has it, or what it was.
   */
  function ByteKept(was: seq<Byte>, place: nat, e: Entry, pos: nat, bytes: seq<Byte>, q: nat): Byte
    requires q < |was|
  {
    var at := e.offset + q - place;
    if place <= q < place + e.size && pos <= at < pos + |bytes| then bytes[at - pos] else was[q]
  }

  predicate PieceCopied(now: seq<Byte>, was: seq<Byte>, place: nat, e: Entry, pos: nat, bytes: seq<Byte>) {
    |now| == |was| && forall q | 0 <= q < |was| :: now[q] == ByteKept(was, place, e, pos, bytes, q)
  }

  /** The part of one entry that lies in a piece of the bundle. */
  method KeepEntry(into: array<Byte>, place: nat, e: Entry, pos: nat, bytes: seq<Byte>)
    requires place + e.size <= into.Length
    modifies into
    ensures PieceCopied(into[..], old(into[..]), place, e, pos, bytes)
  {
    var from, to := Max(pos, e.offset), Min(pos + |bytes|, e.offset + e.size);
    if from < to {
      Copy(into, place + (from - e.offset), bytes, from - pos, to - from);
    }
  }

  lemma {:induction false} PieceKept(now: seq<Byte>, was: seq<Byte>, place: nat, e: Entry, pos: nat, bytes: seq<Byte>,
                                     whole: seq<Byte>)
    requires place + e.size <= |was| && Kept(was, place, e, whole, pos) && PieceCopied(now, was, place, e, pos, bytes)
    requires pos + |bytes| <= |whole| && whole[pos..pos + |bytes|] == bytes
    ensures Kept(now, place, e, whole, pos + |bytes|)
    ensures forall q | 0 <= q < |was| && !(place <= q < place + e.size) :: now[q] == was[q]
  {
    var known := pos + |bytes|;
    forall k | 0 <= k < e.size
      ensures Cell(now, place, e, whole, known, k)
    {
      assert Cell(was, place, e, whole, pos, k);
      assert now[place + k] == ByteKept(was, place, e, pos, bytes, place + k);
    }
  }

  lemma {:induction false} OthersKept(now: seq<Byte>, was: seq<Byte>, entries: seq<Entry>, wanted: Entry -> bool,
                                      whole: seq<Byte>, known: nat, i: nat, j: nat)
    requires i < |entries| && j < |entries| && i != j && wanted(entries[i]) && wanted(entries[j])
             && |now| == |was| == BytesBefore(entries, wanted, |entries|)
    requires var place := BytesBefore(entries, wanted, i);
             forall q | 0 <= q < |now| && !(place <= q < place + entries[i].size) :: now[q] == was[q]
    requires Kept(was, BytesBefore(entries, wanted, j), entries[j], whole, known)
    ensures Kept(now, BytesBefore(entries, wanted, j), entries[j], whole, known)
  {
    if i < j {
      PlacesApart(entries, wanted, i, j);
    } else {
      PlacesApart(entries, wanted, j, i);
    }
    var place, e := BytesBefore(entries, wanted, j), entries[j];
    forall k | 0 <= k < e.size
      ensures Cell(now, place, e, whole, known, k)
    {
      assert Cell(was, place, e, whole, known, k);
    }
  }

  /** keep: a piece of the bundle brings every kept entry up to its end. */
  method Keep(p: Plan, pos: nat, bytes: seq<Byte>, into: array<Byte>, ghost wanted: Entry -> bool,
              ghost whole: seq<Byte>)
    requires PlanFor(p, p.entries, wanted) && into.Length == p.bytes && pos + |bytes| <= |whole|
             && whole[pos..pos + |bytes|] == bytes
    requires KeptUpTo(into[..], p.entries, wanted, whole, pos, 0, |p.entries|)
    modifies into
    ensures KeptUpTo(into[..], p.entries, wanted, whole, pos + |bytes|, 0, |p.entries|)
  {
    ghost var known := pos + |bytes|;
    var i := 0;
    while i < |p.entries|
      invariant 0 <= i <= |p.entries|
      invariant KeptUpTo(into[..], p.entries, wanted, whole, known, 0, i)
      invariant KeptUpTo(into[..], p.entries, wanted, whole, pos, i, |p.entries|)
    {
      assert p.placed[i] == Placed(p.entries, wanted, i);
      if p.placed[i].Some? {
        KeepOne(p, pos, bytes, into, i, wanted, whole);
      }
      i := i + 1;
    }
  }

  method KeepOne(p: Plan, pos: nat, bytes: seq<Byte>, into: array<Byte>, i: nat, ghost wanted: Entry -> bool,
                 ghost whole: seq<Byte>)
    requires PlanFor(p, p.entries, wanted) && into.Length == p.bytes && pos + |bytes| <= |whole|
             && whole[pos..pos + |bytes|] == bytes
    requires i < |p.entries| && wanted(p.entries[i]) && p.placed[i].Some?
    requires KeptUpTo(into[..], p.entries, wanted, whole, pos + |bytes|, 0, i)
             && KeptUpTo(into[..], p.entries, wanted, whole, pos, i, |p.entries|)
    modifies into
    ensures KeptUpTo(into[..], p.entries, wanted, whole, pos + |bytes|, 0, i + 1)
            && KeptUpTo(into[..], p.entries, wanted, whole, pos, i + 1, |p.entries|)
  {
    ghost var was, known := into[..], pos + |bytes|;
    assert p.placed[i] == Placed(p.entries, wanted, i);
    PlacesApart(p.entries, wanted, i, |p.entries|);
    KeepEntry(into, p.placed[i].value, p.entries[i], pos, bytes);
    PieceKept(into[..], was, p.placed[i].value, p.entries[i], pos, bytes, whole);
    forall j | 0 <= j < i + 1 && wanted(p.entries[j])
      ensures Kept(into[..], BytesBefore(p.entries, wanted, j), p.entries[j], whole, known)
    {
      if j < i {
        OthersKept(into[..], was, p.entries, wanted, whole, known, i, j);
      }
    }
    forall j | i + 1 <= j < |p.entries| && wanted(p.entries[j])
      ensures Kept(into[..], BytesBefore(p.entries, wanted, j), p.entries[j], whole, pos)
    {
      OthersKept(into[..], was, p.entries, wanted, whole, pos, i, j);
    }
  }

  // ---- The result --------------------------------------------------------------

  /** The wanted entries' code, one after another. */
  function Slices(entries: seq<Entry>, wanted: Entry -> bool, whole: seq<Byte>, n: nat): (r: seq<Byte>)
    requires n <= |entries| && AllInside(entries, wanted, |whole|, n)
    ensures |r| == BytesBefore(entries, wanted, n)
  {
    if n == 0 then []
    else
      var e := entries[n - 1];
      Slices(entries, wanted, whole, n - 1) + (if wanted(e) then whole[e.offset..e.offset + e.size] else [])
  }

  /**
   What an inflated bundle is worth: its entries and the wanted ones' code, where it is a bundle of the size its header
   says and no wanted entry runs past its end.
   */
  function Reference(whole: seq<Byte>, size: nat, wanted: Entry -> bool): Option<(seq<Entry>, seq<Byte>)> {
    if |whole| != size || !(MAGIC <= whole) then None
    else
      match Entries(whole)
      case None => None
      case Some(entries) => if AllInside(entries, wanted, size, |entries|)
                            then Some((entries, Slices(entries, wanted, whole, |entries|))) else None
  }

  /** Any entries written after the magic, whatever follows them, inflate to themselves and the wanted ones' bytes. */
  lemma {:induction false} BundleReads(entries: seq<Entry>, rest: seq<Byte>, wanted: Entry -> bool)
    requires |entries| < WORD64 && AllFit(entries)
    ensures var whole := MAGIC + Field64(|entries|) + TableBytes(entries) + rest;
            AllInside(entries, wanted, |whole|, |entries|) ==>
              Reference(whole, |whole|, wanted) == Some((entries, Slices(entries, wanted, whole, |entries|)))
  {
    var count, table := Field64(|entries|), TableBytes(entries);
    var whole := MAGIC + count + table + rest;
    assert whole[24..32] == count && whole[32..32 + |table|] == table;
    EntriesAreWritten(whole, entries);
  }

  /** Every kept entry in its place, all of the bundle known, is the slices. */
  lemma {:induction false} KeptIsSlices(into: seq<Byte>, entries: seq<Entry>, wanted: Entry -> bool, whole: seq<Byte>,
                                        n: nat)
    requires n <= |entries| && BytesBefore(entries, wanted, n) <= |into| && AllInside(entries, wanted, |whole|, n)
             && KeptUpTo(into, entries, wanted, whole, |whole|, 0, n)
    ensures into[..BytesBefore(entries, wanted, n)] == Slices(entries, wanted, whole, n)
  {
    if n > 0 {
      PlacesApart(entries, wanted, n - 1, n);
      KeptIsSlices(into, entries, wanted, whole, n - 1);
      if wanted(entries[n - 1]) {
        EntryIsSlice(into, BytesBefore(entries, wanted, n - 1), entries[n - 1], whole);
        Joins(into, BytesBefore(entries, wanted, n - 1), entries[n - 1].size, Slices(entries, wanted, whole, n - 1),
              whole[entries[n - 1].offset..entries[n - 1].offset + entries[n - 1].size]);
      }
    }
  }

  /** A sequence that starts with one part and goes on with another. */
  lemma {:induction false} Joins(s: seq<Byte>, at: nat, n: nat, front: seq<Byte>, back: seq<Byte>)
    requires at + n <= |s| && s[..at] == front && s[at..at + n] == back
    ensures s[..at + n] == front + back
  {
  }

  lemma {:induction false} EntryIsSlice(into: seq<Byte>, place: nat, e: Entry, whole: seq<Byte>)
    requires place + e.size <= |into| && e.offset + e.size <= |whole| && Kept(into, place, e, whole, |whole|)
    ensures into[place..place + e.size] == whole[e.offset..e.offset + e.size]
  {
    var here, there := into[place..place + e.size], whole[e.offset..e.offset + e.size];
    forall k | 0 <= k < e.size
      ensures here[k] == there[k]
    {
      assert Cell(into, place, e, whole, |whole|, k);
    }
  }

  lemma {:induction false} NothingKept(into: seq<Byte>, entries: seq<Entry>, wanted: Entry -> bool, whole: seq<Byte>)
    requires |into| == BytesBefore(entries, wanted, |entries|) && forall q | 0 <= q < |into| :: into[q] == 0
    ensures KeptUpTo(into, entries, wanted, whole, 0, 0, |entries|)
  {
    forall j | 0 <= j < |entries| && wanted(entries[j])
      ensures Kept(into, BytesBefore(entries, wanted, j), entries[j], whole, 0)
    {
      PlacesApart(entries, wanted, j, |entries|);
    }
  }

  /** `into->assign(p->bytes, 0)` and the first keep. */
  method KeepFirst(p: Plan, head: seq<Byte>, ghost wanted: Entry -> bool, ghost whole: seq<Byte>)
    returns (into: array<Byte>)
    requires PlanFor(p, p.entries, wanted) && head <= whole
    ensures fresh(into) && into.Length == p.bytes
            && KeptUpTo(into[..], p.entries, wanted, whole, |head|, 0, |p.entries|)
  {
    into := new Byte[p.bytes](_ => 0);
    NothingKept(into[..], p.entries, wanted, whole);
    assert whole[0..0 + |head|] == head;
    Keep(p, 0, head, into, wanted, whole);
  }

  /** inflate_zlib, from where the bundle is inflated. */
  method InflateOnce(whole: seq<Byte>, size: nat, wanted: Entry -> bool) returns (r: Option<(seq<Entry>, seq<Byte>)>)
    ensures r == Reference(whole, size, wanted)
  {
    if |whole| != size {
      return None;
    }
    if |whole| < 24 || whole[..24] != MAGIC {
      NoMagic(whole);
      return None;
    }
    var read, entries := ReadEntries(whole);
    if !read {
      return None;
    }
    var ok, p := MakePlan(entries, wanted, size);
    if !ok {
      return None;
    }
    var into := KeepFirst(p, whole, wanted, whole);
    KeptIsSlices(into[..], entries, wanted, whole, |entries|);
    assert into[..][..p.bytes] == into[..];
    return Some((entries, into[..]));
  }

  lemma {:induction false} NoMagic(whole: seq<Byte>)
    ensures MAGIC <= whole <==> |whole| >= 24 && whole[..24] == MAGIC
  {
  }

  // ---- A piece at a time -------------------------------------------------------

  function Joined(pieces: seq<seq<Byte>>): seq<Byte> {
    if pieces == [] then [] else Joined(pieces[..|pieces| - 1]) + pieces[|pieces| - 1]
  }

  lemma {:induction false} JoinedPrefix(pieces: seq<seq<Byte>>, i: nat)
    requires i <= |pieces|
    ensures Joined(pieces[..i]) <= Joined(pieces)
    decreases |pieces| - i
  {
    if i == |pieces| {
      assert pieces[..i] == pieces;
    } else {
      JoinedPrefix(pieces, i + 1);
      assert pieces[..i + 1][..i] == pieces[..i];
    }
  }

  lemma {:induction false} JoinedNext(pieces: seq<seq<Byte>>, i: nat)
    requires i < |pieces|
    ensures Joined(pieces[..i + 1]) == Joined(pieces[..i]) + pieces[i]
            && Joined(pieces[..i]) + pieces[i] <= Joined(pieces)
  {
    assert pieces[..i + 1][..i] == pieces[..i];
    JoinedPrefix(pieces, i + 1);
  }

  /** The check of a head that may be shorter than the magic. */
  predicate StartsRight(head: seq<Byte>) { head[..Min(|head|, 24)] == MAGIC[..Min(|head|, 24)] }

  lemma {:induction false} WrongStart(head: seq<Byte>, whole: seq<Byte>)
    requires head <= whole
    ensures MAGIC <= whole ==> StartsRight(head)
  {
    var n := Min(|head|, 24);
    if MAGIC <= whole {
      assert head[..n] == whole[..n];
      assert MAGIC[..n] == whole[..n];
    }
  }

  lemma {:induction false} RightStart(head: seq<Byte>, whole: seq<Byte>)
    requires head <= whole && StartsRight(head) && |head| >= 24
    ensures MAGIC <= whole
  {
    assert MAGIC[..24] == MAGIC;
    assert whole[..24] == head[..24];
    NoMagic(whole);
  }

  /** What the loop knows once the table has been read. */
  ghost predicate Planned(p: Plan, into: seq<Byte>, wanted: Entry -> bool, whole: seq<Byte>, size: nat, pos: nat) {
    && MAGIC <= whole && Entries(whole) == Some(p.entries) && PlanFor(p, p.entries, wanted)
    && AllInside(p.entries, wanted, size, |p.entries|)
    && |into| == p.bytes && KeptUpTo(into, p.entries, wanted, whole, pos, 0, |p.entries|)
  }

  lemma {:induction false} PlannedIsDone(p: Plan, into: seq<Byte>, wanted: Entry -> bool, whole: seq<Byte>)
    requires Planned(p, into, wanted, whole, |whole|, |whole|)
    ensures Reference(whole, |whole|, wanted) == Some((p.entries, into))
  {
    KeptIsSlices(into, p.entries, wanted, whole, |p.entries|);
    assert into[..p.bytes] == into;
  }

  /** The start of the bundle, until the table of contents is in it. */
  method TakeHead(head: seq<Byte>, size: nat, wanted: Entry -> bool, ghost whole: seq<Byte>)
    returns (failed: bool, planned: bool, p: Plan, into: array<Byte>)
    requires head <= whole
    ensures failed ==> Reference(whole, size, wanted) == None
    ensures !failed && !planned ==> Entries(head).None?
    ensures !failed && planned ==> Planned(p, into[..], wanted, whole, size, |head|)
    ensures fresh(into)
  {
    failed, planned, p, into := false, false, Plan([], [], 0), new Byte[0];
    if !StartsRight(head) {
      WrongStart(head, whole);
      return true, false, p, into;
    }
    var read, entries := ReadEntries(head);
    if read {
      TableIsWhole(head, whole, entries);
      failed, p := MakePlan(entries, wanted, size);
      failed := !failed;
      if !failed {
        into := KeepFirst(p, head, wanted, whole);
        planned := true;
      }
    }
  }

  /** What the loop knows with pos bytes inflated: the start of the bundle, or the plan and what is kept so far. */
  ghost predicate Streaming(planned: bool, head: seq<Byte>, p: Plan, into: seq<Byte>, wanted: Entry -> bool,
                            whole: seq<Byte>, size: nat, pos: nat) {
    && pos <= |whole|
    && if planned then Planned(p, into, wanted, whole, size, pos) else head == whole[..pos] && Entries(head).None?
  }

  /** A step of the loop: the next piece. */
  method TakePiece(head: seq<Byte>, planned: bool, p: Plan, into: array<Byte>, pos: nat, piece: seq<Byte>, size: nat,
                   wanted: Entry -> bool, ghost whole: seq<Byte>)
    returns (failed: bool, head': seq<Byte>, planned': bool, p': Plan, into': array<Byte>)
    requires Streaming(planned, head, p, into[..], wanted, whole, size, pos)
    requires pos + |piece| <= |whole| && whole[pos..pos + |piece|] == piece
    modifies into
    ensures failed ==> Reference(whole, size, wanted) == None
    ensures !failed ==> Streaming(planned', head', p', into'[..], wanted, whole, size, pos + |piece|)
    ensures into' == into || fresh(into')
  {
    failed, head', planned', p', into' := false, head, planned, p, into;
    if !planned {
      head' := head + piece;
      assert head' == whole[..pos + |piece|];
      failed, planned', p', into' := TakeHead(head', size, wanted, whole);
    } else {
      Keep(p, pos, piece, into, wanted, whole);
    }
  }

  lemma {:induction false} PieceOfWhole(pieces: seq<seq<Byte>>, i: nat)
    requires i < |pieces|
    ensures var whole, pos := Joined(pieces), |Joined(pieces[..i])|;
            && pos + |pieces[i]| <= |whole| && whole[pos..pos + |pieces[i]|] == pieces[i]
            && |Joined(pieces[..i + 1])| == pos + |pieces[i]|
  {
    JoinedNext(pieces, i);
    assert (Joined(pieces[..i]) + pieces[i])[|Joined(pieces[..i])|..] == pieces[i];
  }

  /** inflate_zstd's loop: whatever the pieces, the result is the whole's. */
  method InflateStream(pieces: seq<seq<Byte>>, size: nat, wanted: Entry -> bool)
    returns (r: Option<(seq<Entry>, seq<Byte>)>)
    ensures r == Reference(Joined(pieces), size, wanted)
  {
    ghost var whole := Joined(pieces);
    var head: seq<Byte>, planned, pos: nat, failed := [], false, 0, false;
    var p, into := Plan([], [], 0), new Byte[0];
    assert pieces[..0] == [];
    for i := 0 to |pieces|
      invariant pos == |Joined(pieces[..i])| <= size && fresh(into)
      invariant Streaming(planned, head, p, into[..], wanted, whole, size, pos)
    {
      PieceOfWhole(pieces, i);
      if pos + |pieces[i]| > size {
        return None;
      }
      failed, head, planned, p, into := TakePiece(head, planned, p, into, pos, pieces[i], size, wanted, whole);
      if failed {
        return None;
      }
      pos := pos + |pieces[i]|;
    }
    assert pieces[..|pieces|] == pieces;
    if pos != size || !planned {
      assert whole[..pos] == whole;
      return None;
    }
    PlannedIsDone(p, into[..], wanted, whole);
    return Some((p.entries, into[..]));
  }

  /** A table in the head is the whole bundle's, and the head has the magic. */
  lemma {:induction false} TableIsWhole(head: seq<Byte>, whole: seq<Byte>, entries: seq<Entry>)
    requires head <= whole && StartsRight(head) && Entries(head) == Some(entries)
    ensures MAGIC <= whole && Entries(whole) == Some(entries)
  {
    assert whole[..|head|] == head;
    EntriesStable(whole, |head|);
    RightStart(head, whole);
  }
}
