/**
 One run of consecutive lanes at consecutive places: each LDS form as one copy, with the words moved between lanes and
 rows.
 */
module LdsRun {
  import opened Basics
  import opened Powers
  import opened Lds
  import opened LdsMoves
  import opened LdsWave

  // ---- Reads -------------------------------------------------------------------

  /** d holds the words of cnt consecutive places from base. */
  predicate InRun(m: seq<Byte>, base: nat, words: nat, d: seq<seq<Word>>) {
    forall i | 0 <= i < |d| :: InRunAt(m, base, words, d, i)
  }

  predicate InRunAt(m: seq<Byte>, base: nat, words: nat, d: seq<seq<Word>>, i: nat)
    requires i < |d|
  {
    0 <= Times(4 * words, i) && GatheredAt(m, base + Times(4 * words, i), words, d[i])
  }

  lemma {:induction false} LaneFilled(regs: Regs, lanes: nat, row: nat, ws: seq<Word>, l: nat)
    requires Shaped(regs, lanes) && l < lanes && row + |ws| <= |regs|
    ensures Filled(SetLane(regs, row, ws, l), regs, lanes, row, |ws|, [ws], l, 1)
  {
  }

  lemma {:induction false} OneLaneFilled(mid: Regs, was: Regs, lanes: nat, row: nat, words: nat, d: seq<seq<Word>>,
                                         first: nat, l: nat)
    requires Filled(mid, was, lanes, row, words, d, first, l) && l < |d| && |d[l]| == words && first + |d| <= lanes
             && row + words <= |mid|
    ensures Filled(SetLane(mid, row, d[l], first + l), was, lanes, row, words, d, first, l + 1)
  {
    LaneFilled(mid, lanes, row, d[l], first + l);
    FilledMore(SetLane(mid, row, d[l], first + l), mid, was, lanes, row, words, d, first, l, [d[l]]);
  }

  /** One more lane of a run. */
  method RunReadLane(v: array2<Word>, lds: array<Byte>, row: nat, words: nat, first: nat, base: nat, l: nat, o: nat,
                     ghost was: Regs, ghost d: seq<seq<Word>>)
    requires row + words <= v.Length0 && first + |d| <= v.Length1 && l < |d| && InRun(lds[..], base, words, d)
             && o == base + Times(4 * words, l)
    requires Filled(RegsOf(v), was, v.Length1, row, words, d, first, l)
    modifies v
    ensures Filled(RegsOf(v), was, v.Length1, row, words, d, first, l + 1)
  {
    assert InRunAt(lds[..], base, words, d, l);
    var ws := LoadWords(lds, o, words);
    OneLaneFilled(RegsOf(v), was, v.Length1, row, words, d, first, l);
    SetWords(v, row, ws, first + l);
  }

  lemma {:induction false} RunOf4(m: seq<Byte>, base: nat, words: nat, d: seq<seq<Word>>, l: nat, o: nat)
    requires InRun(m, base, words, d) && l + 4 <= |d| && o == base + Times(4 * words, l)
    ensures o + 16 * words == base + Times(4 * words, l + 4)
    ensures o + 16 * words <= |m|
    ensures WordsOf4(m, [o, o + 4 * words, o + 8 * words, o + 12 * words], words) == Four(d, l)
  {
    assert InRunAt(m, base, words, d, l) && InRunAt(m, base, words, d, l + 1) && InRunAt(m, base, words, d, l + 2)
           && InRunAt(m, base, words, d, l + 3);
  }

  method RunReadGroup(v: array2<Word>, lds: array<Byte>, row: nat, words: nat, first: nat, base: nat, l: nat, o: nat,
                      ghost was: Regs, ghost d: seq<seq<Word>>)
    requires row + words <= v.Length0 && first + |d| <= v.Length1 && l + 4 <= |d| && InRun(lds[..], base, words, d)
             && o == base + Times(4 * words, l)
    requires (words == 2 || words == 4) && Filled(RegsOf(v), was, v.Length1, row, words, d, first, l)
    modifies v
    ensures Filled(RegsOf(v), was, v.Length1, row, words, d, first, l + 4)
    ensures o + 16 * words == base + Times(4 * words, l + 4)
  {
    RunOf4(lds[..], base, words, d, l, o);
    ghost var mid := RegsOf(v);
    LdsToRows(v, lds, row, words, [o, o + 4 * words, o + 8 * words, o + 12 * words], first + l);
    FilledMore(RegsOf(v), mid, was, v.Length1, row, words, d, first, l, Four(d, l));
  }

  /** ds_run_read: groups of four lanes and then the rest, one at a time. */
  method RunRead(v: array2<Word>, lds: array<Byte>, row: nat, words: nat, first: nat, cnt: nat, base: nat,
                 ghost d: seq<seq<Word>>)
    requires row + words <= v.Length0 && first + cnt <= v.Length1 && |d| == cnt && (words == 2 || words == 4)
             && InRun(lds[..], base, words, d)
    modifies v
    ensures Filled(RegsOf(v), old(RegsOf(v)), v.Length1, row, words, d, first, cnt)
  {
    ghost var was, m := RegsOf(v), lds[..];
    NothingFilled(was, v.Length1, row, words, d, first);
    var l: nat, o: nat := 0, base;
    while l + 4 <= cnt
      invariant 0 <= l <= cnt && o == base + Times(4 * words, l)
      invariant lds[..] == m && Filled(RegsOf(v), was, v.Length1, row, words, d, first, l)
    {
      RunReadGroup(v, lds, row, words, first, base, l, o, was, d);
      l, o := l + 4, o + 16 * words;
    }
    while l < cnt
      invariant 0 <= l <= cnt && o == base + Times(4 * words, l)
      invariant lds[..] == m && Filled(RegsOf(v), was, v.Length1, row, words, d, first, l)
    {
      RunReadLane(v, lds, row, words, first, base, l, o, was, d);
      l, o := l + 1, o + 4 * words;
    }
  }

  /** A run of single words is one copy into the row. */
  method CopyToRow(v: array2<Word>, lds: array<Byte>, row: nat, words: nat, first: nat, cnt: nat, base: nat,
                   ghost d: seq<seq<Word>>)
    requires words == 1 && row + words <= v.Length0 && first + cnt <= v.Length1 && |d| == cnt
             && InRun(lds[..], base, words, d)
    modifies v
    ensures Filled(RegsOf(v), old(RegsOf(v)), v.Length1, row, words, d, first, cnt)
  {
    ghost var was, m := RegsOf(v), lds[..];
    NothingFilled(was, v.Length1, row, words, d, first);
    var l: nat, o: nat := 0, base;
    while l < cnt
      invariant 0 <= l <= cnt && o == base + Times(4 * words, l)
      invariant lds[..] == m && Filled(RegsOf(v), was, v.Length1, row, words, d, first, l)
    {
      RunReadLane(v, lds, row, words, first, base, l, o, was, d);
      l, o := l + 1, o + 4;
    }
  }

  /** Three words a lane: the run copied out and then dealt to the rows, a row at a time. */
  method RunRead3(v: array2<Word>, lds: array<Byte>, row: nat, words: nat, first: nat, cnt: nat, base: nat,
                  ghost d: seq<seq<Word>>)
    requires words == 3 && row + words <= v.Length0 && first + cnt <= v.Length1 && |d| == cnt
             && InRun(lds[..], base, words, d) && base + Times(4 * words, cnt) <= lds.Length
    modifies v
    ensures Filled(RegsOf(v), old(RegsOf(v)), v.Length1, row, words, d, first, cnt)
  {
    ghost var was := RegsOf(v);
    TimesIsProduct(4 * words, cnt);
    var tmp := LoadWords(lds, base, 3 * cnt);
    Dealt(lds[..], base, words, d, tmp);
    NothingDealt(was, v.Length1, row, d, first);
    var k := 0;
    while k < words
      invariant 0 <= k <= words
      invariant Filled(RegsOf(v), was, v.Length1, row, k, d, first, cnt)
    {
      DealRow(v, row + k, first, tmp, k, was, row, d);
      k := k + 1;
    }
  }

  /** tmp holds the run's words, lane after lane. */
  predicate Interleaved(d: seq<seq<Word>>, words: nat, tmp: seq<Word>)
    requires words == 3
  {
    && |tmp| == 3 * |d| && (forall i | 0 <= i < |d| :: |d[i]| == 3)
    && forall i | 0 <= i < |d| :: d[i][0] == tmp[3 * i] && d[i][1] == tmp[3 * i + 1] && d[i][2] == tmp[3 * i + 2]
  }

  lemma {:induction false} Dealt(m: seq<Byte>, base: nat, words: nat, d: seq<seq<Word>>, tmp: seq<Word>)
    requires words == 3 && InRun(m, base, words, d) && base + 12 * |d| <= |m| && tmp == WordsAt(m, base, 3 * |d|)
    ensures Interleaved(d, words, tmp)
  {
    forall i | 0 <= i < |d|
      ensures |d[i]| == 3 && d[i][0] == tmp[3 * i] && d[i][1] == tmp[3 * i + 1] && d[i][2] == tmp[3 * i + 2]
    {
      assert InRunAt(m, base, words, d, i);
      TimesIsProduct(4 * words, i);
    }
  }

  lemma {:induction false} NothingDealt(regs: Regs, lanes: nat, row: nat, d: seq<seq<Word>>, first: nat)
    requires Shaped(regs, lanes)
    ensures Filled(regs, regs, lanes, row, 0, d, first, |d|)
  {
  }

  method DealRow(v: array2<Word>, out: nat, first: nat, tmp: seq<Word>, k: nat, ghost was: Regs, ghost row: nat,
                 ghost d: seq<seq<Word>>)
    requires k < 3 && out == row + k < v.Length0 && first + |d| <= v.Length1 && Interleaved(d, 3, tmp)
             && Filled(RegsOf(v), was, v.Length1, row, k, d, first, |d|)
    modifies v
    ensures Filled(RegsOf(v), was, v.Length1, row, k + 1, d, first, |d|)
  {
    ghost var mid := RegsOf(v);
    var l := 0;
    while 3 * l < |tmp|
      invariant 0 <= l <= |d|
      invariant forall r, c | 0 <= r < v.Length0 && 0 <= c < v.Length1 :: v[r, c] == if r == out
                && first <= c < first + l then d[c - first][k] else mid[r][c]
    {
      assert tmp[3 * l + k] == d[l][k];
      v[out, first + l] := tmp[3 * l + k];
      l := l + 1;
    }
    RowDealt(RegsOf(v), mid, was, v.Length1, row, k, d, first);
  }

  lemma {:induction false} RowDealt(now: Regs, mid: Regs, was: Regs, lanes: nat, row: nat, k: nat, d: seq<seq<Word>>,
                                    first: nat)
    requires Filled(mid, was, lanes, row, k, d, first, |d|) && |now| == |mid| && Shaped(now, lanes)
             && forall i | 0 <= i < |d| :: k < |d[i]|
    requires forall r, c | 0 <= r < |was| && 0 <= c < lanes :: now[r][c] == if r == row + k && first <= c < first + |d|
             then d[c - first][k] else mid[r][c]
    ensures Filled(now, was, lanes, row, k + 1, d, first, |d|)
  {
    var n, more := |d|, k + 1;
    forall r, c | 0 <= r < |was| && 0 <= c < lanes
      ensures Cell(now, was, row, more, d, first, n, r, c)
    {
      assert Cell(mid, was, row, k, d, first, n, r, c);
    }
  }

  // ---- Writes ------------------------------------------------------------------

  lemma {:induction false} RunWordsAt(d: seq<seq<Word>>, words: nat, first: nat, n: nat, i: nat, k: nat)
    requires first + n <= |d| && (forall l | 0 <= l < |d| :: |d[l]| == words) && i < n && k < words
    ensures 0 <= Times(words, i) && Times(words, i) + k < |RunWords(d, first, n)| == Times(words, n)
    ensures RunWords(d, first, n)[Times(words, i) + k] == d[first + i][k]
  {
    WordCount(d, words, first, n);
    WordCount(d, words, first, n - 1);
    TimesGrows(words, 0, i);
    TimesGrows(words, i + 1, n);
    if i < n - 1 {
      RunWordsAt(d, words, first, n - 1, i, k);
    }
  }

  lemma {:induction false} WordCount(d: seq<seq<Word>>, words: nat, first: nat, n: nat)
    requires first + n <= |d| && forall l | 0 <= l < |d| :: |d[l]| == words
    ensures |RunWords(d, first, n)| == Times(words, n)
  {
    if n > 0 {
      WordCount(d, words, first, n - 1);
    }
  }

  /** A run of single words is one copy out of the row. */
  method CopyFromRow(v: array2<Word>, lds: array<Byte>, row: nat, words: nat, first: nat, cnt: nat, base: nat,
                     ghost d: seq<seq<Word>>)
    requires words == 1 && row < v.Length0 && first + cnt <= v.Length1 && d == Data(RegsOf(v), row, words, v.Length1)
             && base + 4 * cnt <= lds.Length
    modifies lds
    ensures |RunWords(d, first, cnt)| == cnt && lds[..] == Put(old(lds[..]), base, BytesOf(RunWords(d, first, cnt)))
  {
    var ws := seq(cnt, l requires 0 <= l < cnt reads v => v[row, first + l]);
    SingleWords(d, first, cnt, ws, words);
    StoreBytes(lds, base, BytesOf(ws));
  }

  lemma {:induction false} SingleWords(d: seq<seq<Word>>, first: nat, cnt: nat, ws: seq<Word>, words: nat)
    requires words == 1 && first + cnt <= |d| && |ws| == cnt && (forall l | 0 <= l < |d| :: |d[l]| == words)
             && forall l | 0 <= l < cnt :: ws[l] == d[first + l][0]
    ensures ws == RunWords(d, first, cnt)
  {
    WordCount(d, words, first, cnt);
    TimesOne(cnt);
    forall i | 0 <= i < cnt
      ensures ws[i] == RunWords(d, first, cnt)[i]
    {
      RunWordsAt(d, words, first, cnt, i, 0);
      TimesOne(i);
    }
  }

  /** What the stores of the run's first n lanes leave in LDS. */
  ghost predicate RunStored(now: seq<Byte>, m: seq<Byte>, base: nat, d: seq<seq<Word>>, first: nat, n: nat)
    requires first + n <= |d|
  {
    base + 4 * |RunWords(d, first, n)| <= |m| && now == Put(m, base, BytesOf(RunWords(d, first, n)))
  }

  /** One more lane of a run of stores. */
  method RunWriteLane(v: array2<Word>, lds: array<Byte>, row: nat, words: nat, first: nat, base: nat, l: nat, o: nat,
                      ghost m: seq<Byte>, ghost d: seq<seq<Word>>)
    requires row + words <= v.Length0 && first + l < v.Length1 && d == Data(RegsOf(v), row, words, v.Length1)
             && o == base + Times(4 * words, l) && o + 4 * words <= |m|
    requires RunStored(lds[..], m, base, d, first, l)
    modifies lds
    ensures RegsOf(v) == old(RegsOf(v)) && RunStored(lds[..], m, base, d, first, l + 1)
  {
    RunWordsLength(d, words, first, l);
    var ws := GetWords(v, row, words, first + l);
    ExtendRun(m, base, RunWords(d, first, l), ws);
    StoreBytes(lds, o, BytesOf(ws));
  }

  lemma {:induction false} ExtendRun4(m: seq<Byte>, base: nat, words: nat, d: seq<seq<Word>>, first: nat, l: nat,
                                      o: nat)
    requires first + l + 4 <= |d| && (forall i | 0 <= i < |d| :: |d[i]| == words) && o == base + Times(4 * words, l)
             && o + 16 * words <= |m|
    ensures 4 * |RunWords(d, first, l)| == Times(4 * words, l)
    ensures RunStored(Put4(Put(m, base, BytesOf(RunWords(d, first, l))),
                           [o, o + 4 * words, o + 8 * words, o + 12 * words], Four(d, first + l)), m, base, d, first,
                           l + 4)
  {
    RunWordsLength(d, words, first, l);
    var ws, w1 := RunWords(d, first, l), RunWords(d, first, l + 1);
    var w2, w3 := RunWords(d, first, l + 2), RunWords(d, first, l + 3);
    ExtendRun(m, base, ws, d[first + l]);
    ExtendRun(m, base, w1, d[first + l + 1]);
    ExtendRun(m, base, w2, d[first + l + 2]);
    ExtendRun(m, base, w3, d[first + l + 3]);
    assert w2 == w1 + d[first + l + 1] && w3 == w2 + d[first + l + 2];
  }

  method RunWriteGroup(v: array2<Word>, lds: array<Byte>, row: nat, words: nat, first: nat, base: nat, l: nat, o: nat,
                       ghost m: seq<Byte>, ghost d: seq<seq<Word>>)
    requires row + words <= v.Length0 && first + l + 4 <= v.Length1 && d == Data(RegsOf(v), row, words, v.Length1)
             && o == base + Times(4 * words, l) && o + 16 * words <= |m|
    requires RunStored(lds[..], m, base, d, first, l) && (words == 2 || words == 4)
    modifies lds
    ensures RegsOf(v) == old(RegsOf(v)) && RunStored(lds[..], m, base, d, first, l + 4)
  {
    ExtendRun4(m, base, words, d, first, l, o);
    FourLanes(RegsOf(v), row, words, v.Length1, first + l);
    RowsToLds(v, lds, row, words, [o, o + 4 * words, o + 8 * words, o + 12 * words], first + l);
  }

  lemma {:induction false} RunInside(base: nat, words: nat, l: nat, n: nat, cnt: nat, size: nat)
    requires l + n <= cnt && base + Times(4 * words, cnt) <= size
    ensures base + Times(4 * words, l) + Times(4 * words, n) == base + Times(4 * words, l + n) <= size
  {
    TimesSplit(4 * words, l, n);
    TimesGrows(4 * words, l + n, cnt);
  }

  /** ds_run_write. */
  method RunWrite(v: array2<Word>, lds: array<Byte>, row: nat, words: nat, first: nat, cnt: nat, base: nat,
                  ghost d: seq<seq<Word>>)
    requires (words == 2 || words == 4) && row + words <= v.Length0 && first + cnt <= v.Length1
             && d == Data(RegsOf(v), row, words, v.Length1)
    requires base + Times(4 * words, cnt) <= lds.Length
    modifies lds
    ensures base + 4 * |RunWords(d, first, cnt)| <= lds.Length
            && lds[..] == Put(old(lds[..]), base, BytesOf(RunWords(d, first, cnt)))
  {
    ghost var m, regs := lds[..], RegsOf(v);
    TimesGrows(4 * words, 0, cnt);
    var l: nat, o: nat := 0, base;
    while l + 4 <= cnt
      invariant 0 <= l <= cnt && o == base + Times(4 * words, l) && RegsOf(v) == regs
      invariant RunStored(lds[..], m, base, d, first, l)
    {
      RunInside(base, words, l, 4, cnt, |m|);
      TimesIsProduct(4 * words, 4);
      RunWriteGroup(v, lds, row, words, first, base, l, o, m, d);
      l, o := l + 4, o + 16 * words;
    }
    RunWriteRest(v, lds, row, words, first, cnt, base, l, o, m, d);
  }

  method RunWriteRest(v: array2<Word>, lds: array<Byte>, row: nat, words: nat, first: nat, cnt: nat, base: nat,
                      from: nat, at: nat, ghost m: seq<Byte>, ghost d: seq<seq<Word>>)
    requires from <= cnt && row + words <= v.Length0 && first + cnt <= v.Length1
             && d == Data(RegsOf(v), row, words, v.Length1)
    requires base + Times(4 * words, cnt) <= |m| && at == base + Times(4 * words, from)
    requires RunStored(lds[..], m, base, d, first, from)
    modifies lds
    ensures RunStored(lds[..], m, base, d, first, cnt)
  {
    ghost var regs := RegsOf(v);
    var l: nat, o: nat := from, at;
    while l < cnt
      invariant 0 <= l <= cnt && o == base + Times(4 * words, l) && RegsOf(v) == regs
      invariant RunStored(lds[..], m, base, d, first, l)
    {
      RunInside(base, words, l, 1, cnt, |m|);
      RunWriteLane(v, lds, row, words, first, base, l, o, m, d);
      l, o := l + 1, o + 4 * words;
    }
  }

  /** Three words a lane: the rows dealt into the run's order, a row at a time, and then copied. */
  method RunWrite3(v: array2<Word>, lds: array<Byte>, row: nat, words: nat, first: nat, cnt: nat, base: nat,
                   ghost d: seq<seq<Word>>)
    requires words == 3 && row + words <= v.Length0 && first + cnt <= v.Length1
             && d == Data(RegsOf(v), row, words, v.Length1)
    requires base + Times(4 * words, cnt) <= lds.Length
    modifies lds
    ensures base + 4 * |RunWords(d, first, cnt)| <= lds.Length
            && lds[..] == Put(old(lds[..]), base, BytesOf(RunWords(d, first, cnt)))
  {
    TimesIsProduct(4 * words, cnt);
    var tmp := Interleave(v, row, first, cnt);
    ColumnsAreRun(v, row, words, first, cnt, tmp, d);
    StoreBytes(lds, base, BytesOf(tmp));
  }

  lemma {:induction false} InterleavedIsRun(d: seq<seq<Word>>, words: nat, first: nat, cnt: nat, tmp: seq<Word>)
    requires words == 3 && first + cnt <= |d| && (forall l | 0 <= l < |d| :: |d[l]| == words)
             && Interleaved(d[first..first + cnt], words, tmp)
    ensures tmp == RunWords(d, first, cnt)
  {
    if cnt > 0 {
      var n := cnt - 1;
      assert d[first..first + cnt][..n] == d[first..first + n];
      InterleavedIsRun(d, words, first, n, tmp[..3 * n]);
      assert d[first..first + cnt][n] == d[first + n];
      assert tmp == tmp[..3 * n] + d[first + n];
    }
  }

  lemma {:induction false} ColumnsAreRun(v: array2<Word>, row: nat, words: nat, first: nat, cnt: nat, tmp: seq<Word>,
                                         d: seq<seq<Word>>)
    requires words == 3 && row + 3 <= v.Length0 && first + cnt <= v.Length1
             && d == Data(RegsOf(v), row, words, v.Length1)
    requires Column(v, row, first, cnt, tmp, 0) && Column(v, row, first, cnt, tmp, 1)
             && Column(v, row, first, cnt, tmp, 2)
    ensures tmp == RunWords(d, first, cnt)
  {
    assert Interleaved(d[first..first + cnt], words, tmp);
    InterleavedIsRun(d, words, first, cnt, tmp);
  }

  /** t holds row k of the lanes in every third place. */
  ghost predicate Column(v: array2<Word>, row: nat, first: nat, cnt: nat, t: seq<Word>, k: nat)
    requires row + k < v.Length0 && first + cnt <= v.Length1 && k < 3
    reads v
  {
    |t| == 3 * cnt && forall l | 0 <= l < cnt :: t[3 * l + k] == v[row + k, first + l]
  }

  method Interleave(v: array2<Word>, row: nat, first: nat, cnt: nat) returns (tmp: seq<Word>)
    requires row + 3 <= v.Length0 && first + cnt <= v.Length1
    ensures forall k | 0 <= k < 3 :: Column(v, row, first, cnt, tmp, k)
  {
    var t := new Word[3 * cnt](_ => WordOf(0));
    var k := 0;
    while k < 3
      invariant 0 <= k <= 3
      invariant forall j | 0 <= j < k :: Column(v, row, first, cnt, t[..], j)
    {
      FillColumn(v, row, first, cnt, t, k);
      k := k + 1;
    }
    tmp := t[..];
  }

  predicate OtherColumn(was: seq<Word>, now: seq<Word>, j: nat, i: nat) {
    3 * i + j < |was| == |now| && now[3 * i + j] == was[3 * i + j]
  }

  lemma {:induction false} Apart(i: nat, j: nat, l: nat, k: nat)
    requires j < k < 3
    ensures 3 * i + j != 3 * l + k
  {
  }

  method FillColumn(v: array2<Word>, row: nat, first: nat, cnt: nat, t: array<Word>, k: nat)
    requires row + k < v.Length0 && first + cnt <= v.Length1 && k < 3 && t.Length == 3 * cnt
    modifies t
    ensures Column(v, row, first, cnt, t[..], k)
    ensures forall j | 0 <= j < k :: old(Column(v, row, first, cnt, t[..], j)) ==> Column(v, row, first, cnt, t[..], j)
  {
    ghost var was := t[..];
    var l := 0;
    while l < cnt
      invariant 0 <= l <= cnt
      invariant forall j | 0 <= j < l :: t[3 * j + k] == v[row + k, first + j]
      invariant forall j, i | 0 <= j < k && 0 <= i < cnt :: OtherColumn(was, t[..], j, i)
    {
      ghost var mid := t[..];
      t[3 * l + k] := v[row + k, first + l];
      forall j, i | 0 <= j < k && 0 <= i < cnt
        ensures OtherColumn(was, t[..], j, i)
      {
        assert OtherColumn(was, mid, j, i);
        Apart(i, j, l, k);
      }
      l := l + 1;
    }
    forall j | 0 <= j < k && Column(v, row, first, cnt, was, j)
      ensures Column(v, row, first, cnt, t[..], j)
    {
      forall i | 0 <= i < cnt
        ensures t[..][3 * i + j] == v[row + j, first + i]
      {
        assert OtherColumn(was, t[..], j, i);
      }
    }
  }
}
