/** What every write does to the disk, however many runs it takes and whether or not they suffice:
    block by block, and what it answers. */
module LaterRuns {
  import opened Runs
  import opened Disk
  import opened Tree
  import opened FileData
  import opened Creating
  import opened Writing
  import opened Appending

  /** The i-th 496 bytes of a buffer, as far as it goes. */
  function Piece(buf: seq<byte>, i: nat): (r: seq<byte>)
    ensures |r| <= CAP
  {
    buf[Min(|buf|, CAP * i)..Min(|buf|, CAP * (i + 1))]
  }

  /** Block x holds piece i over what the block before it holds, and leads to the block with the
      next number unless this is the last piece. */
  ghost predicate PieceAt(b: Block, before: seq<byte>, buf: seq<byte>, i: nat, x: int) {
    && |before| == CAP && b.data == Overlay(before, 0, Piece(buf, i)) && b.slots == Entries(b.data)
    && b.size == |Piece(buf, i)| && b.next == if |buf| <= CAP * (i + 1) then -1 else x + 1
  }

  /** The block before the i-th: the program reuses one buffer. */
  function Previous(blk: seq<Block>, before: seq<byte>, d: seq<int>, i: nat): seq<byte>
    requires i <= |d|
  {
    if i == 0 then before else DataAt(blk, d[i - 1])
  }

  /** The blocks d hold the pieces of the buffer, one after the other. */
  ghost predicate Lays(blk: seq<Block>, before: seq<byte>, buf: seq<byte>, d: seq<int>) {
    && |before| == CAP
    && forall i :: 0 <= i < |d| ==> 0 <= d[i] < |blk| && PieceAt(blk[d[i]], Previous(blk, before, d, i), buf, i, d[i])
  }

  /** What n blocks leave of the buffer. */
  function LeftAfter(buf: seq<byte>, n: nat): seq<byte> {
    buf[Min(|buf|, CAP * n)..]
  }

  lemma LeftPiece(buf: seq<byte>, n: nat, i: nat)
    ensures Piece(LeftAfter(buf, n), i) == Piece(buf, n + i)
    ensures |LeftAfter(buf, n)| <= CAP * (i + 1) <==> |buf| <= CAP * (n + i + 1)
  {
    if CAP * n < |buf| {
      var r := LeftAfter(buf, n);
      assert r == buf[CAP * n..];
      assert Min(|buf|, CAP * (n + i)) == CAP * n + Min(|r|, CAP * i);
      assert Min(|buf|, CAP * (n + i + 1)) == CAP * n + Min(|r|, CAP * (i + 1));
      SliceLater(buf, CAP * n, Min(|r|, CAP * i), Min(|r|, CAP * (i + 1)));
    }
  }

  lemma SliceLater<T>(t: seq<T>, n: nat, i: nat, j: nat)
    requires i <= j && n + j <= |t|
    ensures t[n..][i..j] == t[n + i..n + j]
  {
  }

  lemma LaysAt(blk: seq<Block>, before: seq<byte>, buf: seq<byte>, d: seq<int>, i: nat)
    requires Lays(blk, before, buf, d) && i < |d|
    ensures 0 <= d[i] < |blk| && PieceAt(blk[d[i]], Previous(blk, before, d, i), buf, i, d[i])
  {
    hide PieceAt, Previous;
  }

  /** Blocks that go on where others end. */
  lemma LaysMore(blk: seq<Block>, before: seq<byte>, buf: seq<byte>, d: seq<int>, e: seq<int>)
    requires Lays(blk, before, buf, d) && Lays(blk, Previous(blk, before, d, |d|), LeftAfter(buf, |d|), e)
    ensures Lays(blk, before, buf, d + e)
  {
    hide PieceAt, Previous, LeftAfter, Piece;
    var f := d + e;
    forall i | 0 <= i < |f|
      ensures 0 <= f[i] < |blk| && PieceAt(blk[f[i]], Previous(blk, before, f, i), buf, i, f[i])
    {
      MoreAt(blk, before, buf, d, e, i);
    }
  }

  lemma MoreAt(blk: seq<Block>, before: seq<byte>, buf: seq<byte>, d: seq<int>, e: seq<int>, i: nat)
    requires Lays(blk, before, buf, d) && Lays(blk, Previous(blk, before, d, |d|), LeftAfter(buf, |d|), e)
    requires i < |d + e|
    ensures var f := d + e;
      0 <= f[i] < |blk| && PieceAt(blk[f[i]], Previous(blk, before, f, i), buf, i, f[i])
  {
    hide PieceAt, Previous, LeftAfter, Piece, Lays;
    if i < |d| {
      LaysAt(blk, before, buf, d, i);
      PreviousSame(blk, before, d, e, i);
    } else {
      var j := i - |d|;
      LaysAt(blk, Previous(blk, before, d, |d|), LeftAfter(buf, |d|), e, j);
      PreviousLater(blk, before, d, e, j);
      LeftPiece(buf, |d|, j);
      SamePiece(blk[e[j]], Previous(blk, before, d + e, i), LeftAfter(buf, |d|), j, buf, i, e[j]);
    }
  }

  lemma PreviousSame(blk: seq<Block>, before: seq<byte>, d: seq<int>, e: seq<int>, i: nat)
    requires i < |d|
    ensures (d + e)[i] == d[i] && Previous(blk, before, d + e, i) == Previous(blk, before, d, i)
  {
  }

  lemma PreviousLater(blk: seq<Block>, before: seq<byte>, d: seq<int>, e: seq<int>, j: nat)
    requires j < |e|
    ensures (d + e)[|d| + j] == e[j]
    ensures Previous(blk, before, d + e, |d| + j) == Previous(blk, Previous(blk, before, d, |d|), e, j)
  {
    if j > 0 {
      assert (d + e)[|d| + j - 1] == e[j - 1];
    }
  }

  lemma SamePiece(b: Block, before: seq<byte>, buf: seq<byte>, i: nat, buf': seq<byte>, i': nat, x: int)
    requires PieceAt(b, before, buf, i, x) && Piece(buf, i) == Piece(buf', i')
    requires |buf| <= CAP * (i + 1) <==> |buf'| <= CAP * (i' + 1)
    ensures PieceAt(b, before, buf', i', x)
  {
  }

  lemma LaysFrame(blk: seq<Block>, blk': seq<Block>, before: seq<byte>, buf: seq<byte>, d: seq<int>)
    requires Lays(blk, before, buf, d) && |blk| <= |blk'| && forall i :: 0 <= i < |d| ==> blk'[d[i]] == blk[d[i]]
    ensures Lays(blk', before, buf, d)
  {
    hide PieceAt;
    forall i | 0 <= i < |d| ensures PieceAt(blk'[d[i]], Previous(blk', before, d, i), buf, i, d[i]) {
      assert Previous(blk', before, d, i) == Previous(blk, before, d, i);
    }
  }

  // ---- one run

  lemma FilledPiece(content: Block, buf: seq<byte>, b: int)
    requires WfBlock(content)
    ensures PieceAt(Filled(content, buf, b), content.data, buf, 0, b) && Rest(buf) == LeftAfter(buf, 1)
  {
    hide Entries, Overlay;
    assert Piece(buf, 0) == buf[..Min(CAP, |buf|)];
  }

  lemma LaysOne(blk: seq<Block>, before: seq<byte>, buf: seq<byte>, b: int)
    requires 0 <= b < |blk| && PieceAt(blk[b], before, buf, 0, b)
    ensures Lays(blk, before, buf, [b])
  {
  }

  /** The inner loop leaves a run of such blocks, those behind the last bytes included. */
  lemma {:induction false} FillRunLays(blk: seq<Block>, content: Block, buf: seq<byte>, b: int, n: nat)
    requires 0 <= b && b + n <= |blk| && WfBlock(content)
    ensures var q := FillRun(blk, content, buf, b, n);
      && Lays(q.0, content.data, buf, RunSeq(b, n)) && q.1.data == Previous(q.0, content.data, RunSeq(b, n), n)
      && q.2 == LeftAfter(buf, n)
    decreases n
  {
    hide Filled, FillRun, PieceAt, Piece, Lays;
    FillRunRest(blk, content, buf, b, n);
    if n == 0 {
      LaysNone(blk, content.data, buf);
      FillNone(blk, content, buf, b);
      assert RunSeq(b, 0) == [];
    } else {
      var y, rest := Filled(content, buf, b), Rest(buf);
      FillRunUnfold(blk, content, buf, b, n);
      FilledPiece(content, buf, b);
      FillRunLays(blk[b := y], y, rest, b + 1, n - 1);
      var q := FillRun(blk[b := y], y, rest, b + 1, n - 1);
      FillRunAt(blk[b := y], y, rest, b + 1, n - 1, b);
      LaysOne(q.0, content.data, buf, b);
      RunSeqTail(b, n);
      LaysMore(q.0, content.data, buf, [b], RunSeq(b + 1, n - 1));
    }
  }

  lemma LaysNone(blk: seq<Block>, before: seq<byte>, buf: seq<byte>)
    requires |before| == CAP
    ensures Lays(blk, before, buf, [])
  {
  }

  lemma FillNone(blk: seq<Block>, content: Block, buf: seq<byte>, b: int)
    requires 0 <= b <= |blk| && WfBlock(content)
    ensures FillRun(blk, content, buf, b, 0) == (blk, content, buf)
  {
  }

  // ---- run after run

  ghost predicate Distinct(d: seq<int>) {
    forall i, j :: 0 <= i < j < |d| ==> d[i] != d[j]
  }

  lemma RunSet(b: int, n: nat)
    ensures SetOf(RunSeq(b, n)) == Blocks(b, n) && Distinct(RunSeq(b, n))
  {
    forall x | b <= x < b + n ensures x in RunSeq(b, n) {
      assert RunSeq(b, n)[x - b] == x;
    }
  }

  /** From disk blk with marks `used` to disk blk' with marks used': the blocks d hold the pieces of
      the buffer, no other block has changed, and but for the first n of d, marked before, they are
      those that have been marked. */
  ghost predicate Spread(blk: seq<Block>, used: set<int>, blk': seq<Block>, used': set<int>, before: seq<byte>,
                         buf: seq<byte>, d: seq<int>, n: nat) {
    && |blk'| == |blk| && used <= used' && n <= |d| && Distinct(d) && Lays(blk', before, buf, d)
    && (forall x :: 0 <= x < |blk| && x !in d ==> blk'[x] == blk[x])
    && (forall i :: 0 <= i < n ==> d[i] in used) && SetOf(d[n..]) == used' - used
  }

  /** The outer loop. It fails exactly when the runs it finds hold too little, and then no start is
      left; it never marks more than one search for all would; each run is the best for what the
      runs before it have left. */
  lemma {:induction false} RunsLay(blk: seq<Block>, used: set<int>, max: nat, content: Block, buf: seq<byte>, r: Run)
      returns (d: seq<int>)
    requires WfBlock(content) && r.len > 0 && 0 <= r.start && r.start + r.len <= |blk|
    requires max + Asked(|buf|) <= |blk| && buf != [] && Blocks(r.start, r.len) <= used && r.len <= Asked(|buf|)
    ensures var q := AppendRuns(blk, used, max, content, buf, r);
      && Spread(blk, used, q.0, q.1, content.data, buf, d, r.len) && d[..r.len] == RunSeq(r.start, r.len)
      && (q.2 == if |buf| <= CAP * |d| then 0 else -1)
      && |d| <= Asked(|buf|) && (q.2 == -1 ==> forall b :: FIRST <= b < max - 1 ==> b in q.1)
    ensures NextIsBest(used, max, |LeftAfter(buf, r.len)|, d, r.len)
    decreases |buf|
  {
    hide FillRun, Blocks, Best, IsBest, Spread, AppendRuns, WfBlock, NextIsBest;
    var (blk1, content1, rest) := FillRun(blk, content, buf, r.start, r.len);
    FillRunLays(blk, content, buf, r.start, r.len);
    RunSpread(blk, used, content, buf, r);
    var run := RunSeq(r.start, r.len);
    AppendUnfold(blk, used, max, content, buf, r);
    var r1 := Best(used, FIRST, max - 1, Asked(|rest|));
    if rest == [] || r1.len < 1 {
      d := run;
      assert d[..r.len] == run;
      NothingNext(used, max, |rest|, d);
      if rest != [] {
        NoneLeft(used, max, Asked(|rest|));
      }
    } else {
      NextRun(used, max, Asked(|rest|));
      AskedRest(|buf|, r.len);
      var e := RunsLay(blk1, used + Blocks(r1.start, r1.len), max, content1, rest, r1);
      var q := AppendRuns(blk1, used + Blocks(r1.start, r1.len), max, content1, rest, r1);
      SpreadIs(blk1, used + Blocks(r1.start, r1.len), q.0, q.1, content1.data, rest, e, r1.len);
      d := run + e;
      assert d[..r.len] == run;
      NextComes(used, max, |rest|, run, e);
      SpreadMore(blk, blk1, used, q.0, q.1, content.data, buf, run, e, r1);
    }
  }

  /** Behind the first n blocks come those of the best run, if any. */
  ghost predicate NextIsBest(used: set<int>, max: nat, left: nat, d: seq<int>, n: nat) {
    |d| > n ==>
      var r := Best(used, FIRST, max - 1, Asked(left));
      r.len <= |d| - n && d[n..n + r.len] == RunSeq(r.start, r.len)
  }

  lemma NothingNext(used: set<int>, max: nat, left: nat, d: seq<int>)
    ensures NextIsBest(used, max, left, d, |d|)
  {
  }

  lemma NextComes(used: set<int>, max: nat, left: nat, d: seq<int>, e: seq<int>)
    requires var r := Best(used, FIRST, max - 1, Asked(left)); r.len <= |e| && e[..r.len] == RunSeq(r.start, r.len)
    ensures NextIsBest(used, max, left, d + e, |d|)
  {
    var r := Best(used, FIRST, max - 1, Asked(left));
    assert (d + e)[|d|..|d| + r.len] == e[..r.len];
  }

  lemma AppendUnfold(blk: seq<Block>, used: set<int>, max: nat, content: Block, buf: seq<byte>, r: Run)
    requires WfBlock(content) && r.len > 0 && 0 <= r.start && r.start + r.len <= |blk|
    requires max + Asked(|buf|) <= |blk| && buf != []
    ensures var (blk1, content1, rest) := FillRun(blk, content, buf, r.start, r.len);
      var r1 := Best(used, FIRST, max - 1, Asked(|rest|));
      && rest == LeftAfter(buf, r.len)
      && (rest == [] ==> AppendRuns(blk, used, max, content, buf, r) == (blk1, used, 0))
      && (rest != [] && r1.len < 1 ==> AppendRuns(blk, used, max, content, buf, r) == (blk1, used, -1))
      && (rest != [] && r1.len >= 1 ==>
            && 0 <= r1.start && r1.start + r1.len <= |blk| && max + Asked(|rest|) <= |blk| && |rest| < |buf|
            && AppendRuns(blk, used, max, content, buf, r)
               == AppendRuns(blk1, used + Blocks(r1.start, r1.len), max, content1, rest, r1))
  {
    hide FillRun, Blocks, Best, IsBest;
    FillRunRest(blk, content, buf, r.start, r.len);
    var rest := FillRun(blk, content, buf, r.start, r.len).2;
    NextRun(used, max, Asked(|rest|));
  }

  lemma NextRun(used: set<int>, max: nat, n: nat)
    requires n > 0
    ensures var r := Best(used, FIRST, max - 1, n);
      && r.len <= n && (r.len > 0 ==> FIRST <= r.start < max - 1)
      && forall x :: r.start <= x < r.start + r.len ==> x !in used
  {
    BestMeans(used, FIRST, max - 1, n);
  }

  lemma NoneLeft(used: set<int>, max: nat, n: nat)
    requires n > 0 && Best(used, FIRST, max - 1, n).len < 1
    ensures forall b :: FIRST <= b < max - 1 ==> b in used
  {
    BestMeans(used, FIRST, max - 1, n);
  }

  lemma AskedRest(n: nat, len: nat)
    requires len <= Asked(n) && n > CAP * len
    ensures Asked(n - CAP * len) + len == Asked(n)
  {
  }

  lemma RunSpread(blk: seq<Block>, used: set<int>, content: Block, buf: seq<byte>, r: Run)
    requires WfBlock(content) && 0 <= r.start && r.start + r.len <= |blk| && Blocks(r.start, r.len) <= used
    ensures Spread(blk, used, FillRun(blk, content, buf, r.start, r.len).0, used, content.data, buf,
                   RunSeq(r.start, r.len), r.len)
  {
    hide FillRun, Blocks, Lays, WfBlock;
    FillRunLays(blk, content, buf, r.start, r.len);
    RunSet(r.start, r.len);
    forall x | 0 <= x < |blk| && x !in RunSeq(r.start, r.len)
      ensures FillRun(blk, content, buf, r.start, r.len).0[x] == blk[x]
    {
      FillRunAt(blk, content, buf, r.start, r.len, x);
    }
    assert RunSeq(r.start, r.len)[r.len..] == [];
  }

  lemma SpreadMore(blk: seq<Block>, blk1: seq<Block>, used: set<int>, blk': seq<Block>, used': set<int>,
                   before: seq<byte>, buf: seq<byte>, d: seq<int>, e: seq<int>, r: Run)
    requires Spread(blk, used, blk1, used, before, buf, d, |d|)
    requires Spread(blk1, used + Blocks(r.start, r.len), blk', used', Previous(blk1, before, d, |d|),
                    LeftAfter(buf, |d|), e, r.len)
    requires e[..r.len] == RunSeq(r.start, r.len) && forall x :: r.start <= x < r.start + r.len ==> x !in used
    ensures Spread(blk, used, blk', used', before, buf, d + e, |d|)
  {
    hide Lays, Blocks;
    var f := d + e;
    LaterApart(used, used', e, r);
    forall i, j | 0 <= i < j < |f| ensures f[i] != f[j] {
      if i < |d| <= j {
        assert f[i] in used && f[j] == e[j - |d|];
      }
    }
    LaysRange(blk1, before, buf, d);
    forall i | 0 <= i < |d| ensures blk'[d[i]] == blk1[d[i]] {
      assert d[i] in used && d[i] !in e;
    }
    forall x | 0 <= x < |blk| && x !in f ensures blk'[x] == blk[x] {
      assert x !in d && x !in e;
    }
    LaysFrame(blk1, blk', before, buf, d);
    assert Previous(blk', before, d, |d|) == Previous(blk1, before, d, |d|);
    LaysMore(blk', before, buf, d, e);
    assert f[|d|..] == e;
  }

  lemma LaysRange(blk: seq<Block>, before: seq<byte>, buf: seq<byte>, d: seq<int>)
    requires Lays(blk, before, buf, d)
    ensures forall i :: 0 <= i < |d| ==> 0 <= d[i] < |blk|
  {
  }

  lemma LaterApart(used: set<int>, used': set<int>, e: seq<int>, r: Run)
    requires r.len <= |e| && e[..r.len] == RunSeq(r.start, r.len)
    requires SetOf(e[r.len..]) == used' - (used + Blocks(r.start, r.len)) && used + Blocks(r.start, r.len) <= used'
    requires forall x :: r.start <= x < r.start + r.len ==> x !in used
    ensures SetOf(e) == used' - used && forall i :: 0 <= i < |e| ==> e[i] !in used
  {
    hide Blocks;
    RunSet(r.start, r.len);
    assert e == e[..r.len] + e[r.len..];
    forall x ensures x in e <==> x in used' - used {
      assert x in e <==> x in e[..r.len] || x in e[r.len..];
      assert x in e[..r.len] <==> x in SetOf(e[..r.len]);
      assert x in e[r.len..] <==> x in SetOf(e[r.len..]);
    }
  }

  // ---- the payload

  /** Blocks that hold the pieces hold the bytes, as many as there is room for, in order; and their
      sizes add up to that many. */
  lemma {:induction false} LaysHolds(blk: seq<Block>, before: seq<byte>, buf: seq<byte>, d: seq<int>)
    requires Lays(blk, before, buf, d)
    ensures |Content(blk, d)| == CAP * |d|
    ensures var n := Min(|buf|, CAP * |d|); Content(blk, d)[..n] == buf[..n] && Sizes(blk, d) == n
    decreases |d|
  {
    hide PieceAt;
    if d != [] {
      LaysHead(blk, before, buf, d);
      var x, rest, n := d[0], LeftAfter(buf, 1), Min(|buf|, CAP * |d|);
      LaysHolds(blk, blk[x].data, rest, d[1..]);
      var u := Content(blk, d[1..]);
      assert Content(blk, d) == blk[x].data + u;
      if |buf| <= CAP {
        assert (blk[x].data + u)[..n] == blk[x].data[..n];
      } else {
        assert (blk[x].data + u)[..n] == blk[x].data + u[..n - CAP];
        assert buf[..n] == buf[..CAP] + rest[..n - CAP];
      }
    }
  }

  function Sizes(blk: seq<Block>, c: seq<int>): nat {
    if c == [] then 0 else (if 0 <= c[0] < |blk| then blk[c[0]].size else 0) + Sizes(blk, c[1..])
  }

  lemma LaysHead(blk: seq<Block>, before: seq<byte>, buf: seq<byte>, d: seq<int>)
    requires Lays(blk, before, buf, d) && d != []
    ensures 0 <= d[0] < |blk| && |blk[d[0]].data| == CAP && Lays(blk, blk[d[0]].data, LeftAfter(buf, 1), d[1..])
    ensures var n := Min(|buf|, CAP); blk[d[0]].size == n && blk[d[0]].data[..n] == buf[..n]
  {
    hide Entries, PieceAt;
    PieceData(blk[d[0]], before, buf, d[0]);
    var e := d[1..];
    forall i | 0 <= i < |e|
      ensures 0 <= e[i] < |blk| && PieceAt(blk[e[i]], Previous(blk, blk[d[0]].data, e, i), LeftAfter(buf, 1), i, e[i])
    {
      assert e[i] == d[i + 1];
      LeftPiece(buf, 1, i);
      SamePiece(blk[e[i]], Previous(blk, before, d, i + 1), buf, i + 1, LeftAfter(buf, 1), i, e[i]);
    }
  }

  lemma PieceData(b: Block, before: seq<byte>, buf: seq<byte>, x: int)
    requires PieceAt(b, before, buf, 0, x)
    ensures |b.data| == CAP && b.size == Min(|buf|, CAP) && b.data[..Min(|buf|, CAP)] == buf[..Min(|buf|, CAP)]
  {
    hide Entries;
    assert Piece(buf, 0) == buf[..Min(|buf|, CAP)];
  }

  // ---- the whole write

  /** A write to a file that does not fit the offset's block. */
  ghost predicate Spills(s: Fs, o: int, buf: seq<byte>, offset: nat) {
    && Ok(s) && o in s.objs && !s.objs[o].isDir && Room(s, buf)
    && offset / CAP < |Chain(s, o)| && Surplus(offset % CAP, buf) != []
  }

  /** A write that needs further blocks, covered or not, marks blocks that were free and lays the
      bytes into them, in order, and changes nothing else but the offset's block, which leads to
      the first of them. It fails exactly when the blocks it could mark hold too little. */
  lemma WriteLays(s: Fs, o: int, buf: seq<byte>, offset: nat) returns (d: seq<int>)
    requires Spills(s, o, buf, offset)
    ensures var q, c, k, rest := WriteDisk(s, o, buf, offset), Chain(s, o), offset / CAP, Surplus(offset % CAP, buf);
      && 0 <= c[k] < |s.blk| && WfBlock(s.blk[c[k]]) && c[k] !in d
      && (q.2 == if CAP * |q.1 - s.used| < |rest| then -1 else 0)
      && (q.2 == -1 ==> forall b :: FIRST <= b < s.max - 1 ==> b in q.1)
      && |d| == |q.1 - s.used| <= Asked(|rest|) && s.used <= q.1 && SetOf(d) == q.1 - s.used
      && var b := Patched(s.blk[c[k]], offset % CAP, buf);
         && Lays(q.0, b.data, rest, d)
         && q.0[c[k]] == (if d == [] then s.blk[c[k]] else b.(next := d[0]))
         && forall x :: 0 <= x < |s.blk| && x !in d && x != c[k] ==> q.0[x] == s.blk[x]
    ensures var r := FirstRun(s, offset % CAP, buf);
      (d == [] <==> r.len < 1) && (d != [] ==> r.len <= |d| && d[..r.len] == RunSeq(r.start, r.len))
  {
    hide Ok, WriteDisk, AppendRuns, FirstRun, Blocks, Spread, Patched, Lays, Best, IsBest;
    var c, k, off := Chain(s, o), offset / CAP, offset % CAP;
    var rest, r := Surplus(off, buf), FirstRun(s, off, buf);
    FileBlock(s, o, c[k]);
    if r.len < 1 {
      d := [];
      NoFirstRun(s, o, buf, offset);
      LaysNone(s.blk, Patched(s.blk[c[k]], off, buf).data, rest);
      assert s.used - s.used == {};
    } else {
      WriteDiskRuns(s, o, buf, offset);
      FirstIsNew(s, off, buf);
      var b := Patched(s.blk[c[k]], off, buf).(next := r.start);
      var blk1, used1 := s.blk[c[k] := b], s.used + Blocks(r.start, r.len);
      d := RunsLay(blk1, used1, s.max, b, rest, r);
      var q := WriteDisk(s, o, buf, offset);
      SpreadIs(blk1, used1, q.0, q.1, b.data, rest, d, r.len);
      LaterApart(s.used, q.1, d, r);
      DistinctCount(d);
      assert d[0] == d[..r.len][0] == r.start;
    }
  }

  lemma NoFirstRun(s: Fs, o: int, buf: seq<byte>, offset: nat)
    requires Spills(s, o, buf, offset) && FirstRun(s, offset % CAP, buf).len < 1
    ensures WriteDisk(s, o, buf, offset) == (s.blk, s.used, -1)
    ensures forall b :: FIRST <= b < s.max - 1 ==> b in s.used
  {
    hide Ok, AppendRuns, FirstRun;
    NoRun(s, offset % CAP, buf);
  }

  lemma NoRun(s: Fs, off: nat, buf: seq<byte>)
    requires FirstRun(s, off, buf).len < 1
    ensures forall b :: FIRST <= b < s.max - 1 ==> b in s.used
  {
    NoneLeft(s.used, s.max, Asked(|Surplus(off, buf)|));
  }

  lemma FirstIsNew(s: Fs, off: nat, buf: seq<byte>)
    requires Ok(s) && off < CAP && FirstRun(s, off, buf).len > 0 && Room(s, buf)
    ensures var r := FirstRun(s, off, buf);
      && 0 <= r.start && r.start + r.len <= |s.blk| && r.len <= Asked(|Surplus(off, buf)|)
      && forall x :: r.start <= x < r.start + r.len ==> x !in s.used
  {
    hide Ok;
    RunBounds(s, off, buf);
  }

  lemma SpreadIs(blk: seq<Block>, used: set<int>, blk': seq<Block>, used': set<int>, before: seq<byte>, buf: seq<byte>,
                 d: seq<int>, n: nat)
    requires Spread(blk, used, blk', used', before, buf, d, n)
    ensures |blk'| == |blk| && used <= used' && n <= |d| && Distinct(d) && Lays(blk', before, buf, d)
    ensures forall x :: 0 <= x < |blk| && x !in d ==> blk'[x] == blk[x]
    ensures SetOf(d[n..]) == used' - used
  {
    hide Lays;
  }

  lemma {:induction false} DistinctCount(d: seq<int>)
    requires Distinct(d)
    ensures |SetOf(d)| == |d|
    decreases |d|
  {
    if d != [] {
      DistinctCount(d[1..]);
      assert SetOf(d) == {d[0]} + SetOf(d[1..]);
    }
  }

  lemma FileBlock(s: Fs, o: int, b: int)
    requires Ok(s) && o in s.objs && !s.objs[o].isDir && b in Chain(s, o)
    ensures b in s.used && 0 <= b < |s.blk| && WfBlock(s.blk[b])
  {
    InChain(s, o, b);
    AllWf(s);
    assert IsDir(s, ROOT) && ObjOk(s, ROOT);
    assert Chain(s, ROOT)[0] == ROOT;
    if b == ROOT {
      InChain(s, ROOT, ROOT);
    }
  }
}
