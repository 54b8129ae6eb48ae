/** What every write of the older ufs answers, marks and stores, however many runs it takes. */
module OldAnswers {
  import opened Runs
  import opened Disk
  import opened FileData
  import opened OldUfs
  import opened OldLinks
  import LaterRuns

  // ---- answers

  /** An offset behind the recorded size is refused; otherwise the write fails exactly when the
      sizes of the file's blocks do not reach the offset. Neither writes anything. Else it answers
      the number of bytes, and the recorded size is where they end, also where the file was longer. */
  lemma WriteCodes(blk: seq<Block>, used: set<int>, max: nat, c: seq<int>, fsize: nat, buf: seq<byte>, offset: nat)
    requires Callable(blk, used, max, c, buf, offset)
    ensures var (blk', used', r, fsize') := Write(blk, used, max, c, fsize, buf, offset);
      && r == (if offset > fsize then -EFBIG else if offset > Sum(blk, c) then -1 else |buf|)
      && (r < 0 ==> blk' == blk && used' == used && fsize' == fsize)
      && (r >= 0 ==> fsize' == offset + |buf|)
  {
    hide NeverStuck, LayRuns, Sound;
    CallableSound(blk, used, max, c, buf, offset);
    WalkReaches(blk, c, offset);
    WalkStops(blk, c, offset);
  }

  lemma CallableSound(blk: seq<Block>, used: set<int>, max: nat, c: seq<int>, buf: seq<byte>, offset: nat)
    requires Callable(blk, used, max, c, buf, offset)
    ensures c != []
  {
  }

  lemma {:induction false} WalkReaches(blk: seq<Block>, c: seq<int>, offset: nat)
    requires c != []
    ensures Walk(blk, c, offset).0 < |c| <==> offset <= Sum(blk, c)
    decreases |c|
  {
    if offset > SizeAt(blk, c[0]) {
      if |c| == 1 {
        assert c[1..] == [];
      } else {
        WalkReaches(blk, c[1..], offset - SizeAt(blk, c[0]));
      }
    }
  }

  /** A write that stays inside its block gives back exactly the blocks behind it and changes no
      other block. */
  lemma WriteCutsOff(blk: seq<Block>, used: set<int>, max: nat, c: seq<int>, fsize: nat, buf: seq<byte>, offset: nat)
    requires Callable(blk, used, max, c, buf, offset) && offset <= fsize && offset <= Sum(blk, c)
    requires Beyond(blk, c, buf, offset) == []
    ensures var (blk', used', _, _) := Write(blk, used, max, c, fsize, buf, offset); var k := Walk(blk, c, offset).0;
      && k < |c| && 0 <= c[k] < |blk| && used' == used - SetOf(c[k + 1..]) && blk'[c[k]].next == -1
      && forall x :: 0 <= x < |blk| && x != c[k] ==> blk'[x] == blk[x]
  {
    hide NeverStuck, LayRuns, IsChain, PatchedAt;
    Volume.WriteCases(blk, used, max, c, fsize, buf, offset);
    CallableSound(blk, used, max, c, buf, offset);
    WalkReaches(blk, c, offset);
    WalkStops(blk, c, offset);
  }

  // ---- what strncpy leaves of the bytes

  /** A NUL lies at or before position i, and not before position lo. */
  ghost predicate NulUpTo(src: seq<byte>, lo: int, i: int) {
    exists j :: 0 <= lo <= j <= i < |src| && src[j] == 0
  }

  lemma {:induction false} CopiedAt(src: seq<byte>, i: nat)
    requires i < |src|
    ensures Copied(src)[i] == if NulUpTo(src, 0, i) then 0 else src[i]
    decreases |src|
  {
    if src[0] != 0 && i > 0 {
      CopiedAt(src[1..], i - 1);
      if NulUpTo(src, 0, i) {
        var j :| 0 <= j <= i && src[j] == 0;
        assert src[1..][j - 1] == 0;
      }
      if NulUpTo(src[1..], 0, i - 1) {
        var j :| 0 <= j <= i - 1 && src[1..][j] == 0;
        assert src[j + 1] == 0;
      }
    }
  }

  /** Where the piece that byte i belongs to starts, if the first takes `room` bytes. */
  function PieceStart(room: nat, i: nat): (lo: nat)
    ensures lo <= i
  {
    if i < room then 0 else room + (i - room) / OLD_CAP * OLD_CAP
  }

  lemma {:induction false} PiecesAt(buf: seq<byte>, i: nat)
    requires i < |buf|
    ensures Pieces(buf)[i] == if NulUpTo(buf, PieceStart(0, i), i) then 0 else buf[i]
    decreases |buf|
  {
    hide Copied, NulUpTo;
    var n := Min(OLD_CAP, |buf|);
    if i < n {
      CopiedAt(buf[..n], i);
      SameNuls(buf, buf[..n], 0, 0, i);
    } else {
      hide PieceStart;
      StartLater(i);
      PiecesAt(buf[n..], i - n);
      SameNuls(buf, buf[n..], n, PieceStart(0, i - n), i - n);
    }
  }

  lemma StartLater(i: nat)
    requires i >= OLD_CAP
    ensures PieceStart(0, i) == OLD_CAP + PieceStart(0, i - OLD_CAP)
  {
  }

  lemma SameNuls(buf: seq<byte>, part: seq<byte>, n: nat, lo: nat, i: nat)
    requires n + |part| <= |buf| && part == buf[n..n + |part|] && i < |part|
    ensures part[i] == buf[n + i] && (NulUpTo(part, lo, i) <==> NulUpTo(buf, n + lo, n + i))
  {
    if NulUpTo(part, lo, i) {
      var j :| lo <= j <= i && part[j] == 0;
      assert buf[n + j] == 0;
    }
    if NulUpTo(buf, n + lo, n + i) {
      var j :| n + lo <= j <= n + i && buf[j] == 0;
      assert part[j - n] == 0;
    }
  }

  /** Byte by byte: a byte arrives unless a NUL lies before it in its piece, and then a NUL does. */
  lemma ReceivedAt(room: nat, buf: seq<byte>, i: nat)
    requires i < |buf|
    ensures Received(room, buf)[i] == if NulUpTo(buf, PieceStart(room, i), i) then 0 else buf[i]
  {
    var n := Min(room, |buf|);
    if i < n {
      CopiedAt(buf[..n], i);
      SameNuls(buf, buf[..n], 0, 0, i);
    } else {
      PiecesAt(buf[n..], i - n);
      SameNuls(buf, buf[n..], n, PieceStart(0, i - n), i - n);
    }
  }

  // ---- run after run

  /** The i-th 504 bytes of a buffer. */
  function Piece(buf: seq<byte>, i: nat): (r: seq<byte>)
    ensures |r| <= OLD_CAP
  {
    buf[Min(|buf|, OLD_CAP * i)..Min(|buf|, OLD_CAP * (i + 1))]
  }

  /** Block x holds piece i as strncpy left it, and leads to the block with the next number unless
      this is the last piece. */
  ghost predicate PieceAt(b: Block, buf: seq<byte>, i: nat, x: int) {
    && b.size == |Piece(buf, i)| <= |b.data| && b.data[..b.size] == Copied(Piece(buf, i))
    && b.next == if |buf| <= OLD_CAP * (i + 1) then -1 else x + 1
  }

  ghost predicate Lays(blk: seq<Block>, buf: seq<byte>, d: seq<int>) {
    forall i :: 0 <= i < |d| ==> 0 <= d[i] < |blk| && PieceAt(blk[d[i]], buf, i, d[i])
  }

  function LeftAfter(buf: seq<byte>, n: nat): seq<byte> {
    buf[Min(|buf|, OLD_CAP * n)..]
  }

  lemma {:induction false} AfterRunIs(buf: seq<byte>, n: nat)
    ensures AfterRun(buf, n) == LeftAfter(buf, n)
    decreases n
  {
    if n > 0 {
      AfterRunIs(Left(buf), n - 1);
      assert Left(buf) == LeftAfter(buf, 1);
      LeftTwice(buf, 1, n - 1);
    }
  }

  lemma LeftTwice(buf: seq<byte>, n: nat, m: nat)
    ensures LeftAfter(LeftAfter(buf, n), m) == LeftAfter(buf, n + m)
  {
    if OLD_CAP * n < |buf| {
      assert Min(|buf|, OLD_CAP * (n + m)) == OLD_CAP * n + Min(|LeftAfter(buf, n)|, OLD_CAP * m);
    }
  }

  lemma LeftPiece(buf: seq<byte>, n: nat, i: nat)
    ensures Piece(LeftAfter(buf, n), i) == Piece(buf, n + i)
    ensures |LeftAfter(buf, n)| <= OLD_CAP * (i + 1) <==> |buf| <= OLD_CAP * (n + i + 1)
  {
    if OLD_CAP * n < |buf| {
      var r := LeftAfter(buf, n);
      assert Min(|buf|, OLD_CAP * (n + i)) == OLD_CAP * n + Min(|r|, OLD_CAP * i);
      assert Min(|buf|, OLD_CAP * (n + i + 1)) == OLD_CAP * n + Min(|r|, OLD_CAP * (i + 1));
      LaterRuns.SliceLater(buf, OLD_CAP * n, Min(|r|, OLD_CAP * i), Min(|r|, OLD_CAP * (i + 1)));
    }
  }

  lemma LaysMore(blk: seq<Block>, buf: seq<byte>, d: seq<int>, e: seq<int>)
    requires Lays(blk, buf, d) && Lays(blk, LeftAfter(buf, |d|), e)
    ensures Lays(blk, buf, d + e)
  {
    hide Piece, Copied;
    var f := d + e;
    forall i | 0 <= i < |f| ensures 0 <= f[i] < |blk| && PieceAt(blk[f[i]], buf, i, f[i]) {
      if i >= |d| {
        LeftPiece(buf, |d|, i - |d|);
        assert PieceAt(blk[e[i - |d|]], LeftAfter(buf, |d|), i - |d|, e[i - |d|]);
      }
    }
  }

  lemma LaidPiece(content: Block, buf: seq<byte>, b: int)
    requires |content.data| == OLD_CAP
    ensures PieceAt(Laid(content, buf, b), buf, 0, b) && Left(buf) == LeftAfter(buf, 1)
  {
    assert Piece(buf, 0) == buf[..Min(OLD_CAP, |buf|)];
    hide Copied;
  }

  /** The inner loop. */
  lemma {:induction false} LayRunLays(blk: seq<Block>, content: Block, buf: seq<byte>, b: int, n: nat)
    requires 0 <= b && b + n <= |blk| && |content.data| == OLD_CAP
    ensures Lays(LayRun(blk, content, buf, b, n).0, buf, RunSeq(b, n))
    decreases n
  {
    hide Laid, PieceAt, Piece;
    if n > 0 {
      var y, rest := Laid(content, buf, b), Left(buf);
      LaidPiece(content, buf, b);
      LayRunLays(blk[b := y], y, rest, b + 1, n - 1);
      LayRunAt(blk[b := y], y, rest, b + 1, n - 1, b);
      RunSeqTail(b, n);
      var blk' := LayRun(blk, content, buf, b, n).0;
      assert Lays(blk', buf, [b]);
      LaysMore(blk', buf, [b], RunSeq(b + 1, n - 1));
    }
  }

  /** The blocks d hold the pieces of the buffer, no other block has changed, and but for the first
      n of d, marked before, they are those that have been marked. */
  ghost predicate Spread(blk: seq<Block>, used: set<int>, blk': seq<Block>, used': set<int>, buf: seq<byte>,
                         d: seq<int>, n: nat) {
    && |blk'| == |blk| && used <= used' && n <= |d| && LaterRuns.Distinct(d) && Lays(blk', buf, d)
    && (forall x :: 0 <= x < |blk| && x !in d ==> blk'[x] == blk[x])
    && (forall i :: 0 <= i < n ==> d[i] in used) && SetOf(d[n..]) == used' - used
  }

  /** The outer loop: the blocks it marks hold the whole buffer. */
  lemma {:induction false} RunsLay(blk: seq<Block>, used: set<int>, max: nat, content: Block, buf: seq<byte>, r: Run)
      returns (d: seq<int>)
    requires |content.data| == OLD_CAP && r.len > 0 && 0 <= r.start && r.start + r.len <= |blk|
    requires max + Request(|buf|) <= |blk| && buf != [] && NeverStuck(used, max, AfterRun(buf, r.len))
    requires Blocks(r.start, r.len) <= used && r.len <= Request(|buf|)
    ensures var q := LayRuns(blk, used, max, content, buf, r);
      && Spread(blk, used, q.0, q.1, buf, d, r.len) && d[..r.len] == RunSeq(r.start, r.len)
      && |buf| <= OLD_CAP * |d| && |d| <= Request(|buf|)
    decreases |buf|
  {
    hide LayRun, Blocks, Best, IsBest, Spread, NeverStuck, AfterRun;
    var (blk1, content1, rest) := LayRun(blk, content, buf, r.start, r.len);
    AfterRunIs(buf, r.len);
    RunSpread(blk, used, content, buf, r);
    var run := RunSeq(r.start, r.len);
    if rest == [] {
      d := run;
      assert d[..r.len] == run;
    } else {
      NotStuck(used, max, rest);
      NewRun(used, max, rest);
      var r1 := Best(used, OLD_FIRST, max - 1, Request(|rest|));
      RequestRest(|buf|, r.len);
      var e := RunsLay(blk1, used + Blocks(r1.start, r1.len), max, content1, rest, r1);
      var q := LayRuns(blk1, used + Blocks(r1.start, r1.len), max, content1, rest, r1);
      d := run + e;
      assert d[..r.len] == run;
      SpreadMore(blk, blk1, used, q.0, q.1, buf, run, e, r1);
    }
  }

  lemma RequestRest(n: nat, len: nat)
    requires len <= Request(n) && n > OLD_CAP * len
    ensures Request(n - OLD_CAP * len) + len == Request(n)
  {
  }

  lemma RunSpread(blk: seq<Block>, used: set<int>, content: Block, buf: seq<byte>, r: Run)
    requires |content.data| == OLD_CAP && 0 <= r.start && r.start + r.len <= |blk| && Blocks(r.start, r.len) <= used
    ensures Spread(blk, used, LayRun(blk, content, buf, r.start, r.len).0, used, buf, RunSeq(r.start, r.len), r.len)
  {
    hide LayRun, Blocks, Lays;
    LayRunLays(blk, content, buf, r.start, r.len);
    LaterRuns.RunSet(r.start, r.len);
    forall x | 0 <= x < |blk| && x !in RunSeq(r.start, r.len)
      ensures LayRun(blk, content, buf, r.start, r.len).0[x] == blk[x]
    {
      LayRunAt(blk, content, buf, r.start, r.len, x);
    }
    assert RunSeq(r.start, r.len)[r.len..] == [];
  }

  lemma SpreadMore(blk: seq<Block>, blk1: seq<Block>, used: set<int>, blk': seq<Block>, used': set<int>, buf: seq<byte>,
                   d: seq<int>, e: seq<int>, r: Run)
    requires Spread(blk, used, blk1, used, buf, d, |d|)
    requires Spread(blk1, used + Blocks(r.start, r.len), blk', used', LeftAfter(buf, |d|), e, r.len)
    requires e[..r.len] == RunSeq(r.start, r.len) && forall x :: r.start <= x < r.start + r.len ==> x !in used
    ensures Spread(blk, used, blk', used', buf, d + e, |d|)
  {
    hide PieceAt, Blocks;
    var f := d + e;
    LaterRuns.LaterApart(used, used', e, r);
    forall i, j | 0 <= i < j < |f| ensures f[i] != f[j] {
      if i < |d| <= j {
        assert f[i] in used && f[j] == e[j - |d|];
      }
    }
    forall i | 0 <= i < |d| ensures 0 <= d[i] < |blk1| && blk'[d[i]] == blk1[d[i]] {
      assert d[i] in used && d[i] !in e;
    }
    forall x | 0 <= x < |blk| && x !in f ensures blk'[x] == blk[x] {
      assert x !in d && x !in e;
    }
    LaysMore(blk', buf, d, e);
    assert f[|d|..] == e;
  }

  /** Blocks that hold the pieces of the whole buffer hold it as strncpy left it. */
  lemma {:induction false} LaysText(blk: seq<Block>, buf: seq<byte>, d: seq<int>)
    requires Lays(blk, buf, d) && |buf| <= OLD_CAP * |d|
    ensures Text(blk, d) == Pieces(buf) && Sum(blk, d) == |buf|
    decreases |d|
  {
    hide Copied;
    if d != [] {
      var e, rest := d[1..], LeftAfter(buf, 1);
      forall i | 0 <= i < |e| ensures 0 <= e[i] < |blk| && PieceAt(blk[e[i]], rest, i, e[i]) {
        assert PieceAt(blk[d[i + 1]], buf, i + 1, d[i + 1]);
        LeftPiece(buf, 1, i);
      }
      LaysText(blk, rest, e);
      assert PieceAt(blk[d[0]], buf, 0, d[0]);
      assert Piece(buf, 0) == buf[..Min(OLD_CAP, |buf|)];
    }
  }

  /** A write that needs further blocks, whether or not it links them, marks blocks that were free,
      stores the bytes in them in order, as strncpy copies them, and changes nothing else but the
      offset's block. */
  lemma WriteLays(blk: seq<Block>, used: set<int>, max: nat, c: seq<int>, fsize: nat, buf: seq<byte>, offset: nat)
      returns (d: seq<int>)
    requires Callable(blk, used, max, c, buf, offset) && offset <= fsize && Beyond(blk, c, buf, offset) != []
    ensures var (blk', used', r, _) := Write(blk, used, max, c, fsize, buf, offset);
      var k, rest := Walk(blk, c, offset).0, Beyond(blk, c, buf, offset);
      && k < |c| && r == |buf| && |blk'| == |blk| && LaterRuns.Distinct(d) && used <= used' && SetOf(d) == used' - used
      && |d| <= Request(|rest|) && Text(blk', d) == Pieces(rest) && Sum(blk', d) == |rest|
      && forall x :: 0 <= x < |blk| && x !in d && x != c[k] ==> blk'[x] == blk[x]
  {
    hide LayRuns, IsChain, AfterRun, Best, IsBest, Blocks, PatchedAt, NeverStuck, Walk, Pieces, Text;
    Volume.WriteCases(blk, used, max, c, fsize, buf, offset);
    WriteRuns(blk, used, max, c, fsize, buf, offset);
    var k, rest := Walk(blk, c, offset).0, Beyond(blk, c, buf, offset);
    NewRun(used, max, rest);
    RequestBound(used, max, |rest|);
    var r := Best(used, OLD_FIRST, max - 1, Request(|rest|));
    var b := PatchedAt(blk[c[k]], Walk(blk, c, offset).1, buf).(next := r.start);
    var blk1, used1 := blk[c[k] := b], used + Blocks(r.start, r.len);
    d := RunsLay(blk1, used1, max, b, rest, r);
    var q := LayRuns(blk1, used1, max, b, rest, r);
    LaterRuns.LaterApart(used, q.1, d, r);
    LaysText(q.0, rest, d);
  }

  lemma RequestBound(used: set<int>, max: nat, n: nat)
    ensures Best(used, OLD_FIRST, max - 1, Request(n)).len <= Request(n)
  {
    BestMeans(used, OLD_FIRST, max - 1, Request(n));
  }
}
