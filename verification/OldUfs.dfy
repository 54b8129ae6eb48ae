/** u_fs_write of the older ufs, which finds the offset's block by subtracting block sizes. */
module OldUfs {
  import opened Runs
  import opened Bitmaps
  import opened Disk
  import opened FileData
  import Writing

  const OLD_CAP: nat := 504      // MAX_DATA_IN_BLOCK of the older layout
  const OLD_FIRST: nat := 1282   // where its search begins: 1 + MAX_BITMAP_IN_BLOCK + 1
  const EFBIG: int := 27

  function SizeAt(blk: seq<Block>, b: int): nat {
    if 0 <= b < |blk| then blk[b].size else 0
  }

  /** The bytes in use in a block. */
  function BytesAt(blk: seq<Block>, b: int): seq<byte> {
    if 0 <= b < |blk| then Take(blk[b].data, blk[b].size) else []
  }

  function Sum(blk: seq<Block>, c: seq<int>): nat {
    if c == [] then 0 else SizeAt(blk, c[0]) + Sum(blk, c[1..])
  }

  /** What the chain holds: data[..size] of its blocks, in order. */
  function Text(blk: seq<Block>, c: seq<int>): seq<byte> {
    if c == [] then [] else BytesAt(blk, c[0]) + Text(blk, c[1..])
  }

  /** The block the walk stops at, and what is left of the offset: block sizes are subtracted
      while the offset is beyond the block. */
  function Walk(blk: seq<Block>, c: seq<int>, offset: nat): (nat, nat) {
    if c == [] || offset <= SizeAt(blk, c[0]) then (0, offset)
    else var (k, off) := Walk(blk, c[1..], offset - SizeAt(blk, c[0])); (k + 1, off)
  }

  /** strncpy: up to the first NUL, then NULs. */
  function Copied(src: seq<byte>): (r: seq<byte>)
    ensures |r| == |src|
  {
    if src == [] then [] else if src[0] == 0 then seq(|src|, i => 0) else [src[0]] + Copied(src[1..])
  }

  /** The buffer is copied piece by piece, one per block: first what fits behind the offset,
      then OLD_CAP bytes at a time. */
  function Pieces(buf: seq<byte>): (r: seq<byte>)
    ensures |r| == |buf|
    decreases |buf|
  {
    if buf == [] then [] else Copied(buf[..Min(OLD_CAP, |buf|)]) + Pieces(buf[Min(OLD_CAP, |buf|)..])
  }

  function Received(room: nat, buf: seq<byte>): (r: seq<byte>)
    ensures |r| == |buf|
  {
    Copied(buf[..Min(room, |buf|)]) + Pieces(buf[Min(room, |buf|)..])
  }

  /** Blocks that n bytes take. */
  function Needed(n: nat): nat {
    if n == 0 then 0 else 1 + Needed(n - Min(OLD_CAP, n))
  }

  function Request(n: nat): nat {
    n / OLD_CAP + 1
  }

  function Laid(content: Block, buf: seq<byte>, b: int): (r: Block)
    requires |content.data| == OLD_CAP
    ensures |r.data| == OLD_CAP
  {
    var ret := Min(OLD_CAP, |buf|);
    Block(ret, if ret == |buf| then -1 else b + 1, Overlay(content.data, 0, Copied(buf[..ret])), content.slots)
  }

  function Left(buf: seq<byte>): seq<byte> {
    buf[Min(OLD_CAP, |buf|)..]
  }

  /** What a run of n blocks leaves of the buffer. */
  function AfterRun(buf: seq<byte>, n: nat): (r: seq<byte>)
    ensures |r| <= |buf| && (n > 0 && buf != [] ==> |r| < |buf|)
    decreases n
  {
    if n == 0 then buf else AfterRun(Left(buf), n - 1)
  }

  /** The inner loop. */
  function LayRun(blk: seq<Block>, content: Block, buf: seq<byte>, b: int, n: nat): (r: (seq<Block>, Block, seq<byte>))
    requires (n == 0 || (0 <= b && b + n <= |blk|)) && |content.data| == OLD_CAP
    ensures |r.0| == |blk| && |r.1.data| == OLD_CAP && r.2 == AfterRun(buf, n)
    decreases n
  {
    if n == 0 then (blk, content, buf)
    else LayRun(blk[b := Laid(content, buf, b)], Laid(content, buf, b), Left(buf), b + 1, n - 1)
  }

  /** Every search for room finds something. On a full disk the search answers 0, which the
      outer loop does not take for a failure: it would search for ever. */
  ghost predicate NeverStuck(used: set<int>, max: nat, buf: seq<byte>)
    decreases |buf|
  {
    buf != [] ==>
      var r := Best(used, OLD_FIRST, max - 1, Request(|buf|));
      r.len > 0 && NeverStuck(used + Blocks(r.start, r.len), max, AfterRun(buf, r.len))
  }

  /** The outer loop. */
  function LayRuns(blk: seq<Block>, used: set<int>, max: nat, content: Block, buf: seq<byte>, r: Run)
      : (q: (seq<Block>, set<int>))
    requires |content.data| == OLD_CAP && r.len > 0 && 0 <= r.start && r.start + r.len <= |blk|
    requires max + Request(|buf|) <= |blk| && buf != [] && NeverStuck(used, max, AfterRun(buf, r.len))
    ensures |q.0| == |blk|
    decreases |buf|
  {
    var (blk1, content1, rest) := LayRun(blk, content, buf, r.start, r.len);
    if rest == [] then (blk1, used)
    else
      var r1 := Best(used, OLD_FIRST, max - 1, Request(|rest|));
      LayRuns(blk1, used + Blocks(r1.start, r1.len), max, content1, rest, r1)
  }

  function PatchedAt(b: Block, off: nat, buf: seq<byte>): (r: Block)
    requires |b.data| == OLD_CAP && off <= OLD_CAP
    ensures |r.data| == OLD_CAP && r.next == b.next
  {
    var ret := Min(OLD_CAP - off, |buf|);
    b.(size := b.size + ret, data := Overlay(b.data, off, Copied(buf[..ret])))
  }

  function Remainder(off: nat, buf: seq<byte>): seq<byte>
    requires off <= OLD_CAP
  {
    buf[Min(OLD_CAP - off, |buf|)..]
  }

  /** A file: its chain, its recorded size, blocks that hold at most OLD_CAP bytes. */
  ghost predicate Sound(blk: seq<Block>, used: set<int>, max: nat, c: seq<int>) {
    && c != [] && IsChain(blk, c[0], c) && max <= |blk|
    && forall i :: 0 <= i < |c| ==> c[i] in used && |blk[c[i]].data| == OLD_CAP && blk[c[i]].size <= OLD_CAP
  }

  /** The bytes that do not fit into the offset's block. */
  function Beyond(blk: seq<Block>, c: seq<int>, buf: seq<byte>, offset: nat): seq<byte> {
    var (k, off) := Walk(blk, c, offset);
    if k < |c| && off <= OLD_CAP then Remainder(off, buf) else []
  }

  /** What the caller of a write guarantees: a file, and a device with room behind the file
      system's last block and, in the end, for the bytes. */
  ghost predicate Callable(blk: seq<Block>, used: set<int>, max: nat, c: seq<int>, buf: seq<byte>, offset: nat) {
    Sound(blk, used, max, c) && max + Request(|buf|) <= |blk| && NeverStuck(used, max, Beyond(blk, c, buf, offset))
  }

  /** The disk, the bitmap, the result and the recorded size after a write. */
  function Write(blk: seq<Block>, used: set<int>, max: nat, c: seq<int>, fsize: nat, buf: seq<byte>, offset: nat)
      : (q: (seq<Block>, set<int>, int, nat))
    requires Callable(blk, used, max, c, buf, offset)
    ensures |q.0| == |blk|
  {
    var (k, off) := Walk(blk, c, offset);
    WalkStops(blk, c, offset);
    if offset > fsize then (blk, used, -EFBIG, fsize)
    else if k >= |c| then (blk, used, -1, fsize)
    else
      var b, rest := PatchedAt(blk[c[k]], off, buf), Remainder(off, buf);
      if rest == [] then (blk[c[k] := b.(next := -1)], used - SetOf(c[k + 1..]), |buf|, offset + |buf|)
      else
        var r := Best(used, OLD_FIRST, max - 1, Request(|rest|));
        var (blk', used') := LayRuns(blk[c[k] := b.(next := r.start)], used + Blocks(r.start, r.len), max,
            b.(next := r.start), rest, r);
        (blk', used', |buf|, offset + |buf|)
  }

  // ---- the walk

  /** The walk stops at the first block whose end the offset does not pass. */
  lemma {:induction false} WalkStops(blk: seq<Block>, c: seq<int>, offset: nat)
    ensures var (k, off) := Walk(blk, c, offset);
      && k <= |c|
      && (k < |c| ==> off <= SizeAt(blk, c[k]) && Sum(blk, c[..k]) + off == offset && (k > 0 ==> off > 0))
      && (k == |c| ==> Sum(blk, c) + off == offset && (c != [] ==> off > 0))
    decreases |c|
  {
    if c != [] && offset > SizeAt(blk, c[0]) {
      WalkStops(blk, c[1..], offset - SizeAt(blk, c[0]));
      var k := Walk(blk, c[1..], offset - SizeAt(blk, c[0])).0;
      assert c[..k + 1][1..] == c[1..][..k];
    }
  }

  /** All blocks but the last hold cap bytes, and none holds more. */
  ghost predicate FullBut(blk: seq<Block>, c: seq<int>, cap: nat) {
    forall i :: 0 <= i < |c| ==> SizeAt(blk, c[i]) <= cap && (i < |c| - 1 ==> SizeAt(blk, c[i]) == cap)
  }

  lemma LessOne(n: nat, cap: nat)
    requires n >= cap > 0
    ensures (n - cap) / cap == n / cap - 1 && (n - cap) % cap == n % cap
  {
    var q, r := n / cap, n % cap;
    assert n == q * cap + r;
    assert n - cap == (q - 1) * cap + r by {
      assert (q - 1) * cap == q * cap - cap;
    }
    DivIs(n - cap, cap, q - 1, r);
  }

  lemma DivIs(n: int, cap: nat, q: int, r: nat)
    requires cap > 0 && n == q * cap + r && r < cap
    ensures n / cap == q && n % cap == r
  {
    var d := n / cap - q;
    assert n == (n / cap) * cap + n % cap;
    assert d * cap == r - n % cap by {
      assert d * cap == (n / cap) * cap - q * cap;
    }
    if d >= 1 {
      AtLeast(d, cap);
    } else if d <= -1 {
      AtLeast(-d, cap);
    }
  }

  lemma AtLeast(d: int, cap: nat)
    requires d >= 1
    ensures d * cap >= cap
  {
  }

  lemma FullTail(blk: seq<Block>, c: seq<int>, cap: nat)
    requires FullBut(blk, c, cap) && |c| > 0
    ensures FullBut(blk, c[1..], cap) && (|c| > 1 ==> SizeAt(blk, c[0]) == cap)
  {
    forall i | 0 <= i < |c[1..]|
      ensures SizeAt(blk, c[1..][i]) <= cap && (i < |c[1..]| - 1 ==> SizeAt(blk, c[1..][i]) == cap)
    {
      assert c[1..][i] == c[i + 1];
    }
  }

  /** Where an offset lies in a chain of full blocks: by division, but at a block boundary
      behind the byte before it. */
  function Spot(offset: nat, cap: nat): (nat, nat)
    requires cap > 0
  {
    if offset > 0 && offset % cap == 0 then (offset / cap - 1, cap) else (offset / cap, offset % cap)
  }

  lemma SpotStep(offset: nat, cap: nat)
    requires cap > 0
    ensures offset <= cap ==> Spot(offset, cap) == (0, offset)
    ensures offset > cap ==> Spot(offset, cap) == (Spot(offset - cap, cap).0 + 1, Spot(offset - cap, cap).1)
  {
    if offset < cap {
      DivIs(offset, cap, 0, offset);
    } else {
      LessOne(offset, cap);
    }
  }

  lemma SpotIs(offset: nat, cap: nat)
    requires cap > 0
    ensures cap * Spot(offset, cap).0 + Spot(offset, cap).1 == offset
  {
    var q := offset / cap;
    assert offset == q * cap + offset % cap;
    assert cap * (q - 1) == q * cap - cap;
  }

  lemma {:induction false} WalkIsSpot(blk: seq<Block>, c: seq<int>, cap: nat, offset: nat)
    requires c != [] && cap > 0 && FullBut(blk, c, cap) && offset <= Sum(blk, c)
    ensures Walk(blk, c, offset) == Spot(offset, cap) && Walk(blk, c, offset).0 < |c|
    decreases |c|
  {
    hide Spot, FullBut;
    SpotStep(offset, cap);
    FirstFits(blk, c, cap);
    if offset > SizeAt(blk, c[0]) {
      FullTail(blk, c, cap);
      WalkIsSpot(blk, c[1..], cap, offset - cap);
    }
  }

  lemma FirstFits(blk: seq<Block>, c: seq<int>, cap: nat)
    requires FullBut(blk, c, cap) && c != []
    ensures SizeAt(blk, c[0]) <= cap
  {
  }

  /** For every offset inside the file or at its end, the size-subtracting walk and the
      div/mod walk name the same byte of the chain, and the same place except at a block
      boundary: there the first stops at the end of the full block, while the second goes on
      to the next block, which at the very end of the file does not exist. */
  lemma WalkAgainstDivMod(blk: seq<Block>, c: seq<int>, cap: nat, offset: nat)
    requires c != [] && cap > 0 && FullBut(blk, c, cap) && offset <= Sum(blk, c)
    ensures var (k, off) := Walk(blk, c, offset);
      && k < |c| && cap * k + off == offset
      && ((k, off) != (offset / cap, offset % cap) <==> offset > 0 && offset % cap == 0)
      && (offset > 0 && offset % cap == 0 ==> (k, off) == (offset / cap - 1, cap))
      && (offset / cap >= |c| <==> k == |c| - 1 && off == cap)
  {
    WalkIsSpot(blk, c, cap, offset);
    SpotIs(offset, cap);
    hide Walk, FullBut;
  }

  // ---- the run

  lemma {:induction false} LayRunAt(blk: seq<Block>, content: Block, buf: seq<byte>, b: int, n: nat, x: int)
    requires 0 <= b && b + n <= |blk| && |content.data| == OLD_CAP && 0 <= x < |blk| && !(b <= x < b + n)
    ensures LayRun(blk, content, buf, b, n).0[x] == blk[x]
    decreases n
  {
    hide Laid;
    if n > 0 {
      LayRunAt(blk[b := Laid(content, buf, b)], Laid(content, buf, b), Left(buf), b + 1, n - 1, x);
    }
  }

  /** A run of full blocks, the last one not empty. */
  ghost predicate FullRun(blk: seq<Block>, c: seq<int>) {
    forall i :: 0 <= i < |c| ==>
      (0 <= c[i] < |blk| && |blk[c[i]].data| == OLD_CAP && 0 < blk[c[i]].size <= OLD_CAP
        && (i < |c| - 1 ==> blk[c[i]].size == OLD_CAP))
  }

  lemma FullRunCons(blk: seq<Block>, b: int, c: seq<int>)
    requires 0 <= b < |blk| && |blk[b].data| == OLD_CAP && 0 < blk[b].size <= OLD_CAP
    requires FullRun(blk, c) && (c != [] ==> blk[b].size == OLD_CAP)
    ensures FullRun(blk, [b] + c)
  {
    var d := [b] + c;
    forall i | 0 < i < |d| ensures d[i] == c[i - 1] {
    }
  }

  /** One block laid, and what is left for the others. */
  lemma LaidStep(content: Block, buf: seq<byte>, b: int, n: nat)
    requires |content.data| == OLD_CAP && buf != [] && AfterRun(buf, n) == []
    ensures n > 0 && AfterRun(Left(buf), n - 1) == [] && Needed(|buf|) == 1 + Needed(|Left(buf)|) && |Left(buf)| < |buf|
    ensures var x := Laid(content, buf, b);
      && x.next == (if Left(buf) == [] then -1 else b + 1) && 0 < x.size <= OLD_CAP
      && (Left(buf) != [] ==> x.size == OLD_CAP)
      && Take(x.data, x.size) == Copied(buf[..Min(OLD_CAP, |buf|)]) && x.size + |Left(buf)| == |buf|
    ensures Pieces(buf) == Copied(buf[..Min(OLD_CAP, |buf|)]) + Pieces(Left(buf))
  {
    hide Copied;
  }

  /** A run that holds the buffer: a chain of exactly the blocks needed, all but the last
      full, holding the pieces in order. */
  lemma {:induction false} LayRunHolds(blk: seq<Block>, content: Block, buf: seq<byte>, b: int, n: nat)
    requires 0 <= b && b + n <= |blk| && |content.data| == OLD_CAP && buf != [] && AfterRun(buf, n) == []
    ensures var blk' := LayRun(blk, content, buf, b, n).0; var d := RunSeq(b, Needed(|buf|));
      && 0 < Needed(|buf|) <= n && IsChain(blk', b, d) && FullRun(blk', d)
      && Text(blk', d) == Pieces(buf) && Sum(blk', d) == |buf|
    decreases n
  {
    hide LayRun, IsChain, FullRun, Copied, Laid, Left, Needed, AfterRun, Pieces, RunSeq, Take;
    LaidStep(content, buf, b, n);
    var x, rest, m := Laid(content, buf, b), Left(buf), Needed(|buf|);
    var blk1 := blk[b := x];
    var blk' := LayRun(blk1, x, rest, b + 1, n - 1).0;
    LayRunUnfold(blk, content, buf, b, n);
    LayRunAt(blk1, x, rest, b + 1, n - 1, b);
    RunSeqTail(b, m);
    if rest == [] {
      NoneNeeded(b + 1);
      EndOfChain(blk');
      FullRunNone(blk');
      ChainCons(blk', b, []);
      FullRunCons(blk', b, []);
    } else {
      LayRunHolds(blk1, x, rest, b + 1, n - 1);
      ChainCons(blk', b, RunSeq(b + 1, m - 1));
      FullRunCons(blk', b, RunSeq(b + 1, m - 1));
    }
  }

  lemma NoneNeeded(b: int)
    ensures Needed(0) == 0 && Pieces([]) == [] && RunSeq(b, 0) == []
  {
  }

  lemma LayRunUnfold(blk: seq<Block>, content: Block, buf: seq<byte>, b: int, n: nat)
    requires 0 <= b && b + n <= |blk| && |content.data| == OLD_CAP && n > 0
    ensures LayRun(blk, content, buf, b, n)
        == LayRun(blk[b := Laid(content, buf, b)], Laid(content, buf, b), Left(buf), b + 1, n - 1)
  {
  }

  lemma LayRunNone(blk: seq<Block>, content: Block, buf: seq<byte>, b: int)
    requires |content.data| == OLD_CAP
    ensures LayRun(blk, content, buf, b, 0) == (blk, content, buf)
  {
  }

  lemma FullRunNone(blk: seq<Block>)
    ensures FullRun(blk, [])
  {
  }

  // ---- the parts of a chain

  lemma {:induction false} TextFrame(blk: seq<Block>, blk': seq<Block>, c: seq<int>)
    requires |blk'| == |blk| && forall x :: x in c && 0 <= x < |blk| ==> blk'[x] == blk[x]
    ensures Text(blk', c) == Text(blk, c) && Sum(blk', c) == Sum(blk, c)
    decreases |c|
  {
    if c != [] {
      TextFrame(blk, blk', c[1..]);
    }
  }

  lemma {:induction false} TextAppend(blk: seq<Block>, c: seq<int>, d: seq<int>)
    ensures Text(blk, c + d) == Text(blk, c) + Text(blk, d) && Sum(blk, c + d) == Sum(blk, c) + Sum(blk, d)
    decreases |c|
  {
    if c == [] {
      assert c + d == d;
    } else {
      assert (c + d)[1..] == c[1..] + d;
      TextAppend(blk, c[1..], d);
    }
  }

  lemma {:induction false} TextLength(blk: seq<Block>, c: seq<int>)
    requires forall i :: 0 <= i < |c| ==> 0 <= c[i] < |blk| && blk[c[i]].size <= |blk[c[i]].data|
    ensures |Text(blk, c)| == Sum(blk, c)
    decreases |c|
  {
    if c != [] {
      TextLength(blk, c[1..]);
    }
  }

  lemma TextAt(blk: seq<Block>, c: seq<int>, k: nat, tail: seq<int>)
    requires k < |c|
    ensures Text(blk, c[..k + 1] + tail) == Text(blk, c[..k]) + BytesAt(blk, c[k]) + Text(blk, tail)
    ensures Sum(blk, c[..k + 1] + tail) == Sum(blk, c[..k]) + SizeAt(blk, c[k]) + Sum(blk, tail)
  {
    hide Text, Sum;
    assert c[..k + 1] == c[..k] + [c[k]];
    TextAppend(blk, c[..k], [c[k]]);
    TextAppend(blk, c[..k + 1], tail);
    TextOne(blk, c[k]);
  }

  lemma TextOne(blk: seq<Block>, b: int)
    ensures Text(blk, [b]) == BytesAt(blk, b) && Sum(blk, [b]) == SizeAt(blk, b)
  {
    assert [b][1..] == [];
  }

  lemma PatchedBytes(b: Block, buf: seq<byte>)
    requires b.size <= |b.data| == OLD_CAP
    ensures var p := PatchedAt(b, b.size, buf);
      Take(p.data, p.size) == Take(b.data, b.size) + Copied(buf[..Min(OLD_CAP - b.size, |buf|)])
        && |Take(b.data, b.size)| == b.size
  {
    hide Copied;
  }

  /** The blocks before block k are as they were, block k is patched, the tail holds the rest. */
  ghost predicate Around(blk: seq<Block>, blk': seq<Block>, c: seq<int>, k: nat, off: nat, buf: seq<byte>,
                         tail: seq<int>) {
    && k < |c| && |blk'| == |blk|
    && (forall i :: 0 <= i < |c| ==> 0 <= c[i] < |blk| && blk[c[i]].size <= |blk[c[i]].data| == OLD_CAP)
    && (forall i :: 0 <= i < k ==> blk'[c[i]] == blk[c[i]])
    && off <= blk[c[k]].size
    && Text(blk', tail) == Pieces(Remainder(off, buf)) && Sum(blk', tail) == |Remainder(off, buf)|
    && SameBytes(blk'[c[k]], PatchedAt(blk[c[k]], off, buf))
  }

  predicate SameBytes(b: Block, p: Block) {
    b.size == p.size && b.data == p.data
  }

  /** Around a patch of block k the sizes add up to the end of the bytes written, plus what
      the block held behind the offset. */
  lemma SumAround(blk: seq<Block>, blk': seq<Block>, c: seq<int>, k: nat, off: nat, offset: nat, buf: seq<byte>,
                  tail: seq<int>)
    requires Around(blk, blk', c, k, off, buf, tail) && Sum(blk, c[..k]) + off == offset
    ensures Sum(blk', c[..k + 1] + tail) == offset + |buf| + (blk[c[k]].size - off)
  {
    hide Text, Sum, Copied, Pieces;
    TextFrame(blk, blk', c[..k]);
    TextAt(blk', c, k, tail);
  }

  /** Where the block held nothing behind the offset, the text is the old one up to there,
      then the buffer's pieces. */
  lemma TextAround(blk: seq<Block>, blk': seq<Block>, c: seq<int>, k: nat, off: nat, offset: nat, buf: seq<byte>,
                   tail: seq<int>)
    requires Around(blk, blk', c, k, off, buf, tail) && Sum(blk, c[..k]) + off == offset && off == blk[c[k]].size
    ensures offset <= |Text(blk, c)|
    ensures Text(blk', c[..k + 1] + tail) == Text(blk, c)[..offset] + Received(OLD_CAP - off, buf)
  {
    hide Text, Sum, Copied, Pieces, Overlay, Take, Received, Remainder;
    TextFrame(blk, blk', c[..k]);
    TextLength(blk, c[..k]);
    TextAt(blk', c, k, tail);
    TextAt(blk, c, k, c[k + 1..]);
    assert c[..k + 1] + c[k + 1..] == c;
    PatchedBytes(blk[c[k]], buf);
    var pre, here, more := Text(blk, c[..k]), BytesAt(blk, c[k]), Text(blk, c[k + 1..]);
    var bytes, rest := Copied(buf[..Min(OLD_CAP - off, |buf|)]), Pieces(Remainder(off, buf));
    assert BytesAt(blk', c[k]) == here + bytes && |pre| + |here| == offset;
    assert Text(blk, c) == pre + here + more && offset <= |Text(blk, c)|;
    hide *;
    JoinThree(pre, here, more, bytes, rest);
    assert bytes + rest == Received(OLD_CAP - off, buf) by {
      ReceivedIs(off, buf);
    }
  }

  lemma ReceivedIs(off: nat, buf: seq<byte>)
    requires off <= OLD_CAP
    ensures Received(OLD_CAP - off, buf) == Copied(buf[..Min(OLD_CAP - off, |buf|)]) + Pieces(Remainder(off, buf))
  {
  }

  lemma JoinThree(pre: seq<byte>, here: seq<byte>, more: seq<byte>, bytes: seq<byte>, rest: seq<byte>)
    ensures pre + (here + bytes) + rest == (pre + here + more)[..|pre| + |here|] + (bytes + rest)
  {
  }

  // ---- one write

  /** A file whose blocks are full up to the last, and whose recorded size is what they hold. */
  ghost predicate IsFile(blk: seq<Block>, used: set<int>, max: nat, c: seq<int>, fsize: nat) {
    Sound(blk, used, max, c) && FullToLast(blk, c) && Sum(blk, c) == fsize
  }

  /** Every block but the last is full, and no block but a lone first one is empty. */
  ghost predicate FullToLast(blk: seq<Block>, c: seq<int>) {
    forall i :: 0 <= i < |c| ==> (i < |c| - 1 ==> SizeAt(blk, c[i]) == OLD_CAP) && (i > 0 ==> SizeAt(blk, c[i]) > 0)
  }

  /** The first search finds room for everything that does not fit into the offset's block. */
  ghost predicate OneRunDoes(blk: seq<Block>, used: set<int>, max: nat, c: seq<int>, buf: seq<byte>, offset: nat) {
    var rest := Beyond(blk, c, buf, offset);
    AfterRun(rest, Best(used, OLD_FIRST, max - 1, Request(|rest|)).len) == []
  }

  /** The file's chain after the write. */
  function NewChain(blk: seq<Block>, used: set<int>, max: nat, c: seq<int>, buf: seq<byte>, offset: nat): seq<int> {
    var k, rest := Walk(blk, c, offset).0, Beyond(blk, c, buf, offset);
    if k < |c| then c[..k + 1] + RunSeq(Best(used, OLD_FIRST, max - 1, Request(|rest|)).start, Needed(|rest|)) else c
  }

  /** What a write with one covering run leaves: block k patched, a chain that goes on behind
      it in new blocks, and the other blocks in use as they were. */
  ghost predicate Extended(blk: seq<Block>, blk': seq<Block>, used: set<int>, used': set<int>, c: seq<int>, k: nat,
                           off: nat,
                           buf: seq<byte>, tail: seq<int>) {
    && Around(blk, blk', c, k, off, buf, tail) && IsChain(blk', c[0], c[..k + 1] + tail) && FullRun(blk', tail)
    && (forall x :: x in tail ==> x in used') && (forall x :: x in used && x !in c[k + 1..] ==> x in used')
    && (forall x :: x in used && 0 <= x < |blk| && x != c[k] ==> blk'[x] == blk[x])
  }

  lemma OneRun(blk: seq<Block>, used: set<int>, max: nat, content: Block, buf: seq<byte>, r: Run)
    requires |content.data| == OLD_CAP && r.len > 0 && 0 <= r.start && r.start + r.len <= |blk|
    requires max + Request(|buf|) <= |blk| && buf != [] && AfterRun(buf, r.len) == []
    ensures LayRuns(blk, used, max, content, buf, r) == (LayRun(blk, content, buf, r.start, r.len).0, used)
  {
    hide LayRun;
  }

  lemma ChainApart(blk: seq<Block>, used: set<int>, max: nat, c: seq<int>, k: nat)
    requires Sound(blk, used, max, c) && k < |c|
    ensures forall i :: 0 <= i < |c| && i != k ==> c[i] != c[k]
    ensures forall i :: 0 <= i < |c| ==> 0 <= c[i] < |blk| && c[i] in used
  {
    forall i | 0 <= i < |c| && i != k ensures c[i] != c[k] {
      if i < k {
        ChainDistinct(blk, c[0], c, i, k);
      } else {
        ChainDistinct(blk, c[0], c, k, i);
      }
    }
  }

  lemma EndExtended(blk: seq<Block>, used: set<int>, max: nat, c: seq<int>, k: nat, off: nat, buf: seq<byte>)
    requires Sound(blk, used, max, c) && k < |c| && 0 <= c[k] < |blk| && off <= blk[c[k]].size
    requires Remainder(off, buf) == []
    ensures Extended(blk, blk[c[k] := PatchedAt(blk[c[k]], off, buf).(next := -1)], used, used - SetOf(c[k + 1..]),
        c, k, off, buf, [])
  {
    ChainApart(blk, used, max, c, k);
    hide PatchedAt;
    var blk' := blk[c[k] := PatchedAt(blk[c[k]], off, buf).(next := -1)];
    EndOfChain(blk');
    FullRunNone(blk');
    Writing.ChainSplice(blk, blk', c[0], c, k, []);
  }

  lemma RunExtended(blk: seq<Block>, used: set<int>, max: nat, c: seq<int>, k: nat, off: nat, buf: seq<byte>, r: Run)
    requires Sound(blk, used, max, c) && k < |c| && 0 <= c[k] < |blk| && off <= blk[c[k]].size
    requires Remainder(off, buf) != []
    requires 0 <= r.start && r.start + r.len <= |blk| && (forall x :: r.start <= x < r.start + r.len ==> x !in used)
    requires AfterRun(Remainder(off, buf), r.len) == []
    ensures var b := PatchedAt(blk[c[k]], off, buf).(next := r.start);
      Extended(blk, LayRun(blk[c[k] := b], b, Remainder(off, buf), r.start, r.len).0, used,
        used + Blocks(r.start, r.len), c, k, off, buf,
               RunSeq(r.start, Needed(|Remainder(off, buf)|)))
  {
    hide PatchedAt, Remainder, LayRun, IsChain, FullRun, Text, Sum, Needed, AfterRun, Pieces, Blocks, RunSeq;
    ChainApart(blk, used, max, c, k);
    var b, rest := PatchedAt(blk[c[k]], off, buf).(next := r.start), Remainder(off, buf);
    var blk1 := blk[c[k] := b];
    var blk' := LayRun(blk1, b, rest, r.start, r.len).0;
    LayRunHolds(blk1, b, rest, r.start, r.len);
    var tail := RunSeq(r.start, Needed(|rest|));
    forall x | x in used && 0 <= x < |blk| ensures blk'[x] == blk1[x] {
      LayRunAt(blk1, b, rest, r.start, r.len, x);
    }
    assert Head(tail) == r.start;
    Writing.ChainSplice(blk, blk', c[0], c, k, tail);
  }

  lemma NotStuck(used: set<int>, max: nat, buf: seq<byte>)
    requires NeverStuck(used, max, buf) && buf != []
    ensures var r := Best(used, OLD_FIRST, max - 1, Request(|buf|));
      && 0 < r.len <= Request(|buf|) && OLD_FIRST <= r.start < max
      && NeverStuck(used + Blocks(r.start, r.len), max, AfterRun(buf, r.len))
  {
    BestMeans(used, OLD_FIRST, max - 1, Request(|buf|));
  }

  lemma WriteExtends(blk: seq<Block>, used: set<int>, max: nat, c: seq<int>, fsize: nat, buf: seq<byte>, offset: nat)
      returns (tail: seq<int>)
    requires Callable(blk, used, max, c, buf, offset) && offset <= fsize && OneRunDoes(blk, used, max, c, buf, offset)
    requires Walk(blk, c, offset).0 < |c|
    ensures var (blk', used', r, fsize') := Write(blk, used, max, c, fsize, buf, offset);
        var (k, off) := Walk(blk, c, offset);
      && r == |buf| && fsize' == offset + |buf|
      && Extended(blk, blk', used, used', c, k, off, buf, tail)
      && NewChain(blk, used, max, c, buf, offset) == c[..k + 1] + tail
  {
    hide PatchedAt, Extended, LayRun, LayRuns, Walk, AfterRun, NeverStuck, IsChain, Blocks, RunSeq, IsBest;
    WalkStops(blk, c, offset);
    var (k, off) := Walk(blk, c, offset);
    InFile(blk, used, max, c, k);
    var rest := Remainder(off, buf);
    var r := Best(used, OLD_FIRST, max - 1, Request(|rest|));
    tail := RunSeq(r.start, Needed(|rest|));
    if rest == [] {
      EndExtended(blk, used, max, c, k, off, buf);
      assert tail == [];
    } else {
      NotStuck(used, max, rest);
      BestMeans(used, OLD_FIRST, max - 1, Request(|rest|));
      var b := PatchedAt(blk[c[k]], off, buf).(next := r.start);
      OneRun(blk[c[k] := b], used + Blocks(r.start, r.len), max, b, rest, r);
      RunExtended(blk, used, max, c, k, off, buf, r);
    }
  }

  /** The offset is at the end of a block's bytes exactly at the end of the file and at the
      block boundaries. */
  lemma AtBlockEnd(blk: seq<Block>, used: set<int>, max: nat, c: seq<int>, fsize: nat, offset: nat)
    requires IsFile(blk, used, max, c, fsize) && offset <= fsize
    ensures var (k, off) := Walk(blk, c, offset);
      k < |c| && (off == SizeAt(blk, c[k]) <==> Boundary(fsize, offset))
  {
    WalkStops(blk, c, offset);
    WalkIsSpot(blk, c, OLD_CAP, offset);
    var (k, off) := Walk(blk, c, offset);
    TextAt(blk, c, k, c[k + 1..]);
    assert c[..k + 1] + c[k + 1..] == c;
    hide Walk, Text, IsChain;
    if k + 1 < |c| {
      assert c[k + 1..][0] == c[k + 1];
    }
  }

  lemma StaysFile(blk: seq<Block>, blk': seq<Block>, used: set<int>, used': set<int>, max: nat, c: seq<int>, k: nat,
                  off: nat,
                  buf: seq<byte>, tail: seq<int>, fsize: nat)
    requires IsFile(blk, used, max, c, fsize) && Extended(blk, blk', used, used', c, k, off, buf, tail)
    requires off == blk[c[k]].size && (tail != [] ==> Remainder(off, buf) != []) && max <= |blk'|
    ensures Sound(blk', used', max, c[..k + 1] + tail) && FullToLast(blk', c[..k + 1] + tail)
  {
    hide Text, Sum, IsChain, Pieces, Overlay, Copied;
    ChainApart(blk, used, max, c, k);
    var d := c[..k + 1] + tail;
    forall i | 0 <= i < |d|
      ensures d[i] in used' && |blk'[d[i]].data| == OLD_CAP && blk'[d[i]].size <= OLD_CAP
      ensures i < |d| - 1 ==> SizeAt(blk', d[i]) == OLD_CAP
      ensures i > 0 ==> SizeAt(blk', d[i]) > 0
    {
      if i < k {
        assert d[i] == c[i];
        ChainLater(blk, used, max, c, k, i);
      } else if i == k {
        assert d[i] == c[k];
        ChainLater(blk, used, max, c, k, k);
      } else {
        assert d[i] == tail[i - k - 1];
      }
    }
  }

  lemma ChainLater(blk: seq<Block>, used: set<int>, max: nat, c: seq<int>, k: nat, i: nat)
    requires Sound(blk, used, max, c) && i <= k < |c|
    ensures c[i] !in c[k + 1..]
  {
    forall j | k < j < |c| ensures c[j] != c[i] {
      ChainDistinct(blk, c[0], c, i, j);
    }
  }

  predicate Boundary(fsize: nat, offset: nat) {
    offset == fsize || (offset > 0 && offset % OLD_CAP == 0)
  }

  /** For every offset up to the end of the file: after a write with one covering run the
      sizes still add up to the recorded size, and all blocks but the last are still full,
      exactly when the offset was the end of the file or a block boundary; and then the file
      holds its old bytes up to the offset followed by the buffer's pieces. */
  lemma WritesExactly(blk: seq<Block>, used: set<int>, max: nat, c: seq<int>, fsize: nat, buf: seq<byte>, offset: nat)
    requires IsFile(blk, used, max, c, fsize) && Callable(blk, used, max, c, buf, offset)
    requires offset <= fsize && OneRunDoes(blk, used, max, c, buf, offset)
    ensures var (blk', used', r, fsize') := Write(blk, used, max, c, fsize, buf, offset);
      var c' := NewChain(blk, used, max, c, buf, offset); var (_, off) := Walk(blk, c, offset);
      && r == |buf| && fsize' == offset + |buf| && c'[..1] == c[..1]
      && (IsFile(blk', used', max, c', fsize') <==> Boundary(fsize, offset))
      && (Boundary(fsize, offset) ==>
            offset <= |Text(blk, c)| && off <= OLD_CAP
            && Text(blk', c') == Text(blk, c)[..offset] + Received(OLD_CAP - off, buf))
  {
    hide Walk, Text, Sum, Write, OneRunDoes, Callable, NewChain, Boundary, Sound, FullToLast, Around, FullRun;
    hide IsChain, Received;
    AtBlockEnd(blk, used, max, c, fsize, offset);
    WalkStops(blk, c, offset);
    var tail := WriteExtends(blk, used, max, c, fsize, buf, offset);
    var (k, off) := Walk(blk, c, offset);
    InFile(blk, used, max, c, k);
    var (blk', used', r, fsize') := Write(blk, used, max, c, fsize, buf, offset);
    SumAround(blk, blk', c, k, off, offset, buf, tail);
    if off == SizeAt(blk, c[k]) {
      TextAround(blk, blk', c, k, off, offset, buf, tail);
      TailNeedsRest(blk', tail, off, buf) by {
        AroundTail(blk, blk', c, k, off, buf, tail);
      }
      StaysFile(blk, blk', used, used', max, c, k, off, buf, tail, fsize);
    }
  }

  lemma InFile(blk: seq<Block>, used: set<int>, max: nat, c: seq<int>, k: nat)
    requires Sound(blk, used, max, c) && k < |c|
    ensures 0 <= c[k] < |blk| && blk[c[k]].size <= OLD_CAP && max <= |blk|
  {
  }

  lemma AroundTail(blk: seq<Block>, blk': seq<Block>, c: seq<int>, k: nat, off: nat, buf: seq<byte>, tail: seq<int>)
    requires Around(blk, blk', c, k, off, buf, tail)
    ensures off <= OLD_CAP && Sum(blk', tail) == |Remainder(off, buf)|
  {
  }

  lemma TailNeedsRest(blk: seq<Block>, tail: seq<int>, off: nat, buf: seq<byte>)
    requires off <= OLD_CAP && FullRun(blk, tail) && Sum(blk, tail) == |Remainder(off, buf)|
    ensures tail != [] ==> Remainder(off, buf) != []
  {
  }

  // ---- text without NULs

  /** Behind a NUL there are only NULs. */
  ghost predicate Clean(src: seq<byte>) {
    forall i, j :: 0 <= i <= j < |src| && src[i] == 0 ==> src[j] == 0
  }

  lemma {:induction false} CopiedExactly(src: seq<byte>)
    ensures Copied(src) == src <==> Clean(src)
    decreases |src|
  {
    if src != [] && src[0] != 0 {
      CopiedExactly(src[1..]);
      assert src == [src[0]] + src[1..];
      assert forall i :: 0 < i < |src| ==> src[i] == src[1..][i - 1];
      assert Copied(src)[1..] == Copied(src[1..]);
    }
  }

  ghost predicate CleanPieces(buf: seq<byte>)
    decreases |buf|
  {
    buf != [] ==> Clean(buf[..Min(OLD_CAP, |buf|)]) && CleanPieces(Left(buf))
  }

  lemma {:induction false} PiecesExactly(buf: seq<byte>)
    ensures Pieces(buf) == buf <==> CleanPieces(buf)
    decreases |buf|
  {
    if buf != [] {
      var n := Min(OLD_CAP, |buf|);
      CopiedExactly(buf[..n]);
      PiecesExactly(buf[n..]);
      hide Clean, Copied;
      assert buf == buf[..n] + buf[n..];
      assert Pieces(buf)[..n] == Copied(buf[..n]) && Pieces(buf)[n..] == Pieces(buf[n..]);
    }
  }

  /** strncpy keeps the buffer exactly when no piece has a byte other than NUL behind a NUL. */
  lemma ReceivedExactly(room: nat, buf: seq<byte>)
    ensures Received(room, buf) == buf <==> Clean(buf[..Min(room, |buf|)]) && CleanPieces(buf[Min(room, |buf|)..])
  {
    var n := Min(room, |buf|);
    CopiedExactly(buf[..n]);
    PiecesExactly(buf[n..]);
    hide Clean, Copied, Pieces, CleanPieces;
    assert buf == buf[..n] + buf[n..];
    assert Received(room, buf)[..n] == Copied(buf[..n]) && Received(room, buf)[n..] == Pieces(buf[n..]);
  }

  lemma {:induction false} NoNulClean(buf: seq<byte>)
    requires 0 !in buf
    ensures CleanPieces(buf)
    decreases |buf|
  {
    if buf != [] {
      NoNulClean(Left(buf));
    }
  }

  // ---- runs of appends

  datatype File = File(blk: seq<Block>, used: set<int>, chain: seq<int>, fsize: nat)

  ghost predicate Stands(f: File, max: nat) {
    IsFile(f.blk, f.used, max, f.chain, f.fsize)
  }

  /** f' is f after buf has been written at its end, with a first search that finds room. */
  ghost predicate AppendStep(f: File, f': File, max: nat, buf: seq<byte>) {
    && Callable(f.blk, f.used, max, f.chain, buf, f.fsize) && OneRunDoes(f.blk, f.used, max, f.chain, buf, f.fsize)
    && 0 !in buf
    && var (blk', used', r, fsize') := Write(f.blk, f.used, max, f.chain, f.fsize, buf, f.fsize);
       f' == File(blk', used', NewChain(f.blk, f.used, max, f.chain, buf, f.fsize), fsize')
  }

  ghost predicate IsRun(files: seq<File>, bufs: seq<seq<byte>>, max: nat) {
    && |files| == |bufs| + 1 && Stands(files[0], max)
    && forall i :: 0 <= i < |bufs| ==> Stands(files[i], max) ==> AppendStep(files[i], files[i + 1], max, bufs[i])
  }

  function Concat(bufs: seq<seq<byte>>): seq<byte> {
    if bufs == [] then [] else Concat(bufs[..|bufs| - 1]) + bufs[|bufs| - 1]
  }

  lemma AppendAddsText(f: File, f': File, max: nat, buf: seq<byte>)
    requires Stands(f, max) && AppendStep(f, f', max, buf)
    ensures Stands(f', max) && Text(f'.blk, f'.chain) == Text(f.blk, f.chain) + buf && f'.fsize == f.fsize + |buf|
  {
    hide Write, Walk, Text, Sum, NewChain, OneRunDoes, Callable, IsFile, Received;
    WritesExactly(f.blk, f.used, max, f.chain, f.fsize, buf, f.fsize);
    var off := Walk(f.blk, f.chain, f.fsize).1;
    ReceivedExactly(OLD_CAP - off, buf);
    NoNulClean(buf[Min(OLD_CAP - off, |buf|)..]);
    TextOfFile(f, max);
  }

  lemma TextOfFile(f: File, max: nat)
    requires Stands(f, max)
    ensures |Text(f.blk, f.chain)| == f.fsize
  {
    TextLength(f.blk, f.chain);
  }

  /** On every run of appends, block boundaries included, the file holds what it held at the
      start followed by all the buffers, in a chain of full blocks whose sizes add up to the
      recorded size. */
  lemma {:induction false} AppendsConcatenate(files: seq<File>, bufs: seq<seq<byte>>, max: nat, i: nat)
    requires IsRun(files, bufs, max) && i < |files|
    ensures Stands(files[i], max)
    ensures Text(files[i].blk, files[i].chain) == Text(files[0].blk, files[0].chain) + Concat(bufs[..i])
    decreases i
  {
    hide Stands, AppendStep, Text;
    if i > 0 {
      AppendsConcatenate(files, bufs, max, i - 1);
      AppendAddsText(files[i - 1], files[i], max, bufs[i - 1]);
      assert bufs[..i][..i - 1] == bufs[..i - 1];
    }
  }

  /** The file a create leaves, one empty block, is a place to start. */
  lemma EmptyFile(f: File, b: int, max: nat)
    requires 0 <= b < |f.blk| && max <= |f.blk| && b in f.used && f.chain == [b] && f.fsize == 0
    requires f.blk[b].size == 0 && f.blk[b].next == -1 && |f.blk[b].data| == OLD_CAP
    ensures Stands(f, max) && Text(f.blk, f.chain) == []
  {
    TextOne(f.blk, b);
  }

  // ---- the program

  class Volume {
    const bitmap: Bitmap
    const disk: array<Block>
    const max: nat  // max_filesystem_in_block

    constructor (disk: array<Block>, bitmap: Bitmap, max: nat)
      ensures this.disk == disk && this.bitmap == bitmap && this.max == max
    {
      this.disk, this.bitmap, this.max := disk, bitmap, max;
    }

    ghost predicate Shaped()
      reads bitmap.bytes
    {
      && bitmap.first == OLD_FIRST && bitmap.blocks == max && max <= disk.Length
      && disk.Length + 64 <= 8 * bitmap.bytes.Length && disk as object != bitmap.bytes
    }

    /** Subtracts block sizes until the offset lies in the block read. */
    method FindOffset(start: int, offset: nat, ghost c: seq<int>)
        returns (found: bool, start_blk: int, content: Block, off: nat)
      requires c != [] && start == c[0] && IsChain(disk[..], start, c)
      ensures var (k, o) := Walk(disk[..], c, offset);
        && (found <==> k < |c|)
        && (found ==> off == o && start_blk == c[k] && 0 <= start_blk < disk.Length && content == disk[start_blk])
    {
      start_blk, off := start, offset;
      ghost var i := 0;
      while true
        invariant 0 <= i <= |c| && start_blk == (if i < |c| then c[i] else -1)
        invariant Walk(disk[..], c, offset) == (Walk(disk[..], c[i..], off).0 + i, Walk(disk[..], c[i..], off).1)
        decreases |c| - i
      {
        if start_blk < 0 {
          return false, -1, Block(0, -1, [], []), off;
        }
        assert c[i..][0] == c[i] && c[i..][1..] == c[i + 1..];
        assert disk[..][c[i]].next == NextIn(c, i);
        content := disk[start_blk];
        if off <= content.size {
          return true, start_blk, content, off;
        }
        off, start_blk := off - content.size, content.next;
        i := i + 1;
      }
    }

    /** strncpy of the source's first bytes. */
    method StrNCpy(src: seq<byte>) returns (r: seq<byte>)
      ensures r == Copied(src)
    {
      r := [];
      var i := 0;
      while i < |src| && src[i] != 0
        invariant 0 <= i <= |src| && Copied(src) == r + Copied(src[i..])
      {
        assert src[i..][1..] == src[i + 1..];
        r := r + [src[i]];
        i := i + 1;
      }
      r := r + seq(|src| - i, j => 0);
    }

    method FillBlocks(first: Block, buf: seq<byte>, b: int, n: nat) returns (content: Block, rest: seq<byte>)
      requires |first.data| == OLD_CAP && 0 <= b && b + n <= disk.Length
      modifies disk
      ensures (disk[..], content, rest) == LayRun(old(disk[..]), first, buf, b, n)
    {
      hide LayRun, Laid, Copied, Overlay;
      content, rest := first, buf;
      var next_b := b;
      for i := 0 to n
        invariant next_b == b + i && |content.data| == OLD_CAP
        invariant LayRun(old(disk[..]), first, buf, b, n) == LayRun(disk[..], content, rest, next_b, n - i)
      {
        ghost var blk, block := disk[..], Laid(content, rest, next_b);
        LayRunUnfold(blk, content, rest, next_b, n - i);
        LaidIs(content, rest, next_b);
        var ret := Min(OLD_CAP, |rest|);
        var bytes := StrNCpy(rest[..ret]);
        content := Block(ret, if ret == |rest| then -1 else next_b + 1, Overlay(content.data, 0, bytes), content.slots);
        disk[next_b] := content;
        assert content == block && disk[..] == blk[next_b := block];
        rest := rest[ret..];
        next_b := next_b + 1;
      }
      LayRunNone(disk[..], content, rest, next_b);
    }

    static lemma LaidIs(content: Block, buf: seq<byte>, b: int)
      requires |content.data| == OLD_CAP
      ensures var ret := Min(OLD_CAP, |buf|);
        Laid(content, buf, b) == Block(ret, if ret == |buf| then -1 else b + 1,
                                       Overlay(content.data, 0, Copied(buf[..ret])), content.slots)
    {
    }

    method FillRuns(first: Block, buf: seq<byte>, start: int, len: nat)
      requires Shaped() && |first.data| == OLD_CAP && len > 0 && 0 <= start && start + len <= disk.Length
      requires max + Request(|buf|) <= disk.Length && buf != [] && NeverStuck(bitmap.Used(), max, AfterRun(buf, len))
      modifies disk, bitmap.bytes
      ensures (disk[..], bitmap.Used()) == LayRuns(old(disk[..]), old(bitmap.Used()), max, first, buf, Run(len, start))
    {
      hide LayRun, AfterRun, NeverStuck, Best, IsBest, Blocks;
      var content, rest, next_b, num := first, buf, start, len;
      while true
        invariant Shaped() && |content.data| == OLD_CAP && num > 0 && 0 <= next_b && next_b + num <= disk.Length
        invariant max + Request(|rest|) <= disk.Length && rest != []
        invariant NeverStuck(bitmap.Used(), max, AfterRun(rest, num))
        invariant LayRuns(old(disk[..]), old(bitmap.Used()), max, first, buf, Run(len, start))
               == LayRuns(disk[..], bitmap.Used(), max, content, rest, Run(num, next_b))
        decreases |rest|
      {
        content, rest := FillBlocks(content, rest, next_b, num);
        if rest == [] {
          return;
        }
        NotStuck(bitmap.Used(), max, rest);
        num, next_b := bitmap.SearchFreeBlk(Request(|rest|));
      }
    }

    method FreeTail(start: int, ghost c: seq<int>)
      requires Shaped() && IsChain(disk[..], start, c)
      modifies bitmap.bytes
      ensures bitmap.Used() == old(bitmap.Used()) - SetOf(c)
    {
      var next_blk := start;
      ghost var i := 0;
      while next_blk != -1
        invariant 0 <= i <= |c| && next_blk == (if i < |c| then c[i] else -1)
        invariant disk[..] == old(disk[..]) && bitmap.Used() == old(bitmap.Used()) - SetOf(c[..i])
        decreases |c| - i
      {
        assert disk[..][c[i]].next == NextIn(c, i);
        var _ := bitmap.SetBlk(next_blk, false);
        assert c[..i + 1] == c[..i] + [c[i]];
        next_blk := disk[next_blk].next;
        i := i + 1;
      }
      assert c[..i] == c;
    }

    /** u_fs_write on the file that starts in block `start` and has recorded size fsize. */
    method UFsWrite(start: int, fsize: nat, buf: seq<byte>, offset: nat, ghost c: seq<int>)
        returns (res: int, fsize': nat)
      requires Shaped() && c != [] && start == c[0] && Callable(disk[..], bitmap.Used(), max, c, buf, offset)
      modifies disk, bitmap.bytes
      ensures (disk[..], bitmap.Used(), res, fsize')
          == Write(old(disk[..]), old(bitmap.Used()), max, c, fsize, buf, offset)
    {
      if offset > fsize {
        return -EFBIG, fsize;
      }
      ghost var blk, used := disk[..], bitmap.Used();
      WriteCases(blk, used, max, c, fsize, buf, offset);
      hide *;
      var found, start_blk, content, off := FindOffset(start, offset, c);
      if !found {
        return -1, fsize;
      }
      WriteFrom(start_blk, content, off, buf, c, fsize, offset);
      return |buf|, offset + |buf|;
    }

    /** From the offset's block on. */
    method WriteFrom(start_blk: int, content: Block, off: nat, buf: seq<byte>, ghost c: seq<int>, ghost fsize: nat,
                     ghost offset: nat)
      requires Shaped() && Callable(disk[..], bitmap.Used(), max, c, buf, offset) && offset <= fsize
      requires var (k, o) := Walk(disk[..], c, offset); k < |c| && off == o && start_blk == c[k]
      requires 0 <= start_blk < disk.Length && content == disk[start_blk]
      modifies disk, bitmap.bytes
      ensures (disk[..], bitmap.Used(), |buf|, offset + |buf|)
          == Write(old(disk[..]), old(bitmap.Used()), max, c, fsize, buf, offset)
    {
      ghost var blk, used := disk[..], bitmap.Used();
      WriteCases(blk, used, max, c, fsize, buf, offset);
      hide *;
      ghost var tail := c[Walk(blk, c, offset).0 + 1..];
      var patched := PatchBlock(content, off, buf);
      var rest := Remainder(off, buf);
      if |rest| > 0 {
        WriteBeyond(start_blk, patched, rest);
      } else {
        WriteWithin(start_blk, patched, tail);
      }
    }

    static lemma WriteCases(blk: seq<Block>, used: set<int>, max: nat, c: seq<int>, fsize: nat, buf: seq<byte>,
                            offset: nat)
      requires Callable(blk, used, max, c, buf, offset) && offset <= fsize
      ensures IsChain(blk, c[0], c)
      ensures var (k, off) := Walk(blk, c, offset);
        && (k >= |c| ==> Write(blk, used, max, c, fsize, buf, offset) == (blk, used, -1, fsize))
        && (k < |c| ==>
              (0 <= c[k] < |blk| && |blk[c[k]].data| == OLD_CAP && off <= OLD_CAP
               && max + Request(|Remainder(off, buf)|) <= |blk| && NeverStuck(used, max, Remainder(off, buf))))
      ensures var (k, off) := Walk(blk, c, offset);
        k < |c| && Remainder(off, buf) == [] ==>
          (var b := PatchedAt(blk[c[k]], off, buf);
           && c[k] !in c[k + 1..] && b.next == Head(c[k + 1..]) && IsChain(blk, Head(c[k + 1..]), c[k + 1..])
           && Write(blk, used, max, c, fsize, buf, offset)
               == (blk[c[k] := b.(next := -1)], used - SetOf(c[k + 1..]), |buf|, offset + |buf|))
      ensures var (k, off) := Walk(blk, c, offset);
        k < |c| && Remainder(off, buf) != [] ==>
          (var r := Best(used, OLD_FIRST, max - 1, Request(|Remainder(off, buf)|));
           && r.len > 0 && 0 <= r.start && r.start + r.len <= |blk|
           && NeverStuck(used + Blocks(r.start, r.len), max, AfterRun(Remainder(off, buf), r.len))
           && var b := PatchedAt(blk[c[k]], off, buf).(next := r.start);
              var (blk', used') := LayRuns(blk[c[k] := b], used + Blocks(r.start, r.len), max, b,
                  Remainder(off, buf), r);
              Write(blk, used, max, c, fsize, buf, offset) == (blk', used', |buf|, offset + |buf|))
    {
      var (k, off) := Walk(blk, c, offset);
      WalkStops(blk, c, offset);
      BestMeans(used, OLD_FIRST, max - 1, Request(|Beyond(blk, c, buf, offset)|));
      hide LayRuns, LayRun, Walk, AfterRun, PatchedAt;
      if k < |c| {
        TailOf(blk, used, max, c, k);
      }
    }

    method PatchBlock(content: Block, off: nat, buf: seq<byte>) returns (r: Block)
      requires |content.data| == OLD_CAP && off <= OLD_CAP
      ensures r == PatchedAt(content, off, buf) && |r.data| == OLD_CAP
    {
      var ret := Min(OLD_CAP - off, |buf|);
      var bytes := StrNCpy(buf[..ret]);
      r := content.(size := content.size + ret, data := Overlay(content.data, off, bytes));
    }

    method WriteBeyond(start_blk: int, content: Block, rest: seq<byte>)
      requires Shaped() && 0 <= start_blk < disk.Length && |content.data| == OLD_CAP && rest != []
      requires max + Request(|rest|) <= disk.Length && NeverStuck(bitmap.Used(), max, rest)
      modifies disk, bitmap.bytes
      ensures var used := old(bitmap.Used());
          var r := Best(used, OLD_FIRST, max - 1, Request(|rest|)); var b := content.(next := r.start);
        && r.len > 0 && 0 <= r.start && r.start + r.len <= disk.Length
        && NeverStuck(used + Blocks(r.start, r.len), max, AfterRun(rest, r.len))
        && (disk[..], bitmap.Used()) == LayRuns(old(disk[..])[start_blk := b], used + Blocks(r.start, r.len), max, b,
            rest, r)
    {
      hide LayRuns, AfterRun, NeverStuck, Best, IsBest, Blocks, Request;
      ghost var used := bitmap.Used();
      NotStuck(used, max, rest);
      var num, next_b := bitmap.SearchFreeBlk(Request(|rest|));
      ghost var used' := used + Blocks(next_b, num);
      assert bitmap.Used() == used' && NeverStuck(used', max, AfterRun(rest, num));
      disk[start_blk] := content.(next := next_b);
      assert bitmap.Used() == used';
      FillRuns(content.(next := next_b), rest, next_b, num);
    }

    method WriteWithin(start_blk: int, content: Block, ghost tail: seq<int>)
      requires Shaped() && 0 <= start_blk < disk.Length && start_blk !in tail
      requires IsChain(disk[..], Head(tail), tail) && content.next == Head(tail)
      modifies disk, bitmap.bytes
      ensures disk[..] == old(disk[..])[start_blk := content.(next := -1)]
      ensures bitmap.Used() == old(bitmap.Used()) - SetOf(tail)
    {
      var next_blk := content.next;
      disk[start_blk] := content.(next := -1);
      ChainFrame(old(disk[..]), disk[..], Head(tail), tail);
      FreeTail(next_blk, tail);
    }

    static lemma TailOf(blk: seq<Block>, used: set<int>, max: nat, c: seq<int>, k: nat)
      requires Sound(blk, used, max, c) && k < |c|
      ensures 0 <= c[k] < |blk| && |blk[c[k]].data| == OLD_CAP && blk[c[k]].next == Head(c[k + 1..])
      ensures IsChain(blk, Head(c[k + 1..]), c[k + 1..]) && c[k] !in c[k + 1..]
    {
      ChainTail(blk, c[0], c, k + 1);
      ChainLater(blk, used, max, c, k, k);
      assert blk[c[k]].next == NextIn(c, k);
    }
  }
}
