/** The arithmetic and contents of file chains: how many blocks a size takes, where an offset
    lies, what filling a run of blocks from a buffer leaves on the disk. */
module FileData {
  import opened Disk

  /** Blocks that hold n bytes. */
  function Ceil(n: nat): nat {
    (n + CAP - 1) / CAP
  }

  function Min(a: int, b: int): int {
    if a < b then a else b
  }

  function Max(a: int, b: int): int {
    if a < b then b else a
  }

  /** The blocks start, start + 1, ... */
  function RunSeq(start: int, m: nat): (r: seq<int>)
    ensures |r| == m && forall i :: 0 <= i < m ==> r[i] == start + i
  {
    seq(m, i => start + i)
  }

  lemma RunSeqTail(start: int, m: nat)
    requires m > 0
    ensures RunSeq(start, m) == [start] + RunSeq(start + 1, m - 1)
    ensures RunSeq(start, m)[0] == start && RunSeq(start, m)[1..] == RunSeq(start + 1, m - 1)
  {
  }

  /** The buffer after one round of the inner loop of u_fs_write: as many bytes as fit laid
      over what it held, linked to the next block unless these were the last bytes. */
  function Filled(content: Block, buf: seq<byte>, b: int): (r: Block)
    requires WfBlock(content)
    ensures WfBlock(r)
  {
    var ret := Min(CAP, |buf|);
    WithData(content.(size := ret, next := if ret == |buf| then -1 else b + 1), Overlay(content.data, 0, buf[..ret]))
  }

  function Rest(buf: seq<byte>): seq<byte> {
    buf[Min(CAP, |buf|)..]
  }

  /** The inner loop: n consecutive blocks from b are written from one reused buffer. The
      result is the disk, the buffer and the bytes not written yet. */
  function FillRun(blk: seq<Block>, content: Block, buf: seq<byte>, b: int, n: nat): (r: (seq<Block>, Block, seq<byte>))
    requires 0 <= b && b + n <= |blk| && WfBlock(content)
    ensures |r.0| == |blk| && WfBlock(r.1)
    decreases n
  {
    if n == 0 then (blk, content, buf)
    else FillRun(blk[b := Filled(content, buf, b)], Filled(content, buf, b), Rest(buf), b + 1, n - 1)
  }

  lemma {:induction false} FillRunRest(blk: seq<Block>, content: Block, buf: seq<byte>, b: int, n: nat)
    requires 0 <= b && b + n <= |blk| && WfBlock(content)
    ensures FillRun(blk, content, buf, b, n).2 == buf[Min(|buf|, CAP * n)..]
    decreases n
  {
    hide Filled;
    if n > 0 {
      FillRunRest(blk[b := Filled(content, buf, b)], Filled(content, buf, b), Rest(buf), b + 1, n - 1);
    }
  }

  /** Blocks outside the run are untouched; those inside stay well formed. */
  lemma {:induction false} FillRunAt(blk: seq<Block>, content: Block, buf: seq<byte>, b: int, n: nat, x: int)
    requires 0 <= b && b + n <= |blk| && WfBlock(content) && 0 <= x < |blk|
    ensures var y := FillRun(blk, content, buf, b, n).0[x];
      if b <= x < b + n then WfBlock(y) else y == blk[x]
    decreases n
  {
    hide Filled, WfBlock;
    if n > 0 {
      FillRunAt(blk[b := Filled(content, buf, b)], Filled(content, buf, b), Rest(buf), b + 1, n - 1, x);
    }
  }

  lemma CeilStep(n: nat)
    ensures n > CAP ==> Ceil(n) == 1 + Ceil(n - CAP)
    ensures 0 < n <= CAP ==> Ceil(n) == 1
    ensures n == 0 ==> Ceil(n) == 0
    ensures CAP * (Ceil(n) - 1) < n <= CAP * Ceil(n)
  {
  }

  /** One block's worth of bytes is one block. */
  lemma CeilLess(n: nat)
    requires n > 0
    ensures Ceil(n) == 1 + Ceil(n - Min(CAP, n)) && Ceil(0) == 0
  {
  }

  /** One block filled, and what is left for the others. */
  lemma FilledStep(content: Block, buf: seq<byte>, b: int, n: nat)
    requires WfBlock(content) && 0 < |buf| <= CAP * n
    ensures n > 0 && |Rest(buf)| <= CAP * (n - 1) && Ceil(|buf|) == 1 + Ceil(|Rest(buf)|)
    ensures (Rest(buf) == [] ==> Ceil(|Rest(buf)|) == 0)
    ensures Filled(content, buf, b).next == if Rest(buf) == [] then -1 else b + 1
  {
    CeilStep(|buf|);
    CeilStep(0);
  }

  /** A run that is long enough holds the bytes in a chain of exactly as many blocks as they
      need; the rest of the run is left unlinked. */
  lemma {:induction false} FillRunChain(blk: seq<Block>, content: Block, buf: seq<byte>, b: int, n: nat)
    requires 0 <= b && b + n <= |blk| && WfBlock(content) && 0 < |buf| <= CAP * n
    ensures IsChain(FillRun(blk, content, buf, b, n).0, b, RunSeq(b, Ceil(|buf|)))
    ensures 0 < Ceil(|buf|) <= n
    decreases n
  {
    hide Filled, FillRun, Ceil, IsChain, Rest, WfBlock, RunSeq;
    FilledStep(content, buf, b, n);
    var x, rest := Filled(content, buf, b), Rest(buf);
    var blk1 := blk[b := x];
    var blk' := FillRun(blk1, x, rest, b + 1, n - 1).0;
    FillRunUnfold(blk, content, buf, b, n);
    FillRunAt(blk1, x, rest, b + 1, n - 1, b);
    RunSeqTail(b, Ceil(|buf|));
    if rest == [] {
      EndOfChain(blk');
      assert RunSeq(b + 1, 0) == [];
      ChainCons(blk', b, []);
    } else {
      FillRunChain(blk1, x, rest, b + 1, n - 1);
      ChainCons(blk', b, RunSeq(b + 1, Ceil(|rest|)));
    }
  }

  lemma EndOfChain(blk: seq<Block>)
    ensures IsChain(blk, -1, [])
  {
  }

  /** The bytes of a run's blocks: first the file's, then, up to the end of the last block,
      what the reused buffer still held from one block earlier. */
  ghost predicate Holds(t: seq<byte>, before: seq<byte>, buf: seq<byte>) {
    && |before| == CAP && |t| == CAP * Ceil(|buf|) && |buf| <= |t| && t[..|buf|] == buf
    && forall p :: |buf| <= p < |t| ==> t[p] == (before + t)[p]
  }

  lemma HoldsLast(before: seq<byte>, buf: seq<byte>)
    requires |before| == CAP && 0 < |buf| <= CAP
    ensures Holds(Overlay(before, 0, buf), before, buf)
  {
    CeilStep(|buf|);
  }

  lemma HoldsMore(before: seq<byte>, buf: seq<byte>, u: seq<byte>)
    requires |before| == CAP && |buf| > CAP && Holds(u, buf[..CAP], buf[CAP..])
    ensures Holds(buf[..CAP] + u, before, buf)
  {
    var t, rest := buf[..CAP] + u, buf[CAP..];
    CeilStep(|buf|);
    assert |t| == CAP * Ceil(|buf|);
    assert t[..|buf|] == buf[..CAP] + u[..|rest|] == buf;
    forall p | |buf| <= p < |t| ensures t[p] == (before + t)[p] {
      assert t[p] == u[p - CAP] == (buf[..CAP] + u)[p - CAP];
    }
  }

  lemma {:induction false} FillRunContent(blk: seq<Block>, content: Block, buf: seq<byte>, b: int, n: nat)
    requires 0 <= b && b + n <= |blk| && WfBlock(content) && 0 < |buf| <= CAP * n
    ensures Holds(Content(FillRun(blk, content, buf, b, n).0, RunSeq(b, Ceil(|buf|))), content.data, buf)
    decreases n
  {
    var x := Filled(content, buf, b);
    var blk1, rest := blk[b := x], Rest(buf);
    var blk' := FillRun(blk1, x, rest, b + 1, n - 1).0;
    FillRunAt(blk1, x, rest, b + 1, n - 1, b);
    CeilStep(|buf|);
    RunSeqTail(b, Ceil(|buf|));
    hide Holds, FillRun;
    var u := Content(blk', RunSeq(b + 1, Ceil(|buf|) - 1));
    assert Content(blk', RunSeq(b, Ceil(|buf|))) == x.data + u;
    if rest == [] {
      assert buf[..|buf|] == buf;
      assert x.data + u == x.data;
      HoldsLast(content.data, buf);
    } else {
      FillRunContent(blk1, x, rest, b + 1, n - 1);
      assert x.data == buf[..CAP];
      HoldsMore(content.data, buf, u);
    }
    assert blk' == FillRun(blk, content, buf, b, n).0 by {
      FillRunUnfold(blk, content, buf, b, n);
    }
  }

  lemma FillRunUnfold(blk: seq<Block>, content: Block, buf: seq<byte>, b: int, n: nat)
    requires 0 <= b && b + n <= |blk| && WfBlock(content) && n > 0
    ensures FillRun(blk, content, buf, b, n)
         == FillRun(blk[b := Filled(content, buf, b)], Filled(content, buf, b), Rest(buf), b + 1, n - 1)
  {
  }

  /** In a run that is too short every block, the last one too, is linked to the block
      behind it. */
  lemma {:induction false} FillRunShort(blk: seq<Block>, content: Block, buf: seq<byte>, b: int, n: nat, x: int)
    requires 0 <= b && b + n <= |blk| && WfBlock(content) && |buf| > CAP * n && b <= x < b + n
    ensures FillRun(blk, content, buf, b, n).0[x].next == x + 1
    decreases n
  {
    var y := Filled(content, buf, b);
    FillRunAt(blk[b := y], y, Rest(buf), b + 1, n - 1, b);
    if x > b {
      FillRunShort(blk[b := y], y, Rest(buf), b + 1, n - 1, x);
    }
  }

  // ---- contents of a chain around one block

  lemma ContentOne(blk: seq<Block>, b: int)
    ensures Content(blk, [b]) == DataAt(blk, b)
  {
    assert [b][1..] == [];
  }

  /** The contents up to and including block k of the chain, and the contents of all. */
  lemma ContentAt(blk: seq<Block>, c: seq<int>, k: nat)
    requires k < |c|
    ensures Content(blk, c[..k + 1]) == Content(blk, c[..k]) + DataAt(blk, c[k])
    ensures Content(blk, c) == Content(blk, c[..k + 1]) + Content(blk, c[k + 1..])
  {
    hide Content;
    assert c[..k + 1] == c[..k] + [c[k]];
    ContentAppend(blk, c[..k], [c[k]]);
    ContentOne(blk, c[k]);
    assert c == c[..k + 1] + c[k + 1..];
    ContentAppend(blk, c[..k + 1], c[k + 1..]);
  }

  /** old with the bytes from offset on replaced by buf. */
  function Splice(old_bytes: seq<byte>, offset: nat, buf: seq<byte>): seq<byte>
    requires offset <= |old_bytes|
  {
    old_bytes[..offset] + buf + (if offset + |buf| <= |old_bytes| then old_bytes[offset + |buf|..] else [])
  }
}
