/** Which blocks the older write links up. */
module OldLinks {
  import opened Runs
  import opened Disk
  import opened FileData
  import opened OldUfs
  import Appending

  /** Where the bytes do not suffice, every block of a run leads to the next. */
  lemma {:induction false} LayRunOn(blk: seq<Block>, content: Block, buf: seq<byte>, b: int, n: nat, x: int)
    requires 0 <= b && b + n <= |blk| && |content.data| == OLD_CAP && AfterRun(buf, n) != [] && b <= x < b + n
    ensures LayRun(blk, content, buf, b, n).0[x].next == x + 1
    decreases n
  {
    hide Copied, Overlay;
    NothingAfter(n - 1);
    var y, rest := Laid(content, buf, b), Left(buf);
    if x == b {
      LayRunAt(blk[b := y], y, rest, b + 1, n - 1, x);
    } else {
      LayRunOn(blk[b := y], y, rest, b + 1, n - 1, x);
    }
  }

  lemma {:induction false} NothingAfter(n: nat)
    ensures AfterRun([], n) == []
    decreases n
  {
    if n > 0 {
      NothingAfter(n - 1);
    }
  }

  /** Later runs leave blocks in use as they are. */
  lemma {:induction false} LayRunsAt(blk: seq<Block>, used: set<int>, max: nat, content: Block, buf: seq<byte>, r: Run,
                                     x: int)
    requires |content.data| == OLD_CAP && r.len > 0 && 0 <= r.start && r.start + r.len <= |blk|
    requires max + Request(|buf|) <= |blk| && buf != [] && NeverStuck(used, max, AfterRun(buf, r.len))
    requires x in used && 0 <= x < |blk|
    ensures LayRuns(blk, used, max, content, buf, r).0[x] == LayRun(blk, content, buf, r.start, r.len).0[x]
    decreases |buf|
  {
    hide LayRun, NeverStuck, Best, IsBest, Blocks, AfterRun;
    var (blk1, content1, rest) := LayRun(blk, content, buf, r.start, r.len);
    if rest != [] {
      NotStuck(used, max, rest);
      var r1 := Best(used, OLD_FIRST, max - 1, Request(|rest|));
      LayRunsAt(blk1, used + Blocks(r1.start, r1.len), max, content1, rest, r1, x);
      NewRun(used, max, rest);
      LayRunAt(blk1, content1, rest, r1.start, r1.len, x);
    }
  }

  lemma NewRun(used: set<int>, max: nat, rest: seq<byte>)
    ensures var r := Best(used, OLD_FIRST, max - 1, Request(|rest|));
      && (forall x :: r.start <= x < r.start + r.len ==> x !in used)
      && (0 < r.len < Request(|rest|) ==> r.start + r.len in used)
  {
    BestMeans(used, OLD_FIRST, max - 1, Request(|rest|));
  }

  /** A first run too short: its blocks follow the file's, and the block behind it, one in use,
      follows them. */
  lemma ShortLinks(blk: seq<Block>, used: set<int>, max: nat, c: seq<int>, k: nat, b: Block, rest: seq<byte>, r: Run)
    requires Sound(blk, used, max, c) && k < |c| && |b.data| == OLD_CAP && b.next == r.start && 0 <= c[k] < |blk|
    requires r.len > 0 && 0 <= r.start && r.start + r.len <= |blk| && max + Request(|rest|) <= |blk| && rest != []
    requires (forall x :: r.start <= x < r.start + r.len ==> x !in used) && AfterRun(rest, r.len) != []
    requires NeverStuck(used + Blocks(r.start, r.len), max, AfterRun(rest, r.len))
    ensures var blk' := LayRuns(blk[c[k] := b], used + Blocks(r.start, r.len), max, b, rest, r).0;
      Appending.RunLinked(blk', c, k, r)
  {
    hide LayRuns, LayRun, NeverStuck, AfterRun, IsChain;
    ChainApart(blk, used, max, c, k);
    var blk1, used1 := blk[c[k] := b], used + Blocks(r.start, r.len);
    var blk' := LayRuns(blk1, used1, max, b, rest, r).0;
    forall i: nat | i < k + 1 + r.len ensures Appending.StepAlong(blk', c, k, r, i) {
      var x := Appending.AlongRun(c, k, r, i);
      LayRunsAt(blk1, used1, max, b, rest, r, x);
      if i > k {
        LayRunOn(blk1, b, rest, r.start, r.len, x);
      } else {
        LayRunAt(blk1, b, rest, r.start, r.len, x);
        SoundStep(blk, used, max, c, i);
      }
    }
  }

  lemma SoundStep(blk: seq<Block>, used: set<int>, max: nat, c: seq<int>, i: nat)
    requires Sound(blk, used, max, c) && i < |c|
    ensures 0 <= c[i] < |blk| && (i + 1 < |c| ==> blk[c[i]].next == c[i + 1])
  {
  }

  /** What a write does when it needs further blocks. */
  lemma WriteRuns(blk: seq<Block>, used: set<int>, max: nat, c: seq<int>, fsize: nat, buf: seq<byte>, offset: nat)
    requires Callable(blk, used, max, c, buf, offset) && offset <= fsize && Beyond(blk, c, buf, offset) != []
    ensures var (k, off) := Walk(blk, c, offset); var rest := Beyond(blk, c, buf, offset);
      var r := Best(used, OLD_FIRST, max - 1, Request(|rest|));
      && k < |c| && 0 <= c[k] < |blk| && |blk[c[k]].data| == OLD_CAP && off <= OLD_CAP && rest == Remainder(off, buf)
      && r.len > 0 && 0 <= r.start && r.start + r.len <= |blk| && max + Request(|rest|) <= |blk|
      && NeverStuck(used + Blocks(r.start, r.len), max, AfterRun(rest, r.len))
      && var b := PatchedAt(blk[c[k]], off, buf).(next := r.start);
         Write(blk, used, max, c, fsize, buf, offset).0
         == LayRuns(blk[c[k] := b], used + Blocks(r.start, r.len), max, b, rest, r).0
  {
    hide LayRuns, LayRun, IsChain, AfterRun, Best, IsBest, Blocks, PatchedAt;
    WalkStops(blk, c, offset);
    var (k, off) := Walk(blk, c, offset);
    Volume.WriteCases(blk, used, max, c, fsize, buf, offset);
  }

  /** As written, a write that needs further blocks leaves the file a chain of its old blocks up
      to the offset's and of blocks that were free exactly when the first run suffices. */
  lemma LinksExactly(blk: seq<Block>, used: set<int>, max: nat, c: seq<int>, fsize: nat, buf: seq<byte>, offset: nat)
    requires Callable(blk, used, max, c, buf, offset) && offset <= fsize && Beyond(blk, c, buf, offset) != []
    ensures Walk(blk, c, offset).0 < |c| && c != []
    ensures Appending.LinkedToNew(Write(blk, used, max, c, fsize, buf, offset).0, used, c[0],
                                  c[..Walk(blk, c, offset).0 + 1])
        <==> OneRunDoes(blk, used, max, c, buf, offset)
  {
    hide Walk, Write, LayRuns, LayRun, IsChain, AfterRun, NeverStuck, Best, IsBest, Blocks, PatchedAt, Beyond;
    WriteRuns(blk, used, max, c, fsize, buf, offset);
    var k, rest := Walk(blk, c, offset).0, Beyond(blk, c, buf, offset);
    var r, blk' := Best(used, OLD_FIRST, max - 1, Request(|rest|)), Write(blk, used, max, c, fsize, buf, offset).0;
    NewRun(used, max, rest);
    if OneRunDoes(blk, used, max, c, buf, offset) {
      var tail := WriteExtends(blk, used, max, c, fsize, buf, offset);
      var d := c[..k + 1] + tail;
      assert d == c[..k + 1] + RunSeq(r.start, Needed(|rest|));
      NeededFits(rest, r.len);
      assert IsChain(blk', c[0], d) && Appending.OldOrNew(d, used, c[..k + 1]);
    } else {
      var b := PatchedAt(blk[c[k]], Walk(blk, c, offset).1, buf).(next := r.start);
      PatchedData(blk[c[k]], Walk(blk, c, offset).1, buf, r.start);
      ShortLinks(blk, used, max, c, k, b, rest, r);
      RunAsked(rest, r.len);
      forall d | IsChain(blk', c[0], d) ensures !Appending.OldOrNew(d, used, c[..k + 1]) {
        Appending.ShortRunPath(blk', c[0], c, k, r, d);
      }
    }
  }

  lemma PatchedData(b: Block, off: nat, buf: seq<byte>, n: int)
    requires |b.data| == OLD_CAP && off <= OLD_CAP
    ensures var p := PatchedAt(b, off, buf).(next := n); |p.data| == OLD_CAP && p.next == n
  {
  }

  /** A run that suffices has the blocks needed, and one as long as was asked for suffices. */
  lemma {:induction false} NeededFits(buf: seq<byte>, n: nat)
    requires AfterRun(buf, n) == []
    ensures Needed(|buf|) <= n
    decreases n
  {
    if buf != [] && n > 0 {
      NeededFits(Left(buf), n - 1);
    }
  }

  lemma {:induction false} RunAsked(buf: seq<byte>, n: nat)
    requires AfterRun(buf, n) != []
    ensures n < Request(|buf|)
    decreases n
  {
    if n > 0 {
      RunAsked(Left(buf), n - 1);
      NothingAfter(n - 1);
    }
  }
}
