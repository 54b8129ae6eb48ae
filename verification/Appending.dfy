/** Appends that need new blocks: how many are marked and how many linked. */
module Appending {
  import opened Runs
  import opened Disk
  import opened Tree
  import opened FileData
  import opened Creating
  import opened Writing
  import opened Splicing

  // ---- bitmap accounting

  /** The marks and the chain after an append of n surplus bytes into a run from start on. */
  ghost predicate Appended(s: Fs, s': Fs, o: int, c0: seq<int>, start: int, n: nat) {
    && s'.used == s.used + Blocks(start, n / CAP + 1) && Chain(s', o) == c0 + RunSeq(start, Ceil(n))
    && s'.objs.Keys == s.objs.Keys && (forall p :: p in s.objs && p != o ==> Chain(s', p) == Chain(s, p))
    && (forall x ::
        x in Blocks(start, n / CAP + 1) ==> x !in s.used && x !in c0 && forall p :: p in s.objs ==> x !in Chain(s, p))
  }

  lemma AppendEffect(s: Fs, path: seq<string>, buf: seq<byte>, offset: nat)
    requires Wrote(s, path, buf, offset) && Surplus(offset % CAP, buf) != []
    requires FirstRun(s, offset % CAP, buf).len == Asked(|Surplus(offset % CAP, buf)|)
    ensures var o := Resolve(s, path).value.start;
      offset / CAP < |Chain(s, o)| && Appended(s, Write(s, path, buf, offset).0, o, Chain(s, o)[..offset / CAP + 1],
        FirstRun(s, offset % CAP, buf).start, |Surplus(offset % CAP, buf)|)
  {
    hide Ok, WriteDisk, Write, Planned, Entry, FirstRun, Surplus, Covers;
    var o, k, off, start, m, blk', used' := WroteParts(s, path, buf, offset);
    PlannedOk(s, o, buf, offset, k, off, start, m, blk', used');
    RunUsed(s, o, buf, offset, k, off, start, m, blk', used');
    RelinkShape(s, o, k, start, m, blk', used');
    RunIsNew(s, off, buf);
    hide Relink;
    forall x | x in Chain(s, o)[..k + 1] ensures x in Chain(s, o) {
    }
  }

  /** An append whose run is found at full length marks n / 496 + 1 blocks used for n surplus
      bytes, while the chain grows by n / 496 rounded up. So every block marked is a block of
      the chain exactly when 496 does not divide n; otherwise the run's last block is marked
      and belongs to nothing. */
  lemma AppendAccounting(s: Fs, s': Fs, o: int, c0: seq<int>, start: int, n: nat)
    requires Appended(s, s', o, c0, start, n) && o in s.objs
    ensures |s'.used| == |s.used| + n / CAP + 1 && |Chain(s', o)| == |c0| + Ceil(n)
    ensures (forall x :: x in s'.used && x !in s.used ==> x in Chain(s', o)) <==> n % CAP != 0
    ensures n % CAP == 0 ==> start + n / CAP in s'.used && forall p :: p in s'.objs ==> start + n / CAP !in Chain(s', p)
  {
    CountRun(s.used, start, n / CAP + 1);
    CeilAgainstFloor(n);
    hide Ceil;
    var t := RunSeq(start, Ceil(n));
    if n % CAP == 0 {
      var x := start + n / CAP;
      assert x in Blocks(start, n / CAP + 1) && x !in t;
      assert forall p :: p in s'.objs ==> x !in Chain(s', p);
    } else {
      forall x | x in Blocks(start, n / CAP + 1) ensures x in t {
        assert t[x - start] == x;
      }
    }
  }

  lemma CeilAgainstFloor(n: nat)
    ensures Ceil(n) == if n % CAP == 0 then n / CAP else n / CAP + 1
  {
  }

  lemma RunUsed(s: Fs, o: int, buf: seq<byte>, offset: nat,
                k: nat, off: nat, start: int, m: nat, blk': seq<Block>, used': set<int>)
    requires Planned(s, o, buf, offset, k, off, start, m, blk', used') && Surplus(off, buf) != []
    ensures var r := FirstRun(s, off, buf);
        used' == s.used + Blocks(r.start, r.len) && start == r.start && m == Ceil(|Surplus(off, buf)|)
  {
    var c := Chain(s, o);
    InChain(s, o, c[k]);
    AllWf(s);
    hide Ok;
    var r := FirstRun(s, off, buf);
    var b := Patched(s.blk[c[k]], off, buf).(next := r.start);
    RunBounds(s, off, buf);
    OneRun(s.blk[c[k] := b], s.used + Blocks(r.start, r.len), s.max, b, Surplus(off, buf), r);
  }

  lemma RunIsNew(s: Fs, off: nat, buf: seq<byte>)
    requires Ok(s) && Room(s, buf) && off < CAP && FirstRun(s, off, buf).len > 0
    ensures var r := FirstRun(s, off, buf);
      forall x :: x in Blocks(r.start, r.len) ==> x !in s.used && forall p :: p in s.objs ==> x !in Chain(s, p)
  {
    RunBounds(s, off, buf);
    var r := FirstRun(s, off, buf);
    forall x | x in Blocks(r.start, r.len) ensures x !in s.used && forall p :: p in s.objs ==> x !in Chain(s, p) {
      FreeIsNew(s, x);
    }
  }

  lemma CountRun(used: set<int>, start: int, n: nat)
    requires forall x :: x in Blocks(start, n) ==> x !in used
    ensures |used + Blocks(start, n)| == |used| + n
  {
    BlocksCount(start, n);
    assert used !! Blocks(start, n);
  }

  // ---- exactly when the new blocks are linked up

  /** The blocks of c up to k, then the run, then the block behind the run. */
  function AlongRun(c: seq<int>, k: nat, r: Run, i: nat): int {
    if i <= k && i < |c| then c[i] else r.start + (i - k - 1)
  }

  ghost predicate StepAlong(blk: seq<Block>, c: seq<int>, k: nat, r: Run, i: nat) {
    0 <= AlongRun(c, k, r, i) < |blk| && blk[AlongRun(c, k, r, i)].next == AlongRun(c, k, r, i + 1)
  }

  ghost predicate RunLinked(blk: seq<Block>, c: seq<int>, k: nat, r: Run) {
    && k < |c| && r.len > 0 && 0 <= r.start
    && forall i: nat :: i < k + 1 + r.len ==> StepAlong(blk, c, k, r, i)
  }

  /** A chain over such blocks goes through all of them. */
  lemma {:induction false} ThroughRun(blk: seq<Block>, o: int, d: seq<int>, c: seq<int>, k: nat, r: Run, i: nat)
    requires IsChain(blk, o, d) && RunLinked(blk, c, k, r) && c[0] == o && i <= k + 1 + r.len
    ensures i < |d| && d[i] == AlongRun(c, k, r, i)
    decreases i
  {
    assert StepAlong(blk, c, k, r, if i < k + 1 + r.len then i else 0);
    if i > 0 {
      ThroughRun(blk, o, d, c, k, r, i - 1);
      assert StepAlong(blk, c, k, r, i - 1);
      assert blk[d[i - 1]].next == NextIn(d, i - 1);
    }
  }

  /** Blocks in use before the search, and the buffers of earlier runs, survive the rounds. */
  lemma {:induction false} AppendRunsAt(blk: seq<Block>, used: set<int>, max: nat, content: Block, buf: seq<byte>,
                                        r: Run, x: int)
    requires WfBlock(content) && r.len > 0 && 0 <= r.start && r.start + r.len <= |blk|
    requires max + Asked(|buf|) <= |blk| && buf != [] && (x in used || x < FIRST) && 0 <= x < |blk|
    ensures AppendRuns(blk, used, max, content, buf, r).0[x] == FillRun(blk, content, buf, r.start, r.len).0[x]
    decreases |buf|
  {
    FillRunRest(blk, content, buf, r.start, r.len);
    var (blk1, content1, rest) := FillRun(blk, content, buf, r.start, r.len);
    if rest != [] {
      var r1 := Best(used, FIRST, max - 1, Asked(|rest|));
      if r1.len >= 1 {
        BestMeans(used, FIRST, max - 1, Asked(|rest|));
        AppendRunsAt(blk1, used + Blocks(r1.start, r1.len), max, content1, rest, r1, x);
        FillRunAt(blk1, content1, rest, r1.start, r1.len, x);
      }
    }
  }

  lemma ShortAppend(blk: seq<Block>, used: set<int>, max: nat, content: Block, buf: seq<byte>, r: Run, c: seq<int>,
                    k: nat)
    requires WfBlock(content) && r.len > 0 && 0 <= r.start && r.start + r.len <= |blk|
    requires max + Asked(|buf|) <= |blk| && |buf| > CAP * r.len
    requires forall x :: r.start <= x < r.start + r.len ==> x in used
    requires k < |c|
    requires forall j :: 0 <= j <= k ==> 0 <= c[j] < |blk| && c[j] in used && !(r.start <= c[j] < r.start + r.len)
    requires (forall j :: 0 <= j < k ==> blk[c[j]].next == NextIn(c, j)) && blk[c[k]].next == r.start
    ensures RunLinked(AppendRuns(blk, used, max, content, buf, r).0, c, k, r)
  {
    hide AppendRuns, FillRun;
    var blk' := AppendRuns(blk, used, max, content, buf, r).0;
    forall i: nat | i < k + 1 + r.len ensures StepAlong(blk', c, k, r, i) {
      var x := AlongRun(c, k, r, i);
      AppendRunsAt(blk, used, max, content, buf, r, x);
      FillRunAt(blk, content, buf, r.start, r.len, x);
      if i > k {
        FillRunShort(blk, content, buf, r.start, r.len, x);
      }
    }
  }

  /** A first run that is too short: the link behind it leads to a block already in use. */
  lemma ShortRunLinks(s: Fs, o: int, buf: seq<byte>, offset: nat, k: nat, r: Run)
    requires Ok(s) && o in s.objs && o != ROOT && Room(s, buf) && k == offset / CAP && k < |Chain(s, o)|
    requires r == FirstRun(s, offset % CAP, buf) && r.len > 0 && !Covers(s, offset % CAP, buf)
    ensures RunLinked(WriteDisk(s, o, buf, offset).0, Chain(s, o), k, r) && r.start + r.len in s.used
  {
    hide Ok, RunLinked, AppendRuns, WriteDisk, FirstRun, Patched, Covers, Surplus, IsChain;
    var c, off := Chain(s, o), offset % CAP;
    InUse(s, o, k);
    RunBounds(s, off, buf);
    ShortRunEnds(s, off, buf);
    WriteDiskRuns(s, o, buf, offset);
    var b := Patched(s.blk[c[k]], off, buf).(next := r.start);
    ShortFromChain(s.blk, s.used, s.max, o, b, Surplus(off, buf), r, c, k);
  }

  lemma InUse(s: Fs, o: int, k: nat)
    requires Ok(s) && o in s.objs && o != ROOT && k < |Chain(s, o)|
    ensures IsChain(s.blk, o, Chain(s, o)) && 0 <= Chain(s, o)[k] < |s.blk|
    ensures var c := Chain(s, o); forall i :: 0 <= i < |c| ==> c[i] in s.used && (i < k ==> c[i] != c[k])
  {
    ChainHomes(s, o, k);
    NotRootBlock(s, o);
    hide Ok, IsChain;
    var c := Chain(s, o);
    forall i | 0 <= i < |c| ensures c[i] in s.used && (i < k ==> c[i] != c[k]) {
      assert c[i] in c;
    }
  }

  lemma ShortFromChain(blk: seq<Block>, used: set<int>, max: nat, o: int, b: Block, rest: seq<byte>, r: Run,
                       c: seq<int>, k: nat)
    requires IsChain(blk, o, c) && k < |c| && (forall i :: 0 <= i < |c| ==> c[i] in used && (i < k ==> c[i] != c[k]))
    requires WfBlock(b) && b.next == r.start && r.len > 0 && 0 <= r.start && r.start + r.len <= |blk|
    requires (forall x :: r.start <= x < r.start + r.len ==> x !in used)
    requires max + Asked(|rest|) <= |blk| && |rest| > CAP * r.len && 0 <= c[k] < |blk|
    ensures RunLinked(AppendRuns(blk[c[k] := b], used + Blocks(r.start, r.len), max, b, rest, r).0, c, k, r)
  {
    hide RunLinked, AppendRuns, WfBlock;
    ShortAppend(blk[c[k] := b], used + Blocks(r.start, r.len), max, b, rest, r, c, k);
  }

  lemma ShortRunEnds(s: Fs, off: nat, buf: seq<byte>)
    requires FirstRun(s, off, buf).len > 0 && !Covers(s, off, buf)
    ensures var r := FirstRun(s, off, buf); r.start + r.len in s.used && |Surplus(off, buf)| > CAP * r.len
  {
    BestMeans(s.used, FIRST, s.max - 1, Asked(|Surplus(off, buf)|));
  }

  lemma WriteDiskRuns(s: Fs, o: int, buf: seq<byte>, offset: nat)
    requires Ok(s) && o in s.objs && Room(s, buf) && offset / CAP < |Chain(s, o)|
    requires Surplus(offset % CAP, buf) != [] && FirstRun(s, offset % CAP, buf).len > 0
    ensures var c, k, r := Chain(s, o), offset / CAP, FirstRun(s, offset % CAP, buf);
      && 0 <= c[k] < |s.blk| && WfBlock(s.blk[c[k]]) && r.start + r.len <= |s.blk| && 0 <= r.start
      && s.max + Asked(|Surplus(offset % CAP, buf)|) <= |s.blk|
      && var b := Patched(s.blk[c[k]], offset % CAP, buf).(next := r.start);
      WriteDisk(s, o, buf, offset)
      == AppendRuns(s.blk[c[k] := b], s.used + Blocks(r.start, r.len), s.max, b, Surplus(offset % CAP, buf), r)
  {
    InChain(s, o, Chain(s, o)[offset / CAP]);
    AllWf(s);
    RunBounds(s, offset % CAP, buf);
    hide Ok, AppendRuns;
  }

  /** No write, lucky or not, touches a directory's blocks. */
  lemma WriteKeepsDirs(s: Fs, o: int, buf: seq<byte>, offset: nat, d: int, x: int)
    requires Ok(s) && o in s.objs && !s.objs[o].isDir && Room(s, buf) && IsDir(s, d) && x in Chain(s, d)
    ensures 0 <= x < |s.blk| && WriteDisk(s, o, buf, offset).0[x] == s.blk[x]
  {
    var c, k, off := Chain(s, o), offset / CAP, offset % CAP;
    InChain(s, d, x);
    if k < |c| {
      InChain(s, o, c[k]);
      if Surplus(off, buf) != [] && FirstRun(s, off, buf).len > 0 {
        WriteDiskRuns(s, o, buf, offset);
        RunBounds(s, off, buf);
        hide Ok, WriteDisk, AppendRuns, FillRun, FirstRun;
        var r := FirstRun(s, off, buf);
        var b := Patched(s.blk[c[k]], off, buf).(next := r.start);
        AppendRunsAt(s.blk[c[k] := b], s.used + Blocks(r.start, r.len), s.max, b, Surplus(off, buf), r, x);
        FillRunAt(s.blk[c[k] := b], b, Surplus(off, buf), r.start, r.len, x);
      }
    }
  }

  lemma NotRootBlock(s: Fs, o: int)
    requires Ok(s) && o in s.objs && o != ROOT
    ensures ROOT !in Chain(s, o)
  {
    assert ObjOk(s, ROOT) && Chain(s, ROOT)[0] == ROOT;
    if ROOT in Chain(s, o) {
      InChain(s, o, ROOT);
      InChain(s, ROOT, ROOT);
    }
  }

  lemma ShortRunPath(blk: seq<Block>, o: int, c: seq<int>, k: nat, r: Run, d: seq<int>)
    requires RunLinked(blk, c, k, r) && c[0] == o && IsChain(blk, o, d)
    ensures r.start + r.len in d && r.start + r.len !in c[..k + 1]
  {
    hide RunLinked, IsChain;
    var n := k + 1 + r.len;
    KBound(blk, c, k, r);
    ThroughRun(blk, o, d, c, k, r, n);
    forall j | 0 <= j <= k ensures c[j] != r.start + r.len {
      ThroughRun(blk, o, d, c, k, r, j);
      ChainDistinct(blk, o, d, j, n);
    }
  }

  lemma KBound(blk: seq<Block>, c: seq<int>, k: nat, r: Run)
    requires RunLinked(blk, c, k, r)
    ensures k < |c| && r.len > 0
  {
  }

  /** From o the blocks form a chain of blocks of c0 and of blocks that were free. */
  ghost predicate LinkedToNew(blk: seq<Block>, used: set<int>, o: int, c0: seq<int>) {
    exists d :: IsChain(blk, o, d) && OldOrNew(d, used, c0)
  }

  ghost predicate OldOrNew(d: seq<int>, used: set<int>, c0: seq<int>) {
    forall x :: x in d ==> x in c0 || x !in used
  }

  /** As written, a multi-block append leaves the file a chain of its old blocks up to the
      offset's and of blocks that were free exactly when the first run covers the surplus. */
  lemma LinksExactly(s: Fs, o: int, buf: seq<byte>, offset: nat)
    requires Ok(s) && o in s.objs && !s.objs[o].isDir && Room(s, buf) && offset / CAP < |Chain(s, o)|
    requires Surplus(offset % CAP, buf) != [] && FirstRun(s, offset % CAP, buf).len > 0
    ensures LinkedToNew(WriteDisk(s, o, buf, offset).0, s.used, o, Chain(s, o)[..offset / CAP + 1])
        <==> Covers(s, offset % CAP, buf)
  {
    hide Ok, WriteDisk, Covers, IsChain, RunLinked, FirstRun;
    var k, off, c := offset / CAP, offset % CAP, Chain(s, o);
    if Covers(s, off, buf) {
      CoveredLinks(s, o, buf, offset);
    } else {
      var blk', r := WriteDisk(s, o, buf, offset).0, FirstRun(s, off, buf);
      NotRoot(s, o);
      ShortRunLinks(s, o, buf, offset, k, r);
      forall d | IsChain(blk', o, d) ensures !OldOrNew(d, s.used, c[..k + 1]) {
        ShortRunPath(blk', o, c, k, r, d);
      }
    }
  }

  lemma NotRoot(s: Fs, o: int)
    requires Ok(s) && o in s.objs && !s.objs[o].isDir
    ensures o != ROOT && Chain(s, o) != [] && Chain(s, o)[0] == o
  {
    assert ObjOk(s, o);
  }

  lemma CoveredLinks(s: Fs, o: int, buf: seq<byte>, offset: nat)
    requires Ok(s) && o in s.objs && !s.objs[o].isDir && Room(s, buf) && offset / CAP < |Chain(s, o)|
    requires FirstRun(s, offset % CAP, buf).len > 0 && Covers(s, offset % CAP, buf)
    ensures LinkedToNew(WriteDisk(s, o, buf, offset).0, s.used, o, Chain(s, o)[..offset / CAP + 1])
  {
    hide Ok, WriteDisk, Covers, FirstRun, IsChain, Surplus, Ceil;
    var k, off, c := offset / CAP, offset % CAP, Chain(s, o);
    var q := WriteDisk(s, o, buf, offset);
    WriteCodesCovered(s, o, buf, offset);
    var (start, m) := Added(s, off, buf);
    WriteExtends(s, o, buf, offset, k, off, start, m, q.0, q.1);
    var d := c[..k + 1] + RunSeq(start, m);
    assert IsChain(q.0, o, d);
    forall x | x in d ensures x in c[..k + 1] || x !in s.used {
    }
  }

  lemma WriteCodesCovered(s: Fs, o: int, buf: seq<byte>, offset: nat)
    requires Ok(s) && o in s.objs && Room(s, buf) && Covers(s, offset % CAP, buf) && offset / CAP < |Chain(s, o)|
    requires FirstRun(s, offset % CAP, buf).len > 0
    ensures WriteDisk(s, o, buf, offset).2 == 0
  {
    var c, k, off := Chain(s, o), offset / CAP, offset % CAP;
    InChain(s, o, c[k]);
    AllWf(s);
    RunBounds(s, off, buf);
    hide Ok;
    var r := FirstRun(s, off, buf);
    var b := Patched(s.blk[c[k]], off, buf).(next := r.start);
    if Surplus(off, buf) != [] {
      OneRun(s.blk[c[k] := b], s.used + Blocks(r.start, r.len), s.max, b, Surplus(off, buf), r);
    }
  }
}
