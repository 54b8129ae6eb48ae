/** u_fs_write at an offset inside the file or at its end, as written. */
module Writing {
  import opened Paths
  import opened Runs
  import opened Disk
  import opened Tree
  import opened FileData
  import opened Creating
  import opened Removing

  /** The block the offset lies in, with as many bytes as fit laid over it. */
  function Patched(b: Block, off: nat, buf: seq<byte>): (r: Block)
    requires WfBlock(b) && off < CAP
    ensures WfBlock(r)
  {
    var ret := Min(CAP - off, |buf|);
    WithData(b.(size := b.size + ret), Overlay(b.data, off, buf[..ret]))
  }

  /** The bytes that do not fit into that block. */
  function Surplus(off: nat, buf: seq<byte>): seq<byte> {
    if off < CAP then buf[Min(CAP - off, |buf|)..] else buf
  }

  /** Blocks asked for to hold n more bytes. */
  function Asked(n: nat): nat {
    n / CAP + 1
  }

  /** The outer loop: run after run until the bytes are used up. A further run is not linked
      to the one before it. */
  function AppendRuns(blk: seq<Block>, used: set<int>, max: nat, content: Block, buf: seq<byte>, r: Run)
      : (q: (seq<Block>, set<int>, int))
    requires WfBlock(content) && r.len > 0 && 0 <= r.start && r.start + r.len <= |blk|
    requires max + Asked(|buf|) <= |blk| && buf != []
    ensures |q.0| == |blk|
    decreases |buf|
  {
    FillRunRest(blk, content, buf, r.start, r.len);
    var (blk1, content1, rest) := FillRun(blk, content, buf, r.start, r.len);
    if rest == [] then (blk1, used, 0)
    else
      var r1 := Best(used, FIRST, max - 1, Asked(|rest|));
      if r1.len < 1 then (blk1, used, -1)
      else AppendRuns(blk1, used + Blocks(r1.start, r1.len), max, content1, rest, r1)
  }

  /** The device has room behind the file system's last block for a run that starts inside it. */
  ghost predicate Room(s: Fs, buf: seq<byte>) {
    s.max + Asked(|buf|) <= |s.blk|
  }

  function FirstRun(s: Fs, off: nat, buf: seq<byte>): Run {
    Best(s.used, FIRST, s.max - 1, Asked(|Surplus(off, buf)|))
  }

  /** The disk after the data has been written to the chain of object o, and 0 or -1. */
  function WriteDisk(s: Fs, o: int, buf: seq<byte>, offset: nat): (q: (seq<Block>, set<int>, int))
    requires Ok(s) && o in s.objs && Room(s, buf)
    ensures |q.0| == |s.blk|
  {
    var c, k, off := Chain(s, o), offset / CAP, offset % CAP;
    if k >= |c| then (s.blk, s.used, -1)
    else
      InChain(s, o, c[k]);
      var b, rest := Patched(s.blk[c[k]], off, buf), Surplus(off, buf);
      if rest == [] then (s.blk[c[k] := b.(next := -1)], s.used - SetOf(c[k + 1..]), 0)
      else
        var r := FirstRun(s, off, buf);
        if r.len < 1 then (s.blk, s.used, -1)
        else AppendRuns(s.blk[c[k] := b.(next := r.start)], s.used + Blocks(r.start, r.len), s.max,
            b.(next := r.start), rest, r)
  }

  /** Object o keeps its blocks up to k and continues in the m blocks from start on. */
  function Relink(s: Fs, o: int, k: nat, start: int, m: nat, blk': seq<Block>, used': set<int>): Fs
    requires o in s.objs && k < |Chain(s, o)|
  {
    var c, tail := Chain(s, o), Blocks(start, m);
    Fs(blk', used', s.max, s.objs[o := Obj(s.objs[o].isDir, c[..k + 1] + RunSeq(start, m))],
       map b | b in (s.home.Keys - SetOf(c[k + 1..])) + tail :: if b in tail then (o, k + 1 + b - start) else s.home[b],
       s.ref)
  }

  function SetSize(s: Fs, b: int, k: int, fsize: nat): Fs {
    if 0 <= k < |SlotsAt(s.blk, b)|
    then s.(blk := ModifySlot(s.blk, b, k, SlotsAt(s.blk, b)[k].(fsize := fsize)))
    else s
  }

  /** What the write adds to the chain: nothing, or the first run's blocks that are needed. */
  function Added(s: Fs, off: nat, buf: seq<byte>): (int, nat) {
    (FirstRun(s, off, buf).start, Ceil(|Surplus(off, buf)|))
  }

  function Write(s: Fs, path: seq<string>, buf: seq<byte>, offset: nat): (Fs, int)
    requires Ok(s) && Room(s, buf)
  {
    match Resolve(s, path)
    case None => (s, -ENOENT)
    case Some(e) =>
      ResolveMeans(s, path);
      var (blk', used', res) := WriteDisk(s, e.start, buf, offset);
      if res < 0 then (s.(blk := blk', used := used'), -1)
      else
        var (start, m) := Added(s, offset % CAP, buf);
        var s1 := Relink(s, e.start, offset / CAP, start, m, blk', used');
        if e.fsize < offset + |buf| && e.start in s.ref
        then (SetSize(s1, s.ref[e.start].0, s.ref[e.start].1, offset + |buf|), |buf|)
        else (s1, |buf|)
  }

  /** The first run found holds everything that does not fit into the offset's block. */
  predicate Covers(s: Fs, off: nat, buf: seq<byte>) {
    |Surplus(off, buf)| <= CAP * FirstRun(s, off, buf).len
  }

  /** A write that succeeds and whose first run covers the surplus, with its parts named: it
      starts in block k of the chain at byte off, and adds m blocks from start on. */
  ghost predicate Planned(s: Fs, o: int, buf: seq<byte>, offset: nat,
                          k: nat, off: nat, start: int, m: nat, blk': seq<Block>, used': set<int>) {
    && Ok(s) && o in s.objs && !s.objs[o].isDir && Room(s, buf)
    && k == offset / CAP && off == offset % CAP
    && WriteDisk(s, o, buf, offset) == (blk', used', 0)
    && Covers(s, off, buf) && Added(s, off, buf) == (start, m)
  }

  // ---- the chain

  lemma ChainSplice(blk: seq<Block>, blk': seq<Block>, o: int, c: seq<int>, k: nat, tail: seq<int>)
    requires IsChain(blk, o, c) && k < |c| && |blk'| == |blk|
    requires forall i :: 0 <= i < k ==> blk'[c[i]].next == blk[c[i]].next
    requires blk'[c[k]].next == Head(tail) && IsChain(blk', Head(tail), tail)
    ensures IsChain(blk', o, c[..k + 1] + tail)
  {
    var d := c[..k + 1] + tail;
    forall i | 0 <= i < |d| ensures 0 <= d[i] < |blk'| && blk'[d[i]].next == NextIn(d, i) {
      if i <= k {
        assert d[i] == c[i];
        assert i < k ==> NextIn(d, i) == NextIn(c, i);
      } else {
        assert d[i] == tail[i - k - 1] && NextIn(d, i) == NextIn(tail, i - k - 1);
      }
    }
  }

  /** The blocks a good write leaves: of all the blocks in use only the offset's block has
      changed, and the object's chain goes on behind it in m further blocks. */
  ghost predicate ExtendsBlk(s: Fs, o: int, k: nat, start: int, m: nat, blk': seq<Block>) {
    && o in s.objs && !s.objs[o].isDir && k < |Chain(s, o)|
    && |blk'| == |s.blk| && (forall x :: 0 <= x < |blk'| ==> WfBlock(blk'[x]))
    && (forall x :: x in s.home && x != Chain(s, o)[k] ==> 0 <= x < |s.blk| && blk'[x] == s.blk[x])
    && IsChain(blk', o, Chain(s, o)[..k + 1] + RunSeq(start, m))
  }

  /** The further blocks were free and are marked used; of the others at most those cut off
      the chain are freed. */
  ghost predicate ExtendsUsed(s: Fs, o: int, k: nat, start: int, m: nat, used': set<int>) {
    && k < |Chain(s, o)|
    && (forall x :: start <= x < start + m ==> FIRST <= x && x !in s.used && x in used')
    && (forall x :: x in s.used && x !in Chain(s, o)[k + 1..] ==> x in used')
  }

  ghost predicate Extends(s: Fs, o: int, k: nat, start: int, m: nat, blk': seq<Block>, used': set<int>) {
    ExtendsBlk(s, o, k, start, m, blk') && ExtendsUsed(s, o, k, start, m, used')
  }

  lemma HomeBounds(s: Fs)
    requires Ok(s)
    ensures forall x :: x in s.home ==> 0 <= x < |s.blk| && (x == ROOT || x in s.used)
  {
    forall x | x in s.home ensures 0 <= x < |s.blk| && (x == ROOT || x in s.used) {
      BlockOf(s, x);
      InChain(s, s.home[x].0, x);
    }
  }

  lemma ChainHomes(s: Fs, o: int, k: nat)
    requires Ok(s) && o in s.objs && k < |Chain(s, o)|
    ensures IsChain(s.blk, o, Chain(s, o))
    ensures var c := Chain(s, o);
      forall i :: 0 <= i < |c| ==>
          c[i] in s.home && 0 <= c[i] < |s.blk| && (c[i] == ROOT || c[i] in s.used) && (i < k ==> c[i] != c[k])
  {
    var c := Chain(s, o);
    assert ObjOk(s, o);
    forall i | 0 <= i < |c|
      ensures c[i] in s.home && 0 <= c[i] < |s.blk| && (c[i] == ROOT || c[i] in s.used) && (i < k ==> c[i] != c[k])
    {
      InChain(s, o, c[i]);
      if i < k {
        ChainDistinct(s.blk, o, c, i, k);
      }
    }
  }

  lemma EndChain(s: Fs, o: int, k: nat, b: Block, start: int)
    requires Ok(s) && o in s.objs && k < |Chain(s, o)| && b.next == -1 && 0 <= Chain(s, o)[k] < |s.blk|
    ensures IsChain(s.blk[Chain(s, o)[k] := b], o, Chain(s, o)[..k + 1] + RunSeq(start, 0))
  {
    ChainHomes(s, o, k);
    hide Ok;
    EndOfChain(s.blk[Chain(s, o)[k] := b]);
    assert RunSeq(start, 0) == [];
    ChainSplice(s.blk, s.blk[Chain(s, o)[k] := b], o, Chain(s, o), k, []);
  }

  lemma EndExtends(s: Fs, o: int, k: nat, b: Block, start: int)
    requires Ok(s) && o in s.objs && !s.objs[o].isDir && k < |Chain(s, o)| && WfBlock(b) && b.next == -1
    requires 0 <= Chain(s, o)[k] < |s.blk|
    ensures Extends(s, o, k, start, 0, s.blk[Chain(s, o)[k] := b], s.used - SetOf(Chain(s, o)[k + 1..]))
  {
    hide Ok, IsChain, WfBlock;
    HomeBounds(s);
    AllWf(s);
    EndChain(s, o, k, b, start);
  }

  lemma FillRunAll(blk: seq<Block>, content: Block, buf: seq<byte>, b: int, n: nat)
    requires 0 <= b && b + n <= |blk| && WfBlock(content)
    requires forall x :: 0 <= x < |blk| ==> WfBlock(blk[x])
    ensures var blk' := FillRun(blk, content, buf, b, n).0;
      && (forall x :: 0 <= x < |blk| ==> WfBlock(blk'[x]))
      && forall x :: 0 <= x < |blk| && !(b <= x < b + n) ==> blk'[x] == blk[x]
  {
    hide FillRun, WfBlock;
    forall x | 0 <= x < |blk|
      ensures WfBlock(FillRun(blk, content, buf, b, n).0[x])
      ensures !(b <= x < b + n) ==> FillRun(blk, content, buf, b, n).0[x] == blk[x]
    {
      FillRunAt(blk, content, buf, b, n, x);
    }
  }

  lemma RunChain(blk: seq<Block>, o: int, c: seq<int>, k: nat, b: Block, buf: seq<byte>, r: Run)
    requires IsChain(blk, o, c) && k < |c| && (forall i :: 0 <= i < k ==> c[i] != c[k])
    requires WfBlock(b) && b.next == r.start && 0 <= c[k] < |blk|
    requires 0 <= r.start && r.start + r.len <= |blk| && 0 < |buf| <= CAP * r.len
    requires forall i :: 0 <= i < |c| ==> !(r.start <= c[i] < r.start + r.len)
    ensures IsChain(FillRun(blk[c[k] := b], b, buf, r.start, r.len).0, o, c[..k + 1] + RunSeq(r.start, Ceil(|buf|)))
  {
    hide FillRun, Ceil;
    var blk1 := blk[c[k] := b];
    var blk' := FillRun(blk1, b, buf, r.start, r.len).0;
    forall i | 0 <= i <= k ensures blk'[c[i]] == blk1[c[i]] {
      FillRunAt(blk1, b, buf, r.start, r.len, c[i]);
    }
    FillRunChain(blk1, b, buf, r.start, r.len);
    assert Head(RunSeq(r.start, Ceil(|buf|))) == r.start;
    ChainSplice(blk, blk', o, c, k, RunSeq(r.start, Ceil(|buf|)));
  }

  lemma RunExtendsBlk(s: Fs, o: int, c: seq<int>, k: nat, b: Block, buf: seq<byte>, r: Run)
    requires o in s.objs && !s.objs[o].isDir && c == Chain(s, o) && k < |c| && WfBlock(b) && b.next == r.start
    requires IsChain(s.blk, o, c) && (forall i :: 0 <= i < k ==> c[i] != c[k]) && 0 <= c[k] < |s.blk|
    requires forall i :: 0 <= i < |c| ==> c[i] in s.home
    requires forall x :: 0 <= x < |s.blk| ==> WfBlock(s.blk[x])
    requires 0 <= r.start && r.start + r.len <= |s.blk| && 0 < |buf| <= CAP * r.len
    requires forall x :: x in s.home ==> 0 <= x < |s.blk| && !(r.start <= x < r.start + r.len)
    ensures ExtendsBlk(s, o, k, r.start, Ceil(|buf|), FillRun(s.blk[c[k] := b], b, buf, r.start, r.len).0)
  {
    hide FillRun, WfBlock, Ceil, IsChain;
    RunChain(s.blk, o, c, k, b, buf, r);
    FillRunAll(s.blk[c[k] := b], b, buf, r.start, r.len);
  }

  lemma RunExtends(s: Fs, o: int, k: nat, b: Block, buf: seq<byte>, r: Run)
    requires Ok(s) && o in s.objs && !s.objs[o].isDir && k < |Chain(s, o)| && WfBlock(b) && b.next == r.start
    requires 0 <= Chain(s, o)[k] < |s.blk|
    requires FIRST <= r.start && r.start + r.len <= |s.blk| && 0 < |buf| <= CAP * r.len
    requires forall x :: r.start <= x < r.start + r.len ==> x !in s.used
    ensures ExtendsBlk(s, o, k, r.start, Ceil(|buf|), FillRun(s.blk[Chain(s, o)[k] := b], b, buf, r.start, r.len).0)
  {
    HomeBounds(s);
    AllWf(s);
    ChainHomes(s, o, k);
    hide Ok, FillRun, WfBlock, Ceil, IsChain, ExtendsBlk;
    RunExtendsBlk(s, o, Chain(s, o), k, b, buf, r);
  }

  /** Under Covers the outer loop makes one round. */
  lemma OneRun(blk: seq<Block>, used: set<int>, max: nat, content: Block, buf: seq<byte>, r: Run)
    requires WfBlock(content) && r.len > 0 && 0 <= r.start && r.start + r.len <= |blk|
    requires max + Asked(|buf|) <= |blk| && 0 < |buf| <= CAP * r.len
    ensures AppendRuns(blk, used, max, content, buf, r) == (FillRun(blk, content, buf, r.start, r.len).0, used, 0)
  {
    FillRunRest(blk, content, buf, r.start, r.len);
  }

  lemma RunBounds(s: Fs, off: nat, buf: seq<byte>)
    requires Ok(s) && off < CAP && FirstRun(s, off, buf).len > 0 && Room(s, buf)
    ensures var r := FirstRun(s, off, buf);
      && FIRST <= r.start < s.max - 1 && r.start + r.len <= |s.blk| && r.len <= Asked(|Surplus(off, buf)|)
      && Asked(|Surplus(off, buf)|) <= Asked(|buf|)
      && forall x :: r.start <= x < r.start + r.len ==> x !in s.used
  {
    BestMeans(s.used, FIRST, s.max - 1, Asked(|Surplus(off, buf)|));
  }

  lemma WriteExtends(s: Fs, o: int, buf: seq<byte>, offset: nat,
                     k: nat, off: nat, start: int, m: nat, blk': seq<Block>, used': set<int>)
    requires Planned(s, o, buf, offset, k, off, start, m, blk', used')
    ensures Extends(s, o, k, start, m, blk', used')
  {
    var c := Chain(s, o);
    InChain(s, o, c[k]);
    AllWf(s);
    hide Ok, ExtendsBlk;
    var b, rest, r := Patched(s.blk[c[k]], off, buf), Surplus(off, buf), FirstRun(s, off, buf);
    if rest == [] {
      EndExtends(s, o, k, b.(next := -1), r.start);
    } else {
      RunBounds(s, off, buf);
      OneRun(s.blk[c[k] := b.(next := r.start)], s.used + Blocks(r.start, r.len), s.max, b.(next := r.start), rest, r);
      RunExtends(s, o, k, b.(next := r.start), rest, r);
      CeilStep(|rest|);
      hide FillRun, AppendRuns;
    }
  }

  // ---- the object lists after a good write

  lemma RelinkKept(s: Fs, o: int, k: nat, start: int, m: nat, blk': seq<Block>, used': set<int>, i: nat)
    requires Ok(s) && o in s.objs && ExtendsUsed(s, o, k, start, m, used') && i <= k
    ensures PlaceOk(Relink(s, o, k, start, m, blk', used'), o, i, Chain(s, o)[i])
  {
    ChainTailApart(s, o, k);
    InChain(s, o, Chain(s, o)[i]);
    assert ObjOk(s, o);
    assert PlaceOk(s, o, i, Chain(s, o)[i]);
    hide Ok, ObjOk;
  }

  lemma RelinkNew(s: Fs, o: int, k: nat, start: int, m: nat, blk': seq<Block>, used': set<int>, j: nat)
    requires o in s.objs && ExtendsUsed(s, o, k, start, m, used') && j < m
    ensures PlaceOk(Relink(s, o, k, start, m, blk', used'), o, k + 1 + j, start + j)
  {
    var x := start + j;
    assert x in used' && x in Blocks(start, m);
  }

  lemma RelinkPlace(s: Fs, o: int, k: nat, start: int, m: nat, blk': seq<Block>, used': set<int>, i: nat)
    requires Ok(s) && o in s.objs && ExtendsUsed(s, o, k, start, m, used') && i < k + 1 + m
    ensures PlaceOk(Relink(s, o, k, start, m, blk', used'), o, i, (Chain(s, o)[..k + 1] + RunSeq(start, m))[i])
  {
    hide Ok, Relink, PlaceOk;
    if i <= k {
      RelinkKept(s, o, k, start, m, blk', used', i);
    } else {
      RelinkNew(s, o, k, start, m, blk', used', i - k - 1);
    }
  }

  lemma RelinkOwn(s: Fs, o: int, k: nat, start: int, m: nat, blk': seq<Block>, used': set<int>)
    requires Ok(s) && Extends(s, o, k, start, m, blk', used')
    ensures ObjOk(Relink(s, o, k, start, m, blk', used'), o)
  {
    assert Chain(s, o)[0] == o by { assert ObjOk(s, o); }
    RelinkShape(s, o, k, start, m, blk', used');
    hide Ok, PlaceOk, IsChain, Relink, ExtendsUsed;
    var s' := Relink(s, o, k, start, m, blk', used');
    forall i | 0 <= i < k + 1 + m ensures PlaceOk(s', o, i, Chain(s', o)[i]) {
      RelinkPlace(s, o, k, start, m, blk', used', i);
    }
  }

  /** The blocks dropped are none of those kept. */
  lemma ChainTailApart(s: Fs, o: int, k: nat)
    requires Ok(s) && o in s.objs && k < |Chain(s, o)|
    ensures forall i :: 0 <= i <= k ==> Chain(s, o)[i] !in Chain(s, o)[k + 1..]
  {
    var c := Chain(s, o);
    assert ObjOk(s, o);
    forall i, j | 0 <= i <= k < j < |c| ensures c[i] != c[j] {
      assert PlaceOk(s, o, i, c[i]) && PlaceOk(s, o, j, c[j]);
    }
  }

  lemma RelinkOtherBlock(s: Fs, o: int, k: nat, start: int, m: nat, blk': seq<Block>, used': set<int>, p: int, x: int)
    requires Ok(s) && Extends(s, o, k, start, m, blk', used') && p in s.objs && p != o && x in Chain(s, p)
    ensures var s' := Relink(s, o, k, start, m, blk', used');
      0 <= x < |s.blk| && blk'[x] == s.blk[x] && x in s'.home && s'.home[x] == s.home[x] && (x == ROOT || x in used')
  {
    InChain(s, p, x);
    InChain(s, o, Chain(s, o)[k]);
    if x in Chain(s, o)[k + 1..] {
      assert x in Chain(s, o);
      InChain(s, o, x);
    }
    hide Ok, IsChain;
  }

  lemma ExtendsSize(s: Fs, o: int, k: nat, start: int, m: nat, blk': seq<Block>, used': set<int>)
    requires Extends(s, o, k, start, m, blk', used')
    ensures |blk'| == |s.blk|
  {
  }

  lemma RelinkOther(s: Fs, o: int, k: nat, start: int, m: nat, blk': seq<Block>, used': set<int>, p: int)
    requires Ok(s) && Extends(s, o, k, start, m, blk', used') && p in s.objs && p != o
    ensures var s' := Relink(s, o, k, start, m, blk', used');
      && ObjOk(s', p) && Chain(s', p) == Chain(s, p)
      && (forall x :: x in Chain(s, p) ==> 0 <= x < |s.blk| && blk'[x] == s.blk[x])
  {
    hide Ok, Extends, Relink, IsChain;
    KInChain(s, o, k, start, m, blk', used');
    var s', c := Relink(s, o, k, start, m, blk', used'), Chain(s, p);
    ChainOnDisk(s, p);
    ExtendsSize(s, o, k, start, m, blk', used');
    RelinkShape(s, o, k, start, m, blk', used');
    forall x | x in c
      ensures 0 <= x < |s.blk| && blk'[x] == s.blk[x] && x in s'.home && s'.home[x] == s.home[x]
      ensures x == ROOT || x in used'
    {
      RelinkOtherBlock(s, o, k, start, m, blk', used', p, x);
    }
    ChainFrame(s.blk, blk', p, c);
    forall i | 0 <= i < |c| ensures PlaceOk(s', p, i, c[i]) {
      assert PlaceOk(s, p, i, c[i]);
      assert c[i] in c;
    }
  }

  lemma RelinkShape(s: Fs, o: int, k: nat, start: int, m: nat, blk': seq<Block>, used': set<int>)
    requires o in s.objs && k < |Chain(s, o)|
    ensures var s' := Relink(s, o, k, start, m, blk', used');
      && s'.blk == blk' && s'.used == used' && s'.max == s.max && s'.ref == s.ref && s'.objs.Keys == s.objs.Keys
      && (forall p :: p in s.objs ==> s'.objs[p].isDir == s.objs[p].isDir)
      && (forall p :: p in s.objs && p != o ==> Chain(s', p) == Chain(s, p))
      && Chain(s', o) == Chain(s, o)[..k + 1] + RunSeq(start, m)
  {
  }

  lemma KInChain(s: Fs, o: int, k: nat, start: int, m: nat, blk': seq<Block>, used': set<int>)
    requires Extends(s, o, k, start, m, blk', used')
    ensures o in s.objs && k < |Chain(s, o)|
  {
  }

  lemma RelinkHomeIs(s: Fs, o: int, k: nat, start: int, m: nat, blk': seq<Block>, used': set<int>, x: int)
    requires o in s.objs && k < |Chain(s, o)| && x in Relink(s, o, k, start, m, blk', used').home
    ensures Relink(s, o, k, start, m, blk', used').home[x] == if x in Blocks(start, m) then (o, k + 1 + x - start)
        else s.home[x]
    ensures x in Blocks(start, m) || (x in s.home && x !in Chain(s, o)[k + 1..])
  {
  }

  lemma HomeHere(s: Fs, x: int)
    requires Ok(s) && x in s.home
    ensures HomeOk(s, x)
  {
  }

  lemma RelinkHome(s: Fs, o: int, k: nat, start: int, m: nat, blk': seq<Block>, used': set<int>, x: int)
    requires Ok(s) && Extends(s, o, k, start, m, blk', used') && x in Relink(s, o, k, start, m, blk', used').home
    ensures HomeOk(Relink(s, o, k, start, m, blk', used'), x)
  {
    hide Ok, Extends, Relink, IsChain;
    KInChain(s, o, k, start, m, blk', used');
    RelinkShape(s, o, k, start, m, blk', used');
    RelinkHomeIs(s, o, k, start, m, blk', used', x);
    var c := Chain(s, o);
    if x in Blocks(start, m) {
      assert (c[..k + 1] + RunSeq(start, m))[k + 1 + (x - start)] == x;
    } else {
      HomeHere(s, x);
    }
  }

  lemma RelinkSlot(s: Fs, o: int, k: nat, start: int, m: nat, blk': seq<Block>, used': set<int>, x: int, j: int)
    requires Ok(s) && Extends(s, o, k, start, m, blk', used')
    requires DirBlock(Relink(s, o, k, start, m, blk', used'), x) && 0 <= j < |SlotsAt(blk', x)|
    ensures SlotOk(Relink(s, o, k, start, m, blk', used'), SlotsAt(blk', x)[j], x, j)
  {
    RelinkShape(s, o, k, start, m, blk', used');
    assert x in s.home && s.home[x].0 != o && DirBlock(s, x);
    BlockOf(s, x);
    RelinkOther(s, o, k, start, m, blk', used', s.home[x].0);
    DirSlot(s, x, j);
    hide Ok, Relink, Extends;
  }

  lemma RelinkOk(s: Fs, o: int, k: nat, start: int, m: nat, blk': seq<Block>, used': set<int>)
    requires Ok(s) && Extends(s, o, k, start, m, blk', used')
    ensures Ok(Relink(s, o, k, start, m, blk', used'))
  {
    var s' := Relink(s, o, k, start, m, blk', used');
    Basics(s);
    RelinkShape(s, o, k, start, m, blk', used');
    assert forall x :: 0 <= x < |blk'| ==> WfBlock(blk'[x]);
    hide Ok, ObjOk, HomeOk, SlotOk, Extends, Relink, WfBlock;
    forall p | p in s'.objs ensures ObjOk(s', p) {
      if p == o {
        RelinkOwn(s, o, k, start, m, blk', used');
      } else {
        RelinkOther(s, o, k, start, m, blk', used', p);
      }
    }
    forall x | x in s'.home ensures HomeOk(s', x) {
      RelinkHome(s, o, k, start, m, blk', used', x);
    }
    forall x, j | DirBlock(s', x) && 0 <= j < |SlotsAt(s'.blk, x)| ensures SlotOk(s', SlotsAt(s'.blk, x)[j], x, j) {
      RelinkSlot(s, o, k, start, m, blk', used', x, j);
    }
    OkFrom(s');
  }

  /** The write changes no directory. */
  lemma RelinkEntry(s: Fs, o: int, k: nat, start: int, m: nat, blk': seq<Block>, used': set<int>, d: int, x: string)
    requires Ok(s) && Extends(s, o, k, start, m, blk', used')
    ensures Entry(Relink(s, o, k, start, m, blk', used'), d, x) == Entry(s, d, x)
  {
    RelinkShape(s, o, k, start, m, blk', used');
    if IsDir(s, d) {
      RelinkOther(s, o, k, start, m, blk', used', d);
      hide Ok, Extends, Relink;
      FindFrame(s.blk, blk', Chain(s, d), x);
      if FindIn(s.blk, Chain(s, d), x).Some? {
        var (b, j) := FindIn(s.blk, Chain(s, d), x).value;
        assert b in Chain(s, d);
      }
    }
  }

  // ---- the size in the entry

  lemma SetSizeObj(s: Fs, b: int, k: int, fsize: nat, o: int)
    requires Ok(s) && o in s.objs
    ensures ObjOk(SetSize(s, b, k, fsize), o)
  {
    assert ObjOk(s, o);
    hide Ok, IsChain;
    var s' := SetSize(s, b, k, fsize);
    ChainFrame(s.blk, s'.blk, o, Chain(s, o)) by {
      ChainOnDisk(s, o);
    }
    forall i | 0 <= i < |Chain(s, o)| ensures PlaceOk(s', o, i, Chain(s, o)[i]) {
      assert PlaceOk(s, o, i, Chain(s, o)[i]);
    }
  }

  lemma ChainOnDisk(s: Fs, o: int)
    requires Ok(s) && o in s.objs
    ensures ObjOk(s, o) && IsChain(s.blk, o, Chain(s, o)) && forall x :: x in Chain(s, o) ==> 0 <= x < |s.blk|
  {
    assert ObjOk(s, o);
  }

  lemma SetSizeSlot(s: Fs, b: int, k: int, fsize: nat, x: int, j: int)
    requires Ok(s) && DirBlock(s, x)
    requires 0 <= j < |SlotsAt(SetSize(s, b, k, fsize).blk, x)|
    ensures SlotOk(SetSize(s, b, k, fsize), SlotsAt(SetSize(s, b, k, fsize).blk, x)[j], x, j)
  {
    DirSlot(s, x, j);
    hide Ok;
  }

  lemma SetSizeOk(s: Fs, b: int, k: int, fsize: nat)
    requires Ok(s)
    ensures Ok(SetSize(s, b, k, fsize))
  {
    hide Ok, ObjOk, HomeOk, SlotOk;
    var s' := SetSize(s, b, k, fsize);
    Basics(s);
    AllWf(s);
    forall o | o in s'.objs ensures ObjOk(s', o) {
      SetSizeObj(s, b, k, fsize, o);
    }
    forall x, j | DirBlock(s', x) && 0 <= j < |SlotsAt(s'.blk, x)| ensures SlotOk(s', SlotsAt(s'.blk, x)[j], x, j) {
      SetSizeSlot(s, b, k, fsize, x, j);
    }
    forall x | x in s'.home ensures HomeOk(s', x) {
      HomeHere(s, x);
      SetSizeHome(s, b, k, fsize, x);
    }
    OkFrom(s');
  }

  lemma SetSizeHome(s: Fs, b: int, k: int, fsize: nat, x: int)
    requires x in s.home && HomeOk(s, x)
    ensures HomeOk(SetSize(s, b, k, fsize), x)
  {
  }

  lemma SetSizeEntry(s: Fs, b: int, k: int, fsize: nat, d: int, x: string)
    ensures FindIn(SetSize(s, b, k, fsize).blk, Chain(s, d), x) == FindIn(s.blk, Chain(s, d), x)
    ensures Entry(s, d, x).None? ==> Entry(SetSize(s, b, k, fsize), d, x) == None
    ensures Entry(s, d, x).Some? ==>
      var e := Entry(s, d, x).value;
      Entry(SetSize(s, b, k, fsize), d, x)
        == Some(if FindIn(s.blk, Chain(s, d), x) == Some((b, k)) then e.(fsize := fsize) else e)
  {
    hide FindIn, WithNumbers;
    FindSame(s.blk, SetSize(s, b, k, fsize).blk, Chain(s, d), x);
  }
}
