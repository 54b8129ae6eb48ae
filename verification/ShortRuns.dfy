/** A write whose first run is too short: its file then runs on into a block that was in use.
    When the disk is still a good one, and when it is not. */
module ShortRuns {
  import opened Runs
  import opened Disk
  import opened Tree
  import opened FileData
  import opened Creating
  import opened Removing
  import opened HalfGrowing
  import opened Writing
  import opened Splicing
  import opened Appending

  // ---- any change of a disk that leaves the other objects' blocks alone

  /** Blocks and marks that differ from those of s in file o and in blocks of no object only. */
  ghost predicate Spares(s: Fs, blk': seq<Block>, used': set<int>, o: int) {
    && Ok(s) && o in s.objs && !s.objs[o].isDir && |blk'| == |s.blk| && s.used <= used'
    && (forall x :: 0 <= x < |blk'| ==> WfBlock(blk'[x]))
    && (forall p, x :: p in s.objs && p != o && x in Chain(s, p) && 0 <= x < |s.blk| ==> blk'[x] == s.blk[x])
  }

  /** A state of that disk with the objects of s. */
  ghost predicate Listing(s: Fs, blk': seq<Block>, used': set<int>, o: int, r: Fs) {
    && r.blk == blk' && r.used == used' && r.max == s.max
    && r.objs.Keys == s.objs.Keys && o in r.objs && !r.objs[o].isDir
    && (forall p :: p in s.objs && p != o ==> r.objs[p] == s.objs[p])
  }

  function Rechained(s: Fs, blk': seq<Block>, used': set<int>, o: int, c: seq<int>): Fs {
    Fs(blk', used', s.max, s.objs[o := Obj(false, c)],
       map b | b in (s.home.Keys - SetOf(Chain(s, o))) + SetOf(c) :: if b in c then (o, PlaceIn(c, b)) else s.home[b],
       s.ref)
  }

  lemma RechainedOwn(s: Fs, blk': seq<Block>, used': set<int>, o: int, c: seq<int>)
    requires Spares(s, blk', used', o) && OwnChain(s, blk', used', o, o, c)
    ensures ObjOk(Rechained(s, blk', used', o, c), o)
  {
    hide Ok, IsChain, Spares;
    SparesOne(s, blk', used', o);
    var s' := Rechained(s, blk', used', o, c);
    HeadIs(blk', o, c);
    assert Chain(s', o) == c;
    forall i | 0 <= i < |c| ensures PlaceOk(s', o, i, c[i]) {
      assert c[i] in c;
      if PlaceIn(c, c[i]) < i {
        ChainDistinct(blk', o, c, PlaceIn(c, c[i]), i);
      } else if PlaceIn(c, c[i]) > i {
        ChainDistinct(blk', o, c, i, PlaceIn(c, c[i]));
      }
    }
  }

  lemma SparesOne(s: Fs, blk': seq<Block>, used': set<int>, o: int)
    requires Spares(s, blk', used', o)
    ensures Ok(s) && o in s.objs && ROOT <= o
  {
    ObjHere(s, o);
    InChain(s, o, o);
  }

  lemma HeadIs(blk: seq<Block>, b: int, c: seq<int>)
    requires IsChain(blk, b, c) && b >= 0
    ensures c != [] && c[0] == b
  {
  }

  lemma RechainedOther(s: Fs, blk': seq<Block>, used': set<int>, o: int, c: seq<int>, p: int)
    requires Spares(s, blk', used', o) && OwnChain(s, blk', used', o, o, c) && p in s.objs && p != o
    ensures ObjOk(Rechained(s, blk', used', o, c), p)
  {
    ObjHere(s, p);
    OthersApart(s, o, p);
    forall x | x in Chain(s, p) ensures 0 <= x < |s.blk| {
      ChainBounds(s, p, x);
    }
    hide Ok, IsChain;
    var s', d := Rechained(s, blk', used', o, c), Chain(s, p);
    ChainFrame(s.blk, blk', p, d);
    forall i | 0 <= i < |d| ensures PlaceOk(s', p, i, d[i]) {
      assert PlaceOk(s, p, i, d[i]) && d[i] in d;
    }
  }

  lemma RechainedHome(s: Fs, blk': seq<Block>, used': set<int>, o: int, c: seq<int>, x: int)
    requires Ok(s) && o in s.objs && x in Rechained(s, blk', used', o, c).home
    ensures HomeOk(Rechained(s, blk', used', o, c), x)
  {
    if x !in c {
      assert HomeOk(s, x);
    }
    hide Ok;
  }

  lemma RechainedSlot(s: Fs, blk': seq<Block>, used': set<int>, o: int, c: seq<int>, b: int, k: int)
    requires Spares(s, blk', used', o) && DirBlock(Rechained(s, blk', used', o, c), b) && 0 <= k < |SlotsAt(blk', b)|
    ensures SlotOk(Rechained(s, blk', used', o, c), SlotsAt(blk', b)[k], b, k)
  {
    var s' := Rechained(s, blk', used', o, c);
    SparesDirs(s, blk', used', o, c, b);
    DirSlot(s, b, k);
    hide Ok, Spares;
  }

  lemma SparesDirs(s: Fs, blk': seq<Block>, used': set<int>, o: int, c: seq<int>, b: int)
    requires Spares(s, blk', used', o) && DirBlock(Rechained(s, blk', used', o, c), b)
    ensures DirBlock(s, b) && 0 <= b < |s.blk| && blk'[b] == s.blk[b] && Ok(s) && o in s.objs && !s.objs[o].isDir
  {
    BlockOf(s, b);
    ChainBounds(s, s.home[b].0, b);
    hide Ok;
  }

  lemma RechainedOk(s: Fs, blk': seq<Block>, used': set<int>, o: int, c: seq<int>)
    requires Spares(s, blk', used', o) && OwnChain(s, blk', used', o, o, c)
    ensures Ok(Rechained(s, blk', used', o, c)) && Listing(s, blk', used', o, Rechained(s, blk', used', o, c))
  {
    Basics(s);
    hide Ok, ObjOk, HomeOk, SlotOk, OwnChain;
    var s' := Rechained(s, blk', used', o, c);
    forall p | p in s'.objs ensures ObjOk(s', p) {
      if p == o {
        RechainedOwn(s, blk', used', o, c);
      } else {
        RechainedOther(s, blk', used', o, c, p);
      }
    }
    forall x | x in s'.home ensures HomeOk(s', x) {
      RechainedHome(s, blk', used', o, c, x);
    }
    forall b, k | DirBlock(s', b) && 0 <= k < |SlotsAt(s'.blk, b)| ensures SlotOk(s', SlotsAt(s'.blk, b)[k], b, k) {
      RechainedSlot(s, blk', used', o, c, b, k);
    }
    OkFrom(s');
  }

  lemma ListingOwns(s: Fs, blk': seq<Block>, used': set<int>, o: int, r: Fs)
    requires Ok(s) && Ok(r) && Listing(s, blk', used', o, r)
    ensures OwnChain(s, blk', used', o, o, Chain(r, o))
  {
    ObjHere(r, o);
    hide Ok, IsChain;
    forall x | x in Chain(r, o) ensures ROOT <= x && (x == ROOT || x in used') {
      InChain(r, o, x);
    }
    forall x, p | x in Chain(r, o) && p in s.objs && p != o ensures x !in Chain(s, p) {
      InChain(r, o, x);
      if x in Chain(s, p) {
        assert Chain(r, p) == Chain(s, p);
        InChain(r, p, x);
      }
    }
  }

  // ---- the write

  /** The write gets as far as searching, and finds a first run too short. */
  ghost predicate Short(s: Fs, o: int, buf: seq<byte>, offset: nat) {
    && Ok(s) && o in s.objs && !s.objs[o].isDir && Room(s, buf) && offset / CAP < |Chain(s, o)|
    && FirstRun(s, offset % CAP, buf).len > 0 && !Covers(s, offset % CAP, buf)
  }

  lemma {:induction false} AppendRunsMore(blk: seq<Block>, used: set<int>, max: nat, content: Block, buf: seq<byte>,
                                          r: Run)
    requires WfBlock(content) && r.len > 0 && 0 <= r.start && r.start + r.len <= |blk|
    requires max + Asked(|buf|) <= |blk| && buf != [] && forall x :: 0 <= x < |blk| ==> WfBlock(blk[x])
    ensures var q := AppendRuns(blk, used, max, content, buf, r);
      used <= q.1 && forall x :: 0 <= x < |q.0| ==> WfBlock(q.0[x])
    decreases |buf|
  {
    hide WfBlock, FillRun, Best, IsBest, Blocks;
    FillRunRest(blk, content, buf, r.start, r.len);
    FillRunAll(blk, content, buf, r.start, r.len);
    var (blk1, content1, rest) := FillRun(blk, content, buf, r.start, r.len);
    if rest != [] {
      var r1 := Best(used, FIRST, max - 1, Asked(|rest|));
      if r1.len >= 1 {
        OnDisk(used, max, Asked(|rest|));
        AppendRunsMore(blk1, used + Blocks(r1.start, r1.len), max, content1, rest, r1);
      }
    }
  }

  lemma OnDisk(used: set<int>, max: nat, n: nat)
    ensures var r := Best(used, FIRST, max - 1, n); r.len <= n && (r.len > 0 ==> FIRST <= r.start < max)
  {
  }

  /** Blocks in use other than the offset's are as they were. */
  lemma ShortKeeps(s: Fs, o: int, buf: seq<byte>, offset: nat, x: int)
    requires Short(s, o, buf, offset) && 0 <= x < |s.blk| && (x in s.used || x == ROOT)
    requires x != Chain(s, o)[offset / CAP]
    ensures WriteDisk(s, o, buf, offset).0[x] == s.blk[x]
  {
    hide Ok, WriteDisk, AppendRuns, FillRun, FirstRun, Covers, Surplus, Patched;
    var c, k, off := Chain(s, o), offset / CAP, offset % CAP;
    SurplusLeft(s, off, buf);
    WriteDiskRuns(s, o, buf, offset);
    RunBounds(s, off, buf);
    var r := FirstRun(s, off, buf);
    var b := Patched(s.blk[c[k]], off, buf).(next := r.start);
    AppendRunsAt(s.blk[c[k] := b], s.used + Blocks(r.start, r.len), s.max, b, Surplus(off, buf), r, x);
    FillRunAt(s.blk[c[k] := b], b, Surplus(off, buf), r.start, r.len, x);
  }

  lemma ShortOther(s: Fs, o: int, buf: seq<byte>, offset: nat, p: int, x: int)
    requires Short(s, o, buf, offset) && p in s.objs && p != o && x in Chain(s, p)
    ensures 0 <= x < |s.blk| && WriteDisk(s, o, buf, offset).0[x] == s.blk[x]
  {
    InChain(s, p, x);
    InChain(s, o, Chain(s, o)[offset / CAP]);
    hide Ok, WriteDisk, FirstRun, Covers;
    ShortKeeps(s, o, buf, offset, x);
  }

  lemma SurplusLeft(s: Fs, off: nat, buf: seq<byte>)
    requires !Covers(s, off, buf)
    ensures Surplus(off, buf) != []
  {
  }

  lemma ShortSpares(s: Fs, o: int, buf: seq<byte>, offset: nat)
    requires Short(s, o, buf, offset)
    ensures var q := WriteDisk(s, o, buf, offset); Spares(s, q.0, q.1, o)
    ensures var r := FirstRun(s, offset % CAP, buf); s.used + Blocks(r.start, r.len) <= WriteDisk(s, o, buf, offset).1
  {
    hide Ok, WriteDisk, AppendRuns, FirstRun, Covers, WfBlock, Surplus;
    var q, off, k := WriteDisk(s, o, buf, offset), offset % CAP, offset / CAP;
    forall p, x | p in s.objs && p != o && x in Chain(s, p) && 0 <= x < |s.blk| ensures q.0[x] == s.blk[x] {
      ShortOther(s, o, buf, offset, p, x);
    }
    AllWf(s);
    SurplusLeft(s, off, buf);
    WriteDiskRuns(s, o, buf, offset);
    var r := FirstRun(s, off, buf);
    var b := Patched(s.blk[Chain(s, o)[k]], off, buf).(next := r.start);
    PatchedWf(s.blk[Chain(s, o)[k]], off, buf, r.start);
    AppendRunsMore(s.blk[Chain(s, o)[k] := b], s.used + Blocks(r.start, r.len), s.max, b, Surplus(off, buf), r);
  }

  lemma PatchedWf(b: Block, off: nat, buf: seq<byte>, n: int)
    requires WfBlock(b) && off < CAP
    ensures WfBlock(Patched(b, off, buf).(next := n))
  {
  }

  /** The file's blocks up to the offset's, then the first run. */
  function Led(c: seq<int>, k: nat, r: Run): seq<int>
    requires k < |c|
  {
    c[..k + 1] + RunSeq(r.start, r.len)
  }

  lemma LedIs(c: seq<int>, k: nat, r: Run, i: nat)
    requires k < |c| && i < k + 1 + r.len
    ensures |Led(c, k, r)| == k + 1 + r.len && Led(c, k, r)[i] == AlongRun(c, k, r, i)
  {
  }

  /** A chain goes through these and on through the block behind the run. */
  lemma LedOn(blk: seq<Block>, o: int, c: seq<int>, k: nat, r: Run, d: seq<int>)
    requires RunLinked(blk, c, k, r) && c[0] == o && IsChain(blk, o, d)
    ensures k + 1 + r.len <= |d| && IsChain(blk, r.start + r.len, d[k + 1 + r.len..])
  {
    hide RunLinked;
    var n := k + 1 + r.len;
    KBound(blk, c, k, r);
    ThroughRun(blk, o, d, c, k, r, n);
    ChainTail(blk, o, d, n);
  }

  lemma LedChain(blk: seq<Block>, c: seq<int>, k: nat, r: Run, t: seq<int>)
    requires RunLinked(blk, c, k, r) && IsChain(blk, r.start + r.len, t)
    ensures IsChain(blk, c[0], Led(c, k, r) + t)
  {
    var n, d := k + 1 + r.len, Led(c, k, r) + t;
    HeadIs(blk, r.start + r.len, t);
    forall i | 0 <= i < |d| ensures 0 <= d[i] < |blk| && blk[d[i]].next == NextIn(d, i) {
      if i < n {
        LedIs(c, k, r, i);
        assert StepAlong(blk, c, k, r, i);
        if i + 1 < n {
          LedIs(c, k, r, i + 1);
        }
      } else {
        assert d[i] == t[i - n] && NextIn(d, i) == NextIn(t, i - n);
      }
    }
    LedIs(c, k, r, 0);
  }

  /** Block b starts a chain of used blocks that belong to no object but o. */
  ghost predicate Owns(s: Fs, blk: seq<Block>, used: set<int>, o: int, b: int) {
    exists c :: OwnChain(s, blk, used, o, b, c)
  }

  /** On the disk the write leaves, the block behind the first run, one that was in use, starts
      such a chain. */
  ghost predicate RunsOn(s: Fs, o: int, buf: seq<byte>, offset: nat)
    requires Ok(s) && o in s.objs && Room(s, buf)
  {
    var q, r := WriteDisk(s, o, buf, offset), FirstRun(s, offset % CAP, buf);
    Owns(s, q.0, q.1, o, r.start + r.len)
  }

  lemma ShortLinked(s: Fs, o: int, buf: seq<byte>, offset: nat)
    requires Short(s, o, buf, offset)
    ensures var c, r := Chain(s, o), FirstRun(s, offset % CAP, buf);
      c != [] && c[0] == o && r.start + r.len in s.used && RunLinked(WriteDisk(s, o, buf, offset).0, c, offset / CAP, r)
  {
    hide Ok, WriteDisk, RunLinked, FirstRun, Covers;
    NotRoot(s, o);
    ShortRunLinks(s, o, buf, offset, offset / CAP, FirstRun(s, offset % CAP, buf));
  }

  lemma PartOwned(s: Fs, blk: seq<Block>, used: set<int>, o: int, c: seq<int>, b: int, t: seq<int>)
    requires OwnChain(s, blk, used, o, o, c) && IsChain(blk, b, t) && forall x :: x in t ==> x in c
    ensures OwnChain(s, blk, used, o, b, t)
  {
    hide IsChain;
  }

  lemma LedOwned(s: Fs, o: int, buf: seq<byte>, offset: nat, t: seq<int>)
    requires Short(s, o, buf, offset)
    requires var q, r := WriteDisk(s, o, buf, offset), FirstRun(s, offset % CAP, buf);
      OwnChain(s, q.0, q.1, o, r.start + r.len, t)
    ensures var q := WriteDisk(s, o, buf, offset);
      OwnChain(s, q.0, q.1, o, o, Led(Chain(s, o), offset / CAP, FirstRun(s, offset % CAP, buf)) + t)
  {
    hide Ok, WriteDisk, RunLinked, FirstRun, Covers, IsChain, Surplus;
    var q, r, c, k := WriteDisk(s, o, buf, offset), FirstRun(s, offset % CAP, buf), Chain(s, o), offset / CAP;
    ShortLinked(s, o, buf, offset);
    ShortSpares(s, o, buf, offset);
    LedChain(q.0, c, k, r, t);
    forall x | x in Led(c, k, r)
      ensures ROOT <= x && (x == ROOT || x in q.1) && forall p :: p in s.objs && p != o ==> x !in Chain(s, p)
    {
      LedBlock(s, o, buf, offset, x);
    }
  }

  lemma LedBlock(s: Fs, o: int, buf: seq<byte>, offset: nat, x: int)
    requires Short(s, o, buf, offset) && x in Led(Chain(s, o), offset / CAP, FirstRun(s, offset % CAP, buf))
    ensures ROOT <= x && forall p :: p in s.objs && p != o ==> x !in Chain(s, p)
    ensures var r := FirstRun(s, offset % CAP, buf); x == ROOT || x in s.used + Blocks(r.start, r.len)
  {
    RunBounds(s, offset % CAP, buf);
    hide WriteDisk, FirstRun, Covers, IsChain, Surplus;
    if x in Chain(s, o) {
      InChain(s, o, x);
      forall p | p in s.objs && p != o ensures x !in Chain(s, p) {
        OthersApart(s, o, p);
      }
    } else {
      FreeIsNew(s, x);
    }
  }

  /** The file has a chain of its own exactly when the block behind the first run starts one. */
  lemma ShortOwns(s: Fs, o: int, buf: seq<byte>, offset: nat)
    requires Short(s, o, buf, offset)
    ensures var q := WriteDisk(s, o, buf, offset); Owns(s, q.0, q.1, o, o) <==> RunsOn(s, o, buf, offset)
  {
    hide Ok, WriteDisk, RunLinked, FirstRun, Covers, IsChain, OwnChain, Surplus;
    var q, r, k := WriteDisk(s, o, buf, offset), FirstRun(s, offset % CAP, buf), offset / CAP;
    if d :| OwnChain(s, q.0, q.1, o, o, d) {
      ShortLinked(s, o, buf, offset);
      OwnIs(s, q.0, q.1, o, o, d);
      LedOn(q.0, o, Chain(s, o), k, r, d);
      PartOwned(s, q.0, q.1, o, d, r.start + r.len, d[k + 1 + r.len..]);
    }
    var b := r.start + r.len;
    if t :| OwnChain(s, q.0, q.1, o, b, t) {
      LedOwned(s, o, buf, offset, t);
    }
  }

  lemma OwnIs(s: Fs, blk: seq<Block>, used: set<int>, o: int, b: int, c: seq<int>)
    requires OwnChain(s, blk, used, o, b, c)
    ensures IsChain(blk, b, c)
  {
  }

  // ---- the same, told before the write

  /** In the blocks as they are, block b starts a chain of used blocks that belong to no object
      but o, and that does not go through o's block k. */
  ghost predicate FitsBefore(s: Fs, o: int, k: nat, b: int, t: seq<int>) {
    k < |Chain(s, o)| && OwnChain(s, s.blk, s.used, o, b, t) && Chain(s, o)[k] !in t
  }

  ghost predicate Before(s: Fs, o: int, k: nat, b: int) {
    exists t :: FitsBefore(s, o, k, b, t)
  }

  /** From b pointers lead through used blocks other than o's block k to a free block. */
  ghost predicate PathToFree(s: Fs, o: int, k: nat, b: int, p: seq<int>) {
    && k < |Chain(s, o)| && p != [] && p[0] == b && Chain(s, o)[k] !in p
    && (forall i :: 0 <= i < |p| ==> 0 <= p[i] < |s.blk| && p[i] in s.used)
    && (forall i :: 0 <= i < |p| - 1 ==> s.blk[p[i]].next == p[i + 1])
    && 0 <= s.blk[p[|p| - 1]].next < |s.blk| && s.blk[p[|p| - 1]].next !in s.used
  }

  ghost predicate LeadsToFree(s: Fs, o: int, k: nat, b: int) {
    exists p :: PathToFree(s, o, k, b, p)
  }

  /** The block behind the first run. */
  function Behind(s: Fs, buf: seq<byte>, offset: nat): int {
    FirstRun(s, offset % CAP, buf).start + FirstRun(s, offset % CAP, buf).len
  }

  /** A chain on the disk the write leaves that goes through a block the write has taken. */
  ghost predicate StrayChain(s: Fs, o: int, buf: seq<byte>, offset: nat, b: int, t: seq<int>)
    requires Ok(s) && o in s.objs && Room(s, buf)
  {
    var q := WriteDisk(s, o, buf, offset); OwnChain(s, q.0, q.1, o, b, t) && exists x :: x in t && x !in s.used
  }

  ghost predicate Strays(s: Fs, o: int, buf: seq<byte>, offset: nat, b: int)
    requires Ok(s) && o in s.objs && Room(s, buf)
  {
    exists t :: StrayChain(s, o, buf, offset, b, t)
  }

  lemma OwnUsed(s: Fs, blk: seq<Block>, used: set<int>, o: int, b: int, t: seq<int>)
    requires Ok(s) && o in s.objs && !s.objs[o].isDir && OwnChain(s, blk, used, o, b, t)
    ensures forall x :: x in t ==> x in used && x != ROOT && 0 <= x < |blk|
  {
    ObjHere(s, ROOT);
    hide Ok;
    assert ROOT in Chain(s, ROOT);
    OwnIs(s, blk, used, o, b, t);
    ChainInside(blk, b, t);
  }

  lemma FitsAfter(s: Fs, o: int, buf: seq<byte>, offset: nat, t: seq<int>)
    requires Short(s, o, buf, offset) && FitsBefore(s, o, offset / CAP, Behind(s, buf, offset), t)
    ensures RunsOn(s, o, buf, offset)
  {
    hide Ok, WriteDisk, FirstRun, Covers, IsChain, Spares;
    var q, b := WriteDisk(s, o, buf, offset), Behind(s, buf, offset);
    OwnUsed(s, s.blk, s.used, o, b, t);
    ShortSpares(s, o, buf, offset);
    MoreUsed(s, o, buf, offset);
    forall x | x in t ensures q.0[x].next == s.blk[x].next {
      ShortKeeps(s, o, buf, offset, x);
    }
    ChainFrame(s.blk, q.0, b, t);
    assert OwnChain(s, q.0, q.1, o, b, t);
  }

  lemma MoreUsed(s: Fs, o: int, buf: seq<byte>, offset: nat)
    requires Short(s, o, buf, offset)
    ensures s.used <= WriteDisk(s, o, buf, offset).1 && |WriteDisk(s, o, buf, offset).0| == |s.blk|
  {
    hide Ok, WriteDisk, FirstRun, Covers, Spares;
    ShortSpares(s, o, buf, offset);
  }

  lemma NotThroughK(s: Fs, o: int, buf: seq<byte>, offset: nat, t: seq<int>)
    requires Short(s, o, buf, offset)
    requires var q := WriteDisk(s, o, buf, offset); OwnChain(s, q.0, q.1, o, Behind(s, buf, offset), t)
    ensures Chain(s, o)[offset / CAP] !in t
  {
    hide Ok, WriteDisk, FirstRun, Covers, IsChain, RunLinked;
    var q, c, k, r := WriteDisk(s, o, buf, offset), Chain(s, o), offset / CAP, FirstRun(s, offset % CAP, buf);
    ShortLinked(s, o, buf, offset);
    LedChain(q.0, c, k, r, t);
    var d := Led(c, k, r) + t;
    assert d[k] == c[k];
    forall i | 0 <= i < |t| ensures t[i] != c[k] {
      assert d[|Led(c, k, r)| + i] == t[i];
      ChainDistinct(q.0, c[0], d, k, |Led(c, k, r)| + i);
    }
  }

  lemma FittedBefore(s: Fs, o: int, buf: seq<byte>, offset: nat, t: seq<int>)
    requires Short(s, o, buf, offset) && forall x :: x in t ==> x in s.used
    requires var q := WriteDisk(s, o, buf, offset); OwnChain(s, q.0, q.1, o, Behind(s, buf, offset), t)
    ensures FitsBefore(s, o, offset / CAP, Behind(s, buf, offset), t)
  {
    hide Ok, WriteDisk, FirstRun, Covers, IsChain;
    var q, b := WriteDisk(s, o, buf, offset), Behind(s, buf, offset);
    NotThroughK(s, o, buf, offset, t);
    MoreUsed(s, o, buf, offset);
    OwnUsed(s, q.0, q.1, o, b, t);
    forall x | x in t ensures s.blk[x].next == q.0[x].next {
      ShortKeeps(s, o, buf, offset, x);
    }
    ChainFrame(q.0, s.blk, b, t);
  }

  /** Whether the file can run on is seen before the write: in the blocks as they are, or, if
      pointers lead from the block behind the run to a free one, by whether a later run takes
      that one. */
  lemma RunsOnExactly(s: Fs, o: int, buf: seq<byte>, offset: nat)
    requires Short(s, o, buf, offset)
    ensures var k, b := offset / CAP, Behind(s, buf, offset);
      && (RunsOn(s, o, buf, offset) <==> Before(s, o, k, b) || Strays(s, o, buf, offset, b))
      && (Strays(s, o, buf, offset, b) ==> LeadsToFree(s, o, k, b))
  {
    hide Ok, WriteDisk, FirstRun, Covers, OwnChain, FitsBefore, Behind;
    var q, k, b := WriteDisk(s, o, buf, offset), offset / CAP, Behind(s, buf, offset);
    BehindIs(s, buf, offset);
    if t :| FitsBefore(s, o, k, b, t) {
      FitsAfter(s, o, buf, offset, t);
    }
    if t :| OwnChain(s, q.0, q.1, o, b, t) {
      if forall x :: x in t ==> x in s.used {
        FittedBefore(s, o, buf, offset, t);
      } else {
        assert StrayChain(s, o, buf, offset, b, t);
      }
    }
    if t :| StrayChain(s, o, buf, offset, b, t) {
      StrayPath(s, o, buf, offset, t);
    }
  }

  lemma BehindIs(s: Fs, buf: seq<byte>, offset: nat)
    ensures Behind(s, buf, offset) == FirstRun(s, offset % CAP, buf).start + FirstRun(s, offset % CAP, buf).len
  {
  }

  function UsedFront(used: set<int>, t: seq<int>): (n: nat)
    ensures n <= |t| && (forall i :: 0 <= i < n ==> t[i] in used) && (n < |t| ==> t[n] !in used)
  {
    if t == [] || t[0] !in used then 0 else 1 + UsedFront(used, t[1..])
  }

  lemma StrayPath(s: Fs, o: int, buf: seq<byte>, offset: nat, t: seq<int>)
    requires Short(s, o, buf, offset) && StrayChain(s, o, buf, offset, Behind(s, buf, offset), t)
    ensures LeadsToFree(s, o, offset / CAP, Behind(s, buf, offset))
  {
    hide Ok, WriteDisk, FirstRun, Covers, RunLinked, Led, OwnChain, IsChain, Behind;
    BehindIs(s, buf, offset);
    var q, b, n := WriteDisk(s, o, buf, offset), Behind(s, buf, offset), UsedFront(s.used, t);
    ShortLinked(s, o, buf, offset);
    NotThroughK(s, o, buf, offset, t);
    MoreUsed(s, o, buf, offset);
    OwnUsed(s, q.0, q.1, o, b, t);
    var x :| x in t && x !in s.used;
    OwnIs(s, q.0, q.1, o, b, t);
    RunBounds(s, offset % CAP, buf);
    HeadIs(q.0, b, t);
    forall i | 0 <= i < n ensures s.blk[t[i]].next == q.0[t[i]].next {
      ShortKeeps(s, o, buf, offset, t[i]);
    }
    PrefixPath(s, o, offset / CAP, b, t, n, q.0);
  }

  lemma PrefixPath(s: Fs, o: int, k: nat, b: int, t: seq<int>, n: nat, blk': seq<Block>)
    requires IsChain(blk', b, t) && |blk'| == |s.blk| && 0 < n < |t| && t[n] !in s.used
    requires k < |Chain(s, o)| && Chain(s, o)[k] !in t
    requires forall i :: 0 <= i < n ==> t[i] in s.used && 0 <= t[i] < |s.blk| && s.blk[t[i]].next == blk'[t[i]].next
    ensures LeadsToFree(s, o, k, b)
  {
    hide IsChain;
    var p := t[..n];
    ChainStep(blk', b, t, n);
    assert forall x :: x in p ==> x in t;
    forall i | 0 <= i < n ensures s.blk[p[i]].next == t[i + 1] {
      ChainStep(blk', b, t, i);
    }
    assert PathToFree(s, o, k, b, p);
  }

  lemma ChainStep(blk: seq<Block>, b: int, c: seq<int>, i: nat)
    requires IsChain(blk, b, c) && i < |c|
    ensures b == c[0] && 0 <= c[i] < |blk| && blk[c[i]].next == if i + 1 < |c| then c[i + 1] else -1
  {
  }

  /** A block of another object, or of the file up to the offset's block, never fits; one of the
      blocks the write cuts off always does. */
  lemma BehindDecides(s: Fs, o: int, buf: seq<byte>, offset: nat)
    requires Short(s, o, buf, offset)
    ensures var c, k, b := Chain(s, o), offset / CAP, Behind(s, buf, offset);
      && ((exists p :: p in s.objs && p != o && b in Chain(s, p)) || b in c[..k + 1] ==> !RunsOn(s, o, buf, offset))
      && (b in c[k + 1..] ==> RunsOn(s, o, buf, offset))
  {
    hide Ok, WriteDisk, FirstRun, Covers, OwnChain, FitsBefore, Behind, RunLinked;
    var q, c, k, b := WriteDisk(s, o, buf, offset), Chain(s, o), offset / CAP, Behind(s, buf, offset);
    BehindIs(s, buf, offset);
    ShortLinked(s, o, buf, offset);
    if (exists p :: p in s.objs && p != o && b in Chain(s, p)) || b in c[..k + 1] {
      forall t ensures !OwnChain(s, q.0, q.1, o, b, t) {
        if OwnChain(s, q.0, q.1, o, b, t) {
          BehindApart(s, o, buf, offset, t);
        }
      }
    }
    if b in c[k + 1..] {
      var j :| k + 1 <= j < |c| && c[j] == b;
      CutOffFits(s, o, k, j);
      FitsAfter(s, o, buf, offset, c[j..]);
    }
  }

  lemma BehindApart(s: Fs, o: int, buf: seq<byte>, offset: nat, t: seq<int>)
    requires Short(s, o, buf, offset)
    requires var q := WriteDisk(s, o, buf, offset); OwnChain(s, q.0, q.1, o, Behind(s, buf, offset), t)
    ensures var b := Behind(s, buf, offset); b !in Chain(s, o)[..offset / CAP + 1]
    ensures var b := Behind(s, buf, offset); forall p :: p in s.objs && p != o ==> b !in Chain(s, p)
  {
    hide Ok, WriteDisk, FirstRun, Covers, IsChain, RunLinked;
    var q, c, k, r := WriteDisk(s, o, buf, offset), Chain(s, o), offset / CAP, FirstRun(s, offset % CAP, buf);
    ShortLinked(s, o, buf, offset);
    LedOwned(s, o, buf, offset, t);
    ShortRunPath(q.0, o, c, k, r, Led(c, k, r) + t);
    InUseIs(s, Behind(s, buf, offset));
    HeadIs(q.0, Behind(s, buf, offset), t);
    assert t[0] in t;
  }

  lemma InUseIs(s: Fs, b: int)
    requires Ok(s) && b in s.used
    ensures b >= 0 || forall p :: p in s.objs ==> b !in Chain(s, p)
  {
    forall p | p in s.objs && b in Chain(s, p) ensures b >= 0 {
      InChain(s, p, b);
    }
  }

  lemma CutOffFits(s: Fs, o: int, k: nat, j: nat)
    requires Ok(s) && o in s.objs && k < j < |Chain(s, o)|
    ensures FitsBefore(s, o, k, Chain(s, o)[j], Chain(s, o)[j..])
  {
    hide Ok, IsChain;
    var c := Chain(s, o);
    ObjHere(s, o);
    ChainTail(s.blk, o, c, j);
    forall i | j <= i < |c|
      ensures c[i] != c[k] && ROOT <= c[i] && (c[i] == ROOT || c[i] in s.used)
      ensures forall p :: p in s.objs && p != o ==> c[i] !in Chain(s, p)
    {
      ChainDistinct(s.blk, o, c, k, i);
      InChain(s, o, c[i]);
      InNoOther(s, o, c[i]);
    }
    assert c[j..][0] == c[j];
  }

  lemma InNoOther(s: Fs, o: int, x: int)
    requires Ok(s) && x in Chain(s, o)
    ensures forall p :: p in s.objs && p != o ==> x !in Chain(s, p)
  {
    hide Ok;
    InChain(s, o, x);
    forall p | p in s.objs && p != o ensures x !in Chain(s, p) {
      OthersApart(s, o, p);
    }
  }

  // ---- and the entry's size

  lemma OwnsSized(s: Fs, s1: Fs, o: int, b: int, k: int, size: nat)
    ensures Owns(s, SetSize(s1, b, k, size).blk, s1.used, o, o) <==> Owns(s, s1.blk, s1.used, o, o)
  {
    hide OwnChain;
    var blk' := SetSize(s1, b, k, size).blk;
    forall c ensures OwnChain(s, blk', s1.used, o, o, c) <==> OwnChain(s, s1.blk, s1.used, o, o, c) {
      SameNexts(s, s1.blk, blk', s1.used, o, c);
    }
  }

  lemma SameNexts(s: Fs, blk: seq<Block>, blk': seq<Block>, used: set<int>, o: int, c: seq<int>)
    requires |blk'| == |blk| && forall x :: 0 <= x < |blk| ==> blk'[x].next == blk[x].next
    ensures OwnChain(s, blk', used, o, o, c) <==> OwnChain(s, blk, used, o, o, c)
  {
  }

  /** The recorded size is raised if the data went well and reach further. */
  function Sized(s: Fs, e: Dirent, res: int, size: nat, s1: Fs): Fs {
    if res >= 0 && e.fsize < size && e.start in s.ref
    then SetSize(s1, s.ref[e.start].0, s.ref[e.start].1, size)
    else s1
  }

  lemma WriteSized(s: Fs, path: seq<string>, buf: seq<byte>, offset: nat, s1: Fs)
    requires Ok(s) && Room(s, buf) && Resolve(s, path).Some? && Short(s, Resolve(s, path).value.start, buf, offset)
    requires var q := WriteDisk(s, Resolve(s, path).value.start, buf, offset);
      s1.blk == q.0 && s1.used == q.1 && s1.max == s.max
    ensures var e, s' := Resolve(s, path).value, Write(s, path, buf, offset).0;
      var r := Sized(s, e, WriteDisk(s, e.start, buf, offset).2, offset + |buf|, s1);
      r.blk == s'.blk && r.used == s'.used && r.max == s'.max
  {
    hide Ok, WriteDisk, Covers, FirstRun, Resolve, Relink, SetSize;
    ResolveMeans(s, path);
    var e, q := Resolve(s, path).value, WriteDisk(s, Resolve(s, path).value.start, buf, offset);
    var (start, m) := Added(s, offset % CAP, buf);
    if q.2 >= 0 {
      RelinkShape(s, e.start, offset / CAP, start, m, q.0, q.1);
      if e.start in s.ref {
        var r := Relink(s, e.start, offset / CAP, start, m, q.0, q.1);
        SetSizeDisk(r, s1, s.ref[e.start].0, s.ref[e.start].1, offset + |buf|);
      }
    }
  }

  predicate SameDisk(s: Fs, r: Fs) {
    r.blk == s.blk && r.used == s.used && r.max == s.max
  }

  lemma SetSizeDisk(s: Fs, r: Fs, b: int, k: int, size: nat)
    requires SameDisk(s, r)
    ensures SameDisk(SetSize(s, b, k, size), SetSize(r, b, k, size))
  {
  }

  lemma SizedOk(s: Fs, e: Dirent, res: int, size: nat, s1: Fs)
    requires Ok(s1) && Listing(s, s1.blk, s1.used, e.start, s1)
    ensures var r := Sized(s, e, res, size, s1); Ok(r) && Listing(s, r.blk, r.used, e.start, r)
  {
    if res >= 0 && e.fsize < size && e.start in s.ref {
      SetSizeOk(s1, s.ref[e.start].0, s.ref[e.start].1, size);
    }
    hide Ok;
  }

  lemma OwnsSame(s: Fs, path: seq<string>, buf: seq<byte>, offset: nat)
    requires Ok(s) && Room(s, buf) && Resolve(s, path).Some? && Short(s, Resolve(s, path).value.start, buf, offset)
    ensures var o, s' := Resolve(s, path).value.start, Write(s, path, buf, offset).0;
      Owns(s, s'.blk, s'.used, o, o) <==> RunsOn(s, o, buf, offset)
  {
    hide Ok, WriteDisk, Covers, FirstRun, Owns, SetSize, Write, RunsOn, Short;
    var e := Resolve(s, path).value;
    ShortIs(s, e.start, buf, offset);
    ShortOwns(s, e.start, buf, offset);
    var q := WriteDisk(s, e.start, buf, offset);
    var s1 := s.(blk := q.0, used := q.1);
    WriteSized(s, path, buf, offset, s1);
    if q.2 >= 0 && e.fsize < offset + |buf| && e.start in s.ref {
      OwnsSized(s, s1, e.start, s.ref[e.start].0, s.ref[e.start].1, offset + |buf|);
      SetSizeUsed(s1, s.ref[e.start].0, s.ref[e.start].1, offset + |buf|);
    }
  }

  lemma ShortIs(s: Fs, o: int, buf: seq<byte>, offset: nat)
    requires Short(s, o, buf, offset)
    ensures Ok(s) && o in s.objs && Room(s, buf)
  {
  }

  lemma SetSizeUsed(s: Fs, b: int, k: int, size: nat)
    ensures SetSize(s, b, k, size).used == s.used
  {
  }

  /** The disk after the write, its lists brought in line when they can be. */
  ghost function Relisting(s: Fs, path: seq<string>, buf: seq<byte>, offset: nat): (r: Fs)
    requires Ok(s) && Room(s, buf) && Resolve(s, path).Some? && Resolve(s, path).value.start in s.objs
  {
    var e := Resolve(s, path).value;
    var (blk', used', res) := WriteDisk(s, e.start, buf, offset);
    if Owns(s, blk', used', e.start, e.start) then
      var c :| OwnChain(s, blk', used', e.start, e.start, c);
      Sized(s, e, res, offset + |buf|, Rechained(s, blk', used', e.start, c))
    else Write(s, path, buf, offset).0
  }

  lemma RelistingOk(s: Fs, path: seq<string>, buf: seq<byte>, offset: nat)
    requires Ok(s) && Room(s, buf) && Resolve(s, path).Some? && Short(s, Resolve(s, path).value.start, buf, offset)
    ensures var o := Resolve(s, path).value.start;
      var r, s' := Relisting(s, path, buf, offset), Write(s, path, buf, offset).0;
      && r.blk == s'.blk && r.used == s'.used && r.max == s'.max
      && (RunsOn(s, o, buf, offset) ==> Ok(r) && Listing(s, s'.blk, s'.used, o, r))
  {
    hide Ok, WriteDisk, FirstRun, Covers, OwnChain, Sized, Spares, RunsOn, Short, Write, Listing;
    var e := Resolve(s, path).value;
    ShortIs(s, e.start, buf, offset);
    ShortOwns(s, e.start, buf, offset);
    ShortSpares(s, e.start, buf, offset);
    var (blk', used', res) := WriteDisk(s, e.start, buf, offset);
    forall c | OwnChain(s, blk', used', e.start, e.start, c)
      ensures var s1, s' := Rechained(s, blk', used', e.start, c), Write(s, path, buf, offset).0;
        var r := Sized(s, e, res, offset + |buf|, s1);
        r.blk == s'.blk && r.used == s'.used && r.max == s'.max && Ok(r) && Listing(s, s'.blk, s'.used, e.start, r)
    {
      var s1 := Rechained(s, blk', used', e.start, c);
      RechainedOk(s, blk', used', e.start, c);
      WriteSized(s, path, buf, offset, s1);
      SizedOk(s, e, res, offset + |buf|, s1);
    }
  }

  /** A write whose first run is too short leaves a good disk with the objects it should have
      exactly when, before it, the block behind that run, one in use, starts a chain of used
      blocks that belong to no other object; or pointers lead from it to a free block, a later run
      takes that one, and the chain goes well from there on. */
  lemma ShortOkExactly(s: Fs, path: seq<string>, buf: seq<byte>, offset: nat)
    requires Ok(s) && Room(s, buf) && Resolve(s, path).Some? && Short(s, Resolve(s, path).value.start, buf, offset)
    ensures var o, s' := Resolve(s, path).value.start, Write(s, path, buf, offset).0;
      && var k, b := offset / CAP, Behind(s, buf, offset);
      && b in s.used
      && ((exists r :: Ok(r) && Listing(s, s'.blk, s'.used, o, r))
          <==> Before(s, o, k, b) || Strays(s, o, buf, offset, b))
      && (!LeadsToFree(s, o, k, b) ==>
          ((exists r :: Ok(r) && Listing(s, s'.blk, s'.used, o, r)) <==> Before(s, o, k, b)))
  {
    hide Ok, WriteDisk, FirstRun, Covers, OwnChain, RunsOn, Short, Write, Listing, Relisting, RunLinked;
    hide Before, Strays, LeadsToFree, Behind;
    var o, s' := Resolve(s, path).value.start, Write(s, path, buf, offset).0;
    BehindIs(s, buf, offset);
    ShortLinked(s, o, buf, offset);
    OwnsSame(s, path, buf, offset);
    RelistingOk(s, path, buf, offset);
    RunsOnExactly(s, o, buf, offset);
    if r :| Ok(r) && Listing(s, s'.blk, s'.used, o, r) {
      ListingOwns(s, s'.blk, s'.used, o, r);
    }
  }

  // ---- names

  lemma RechainedUnique(s: Fs, blk': seq<Block>, used': set<int>, o: int, c: seq<int>)
    requires Spares(s, blk', used', o) && UniqueNames(s)
    ensures UniqueNames(Rechained(s, blk', used', o, c))
  {
    hide UniqueIn, Spares;
    var s' := Rechained(s, blk', used', o, c);
    forall d | IsDir(s', d) ensures UniqueIn(s'.blk, Chain(s', d)) {
      SparesDir(s, blk', used', o, d);
      assert UniqueIn(s.blk, Chain(s, d));
      UniqueFrame(s.blk, blk', Chain(s, d));
    }
  }

  lemma SparesDir(s: Fs, blk': seq<Block>, used': set<int>, o: int, d: int)
    requires Spares(s, blk', used', o) && d != o && IsDir(s, d)
    ensures forall x :: x in Chain(s, d) ==> SlotsAt(blk', x) == SlotsAt(s.blk, x)
  {
    forall x | x in Chain(s, d) ensures SlotsAt(blk', x) == SlotsAt(s.blk, x) {
      ChainBounds(s, d, x);
    }
  }

  /** A write that is mended touches no name. */
  lemma RelistingUnique(s: Fs, path: seq<string>, buf: seq<byte>, offset: nat)
    requires Ok(s) && Room(s, buf) && Resolve(s, path).Some? && Short(s, Resolve(s, path).value.start, buf, offset)
    requires UniqueNames(s) && RunsOn(s, Resolve(s, path).value.start, buf, offset)
    ensures UniqueNames(Relisting(s, path, buf, offset))
  {
    hide Ok, WriteDisk, FirstRun, Covers, OwnChain, SetSize, Spares, RunsOn, Short, Write, UniqueNames;
    var e := Resolve(s, path).value;
    ShortIs(s, e.start, buf, offset);
    ShortOwns(s, e.start, buf, offset);
    ShortSpares(s, e.start, buf, offset);
    var (blk', used', res) := WriteDisk(s, e.start, buf, offset);
    forall c | OwnChain(s, blk', used', e.start, e.start, c)
      ensures UniqueNames(Sized(s, e, res, offset + |buf|, Rechained(s, blk', used', e.start, c)))
    {
      RechainedUnique(s, blk', used', e.start, c);
      if e.start in s.ref {
        SetSizeUnique(Rechained(s, blk', used', e.start, c), s.ref[e.start].0, s.ref[e.start].1, offset + |buf|);
      }
    }
  }
}
