/** A directory left half-grown: it leads to a block that was marked used but never
    initialised. When the disk is still a good one, and when it is not. */
module HalfGrowing {
  import opened Disk
  import opened Tree
  import opened Creating
  import opened Removing

  /** From b on there is a chain c of blocks that are marked used and in no object's chain but
      that of d. */
  ghost predicate OwnChain(s: Fs, blk: seq<Block>, used: set<int>, d: int, b: int, c: seq<int>) {
    && IsChain(blk, b, c)
    && (forall x :: x in c ==> ROOT <= x && (x == ROOT || x in used))
    && (forall x, o :: x in c && o in s.objs && o != d ==> x !in Chain(s, o))
  }

  /** The blocks after a directory d has been linked to block n and nothing more. */
  function LinkedTo(s: Fs, d: int, n: int): seq<Block>
    requires 0 <= LastBlock(s, d) < |s.blk| && 0 <= d < |s.blk|
  {
    HalfGrown(s, d, n).blk
  }

  /** Block n is free and directory d is about to be linked to it. */
  ghost predicate Linkable(s: Fs, d: int, n: int) {
    && Ok(s) && IsDir(s, d) && FIRST <= n < |s.blk| && n !in s.used && n != d
    && 0 <= LastBlock(s, d) < |s.blk| && 0 <= d < |s.blk|
  }

  lemma HalfGrowsLinks(s: Fs, d: int)
    requires Ok(s) && IsDir(s, d) && HalfGrows(s, d)
    ensures FreeBlk(s.used, s.max).Some? && Linkable(s, d, FreeBlk(s.used, s.max).value)
  {
    DirBounds(s, d);
    MaxOk(s);
    FreeIsNew(s, FreeBlk(s.used, s.max).value);
  }

  /** The chain behind the link is the chain the stale pointer starts. */
  lemma StaleTail(s: Fs, d: int, n: int, c: seq<int>) returns (t: seq<int>)
    requires Linkable(s, d, n) && OwnChain(s, LinkedTo(s, d, n), s.used + {n}, d, d, c)
    ensures c == [d, n] + t && d !in t && n !in t && OwnChain(s, s.blk, s.used, d, s.blk[n].next, t)
  {
    hide Ok, LinkedTo, IsChain;
    LinkFacts(s, d, n);
    t := LinkedTail(LinkedTo(s, d, n), d, n, c);
    assert forall x :: x in t ==> x in c;
    ChainInside(LinkedTo(s, d, n), s.blk[n].next, t);
    ChainFrame(LinkedTo(s, d, n), s.blk, s.blk[n].next, t);
  }

  lemma LinkedTail(blk: seq<Block>, d: int, n: int, c: seq<int>) returns (t: seq<int>)
    requires IsChain(blk, d, c) && 0 <= d < |blk| && 0 <= n < |blk| && blk[d].next == n
    ensures c == [d, n] + t && d !in t && n !in t && IsChain(blk, blk[n].next, t)
  {
    assert c[0] == d && NextIn(c, 0) == n && c[1] == n;
    t := c[2..];
    assert c == [d, n] + t;
    ChainTail(blk, d, c, 2);
    assert Head(t) == NextIn(c, 1) == blk[n].next;
    hide IsChain;
    forall i | 2 <= i < |c| ensures c[i] != d && c[i] != n {
      ChainDistinct(blk, d, c, 0, i);
      ChainDistinct(blk, d, c, 1, i);
    }
  }

  lemma StaleNotNew(s: Fs, d: int, n: int, t: seq<int>)
    requires Linkable(s, d, n) && OwnChain(s, s.blk, s.used, d, s.blk[n].next, t)
    ensures n !in t
  {
    hide Ok;
    assert n != ROOT && n !in s.used;
  }

  lemma StaleChain(s: Fs, d: int, n: int, t: seq<int>)
    requires Linkable(s, d, n) && d !in t && OwnChain(s, s.blk, s.used, d, s.blk[n].next, t)
    ensures OwnChain(s, LinkedTo(s, d, n), s.used + {n}, d, d, [d, n] + t)
  {
    hide Ok, LinkedTo, IsChain;
    LinkFacts(s, d, n);
    StaleNotNew(s, d, n, t);
    var blk' := LinkedTo(s, d, n);
    ChainInside(s.blk, s.blk[n].next, t);
    ChainFrame(s.blk, blk', s.blk[n].next, t);
    ChainCons(blk', n, t);
    ChainCons(blk', d, [n] + t);
    assert [d] + ([n] + t) == [d, n] + t;
  }

  lemma ChainInside(blk: seq<Block>, b: int, c: seq<int>)
    requires IsChain(blk, b, c)
    ensures forall x :: x in c ==> 0 <= x < |blk|
  {
  }

  lemma LinkFacts(s: Fs, d: int, n: int)
    requires Linkable(s, d, n)
    ensures ROOT <= d && (d == ROOT || d in s.used)
    ensures forall o :: o in s.objs && o != d ==> d !in Chain(s, o) && n !in Chain(s, o)
    ensures var blk' := LinkedTo(s, d, n);
      |blk'| == |s.blk| && blk'[d].next == n && forall x :: 0 <= x < |s.blk| && x != d ==> blk'[x] == s.blk[x]
  {
    DirBounds(s, d);
    InChain(s, d, d);
    FreeIsNew(s, n);
    hide Ok;
    forall o | o in s.objs && o != d ensures d !in Chain(s, o) && n !in Chain(s, o) {
      if d in Chain(s, o) {
        InChain(s, o, d);
      }
    }
  }

  /** As written, the half-grown directory still has a chain of blocks that are marked used and
      belong to nothing else exactly when the pointer left in the new block starts one. */
  lemma HalfGrownExactly(s: Fs, d: int, name: string, flag: int)
    requires Ok(s) && IsDir(s, d) && HalfGrows(s, d)
    ensures var s', n := Insert(s, d, name, flag).0, FreeBlk(s.used, s.max).value;
      && 0 <= n < |s.blk|
      && ((exists c :: OwnChain(s, s'.blk, s'.used, d, d, c))
          <==> exists t :: d !in t && OwnChain(s, s.blk, s.used, d, s.blk[n].next, t))
  {
    hide Ok, OwnChain, HalfGrows, Insert, IsChain;
    HalfGrowsLinks(s, d);
    HalfGrownLeaves(s, d, name, flag);
    var s', n := Insert(s, d, name, flag).0, FreeBlk(s.used, s.max).value;
    if c :| OwnChain(s, s'.blk, s'.used, d, d, c) {
      var t := StaleTail(s, d, n, c);
    }
    if t :| d !in t && OwnChain(s, s.blk, s.used, d, s.blk[n].next, t) {
      StaleChain(s, d, n, t);
    }
  }

  // ---- the entries in the stale blocks

  /** Slot k of block b, one of the chain's, is in use. */
  ghost predicate LiveIn(blk: seq<Block>, c: seq<int>, b: int, k: int) {
    b in c && 0 <= k < |SlotsAt(blk, b)| && Live(SlotsAt(blk, b)[k])
  }

  /** An entry that could belong to a directory. */
  ghost predicate EntryFits(s: Fs, e: Dirent) {
    && 0 <= e.flag <= 2
    && (Live(e) ==>
        |e.fname| <= NAME_MAX && e.start in s.objs && e.start != ROOT && (s.objs[e.start].isDir <==> e.flag == 2))
  }

  /** The slots of the chain's blocks could be those of directory d: their live entries name
      objects, no two the same, and none that another directory names. */
  ghost predicate SlotsFit(s: Fs, blk: seq<Block>, d: int, c: seq<int>) {
    && (forall b, k :: b in c && 0 <= k < |SlotsAt(blk, b)| ==> EntryFits(s, SlotsAt(blk, b)[k]))
    && (forall b, k, b2, k2 :: LiveIn(blk, c, b, k) && LiveIn(blk, c, b2, k2) ==>
          SlotsAt(blk, b)[k].start == SlotsAt(blk, b2)[k2].start ==> b == b2 && k == k2)
    && (forall b, k, o, b2, k2 :: LiveIn(blk, c, b, k) && LiveAt(s, o, b2, k2) && o != d ==>
          SlotsAt(blk, b)[k].start != SlotsAt(s.blk, b2)[k2].start)
  }

  /** What block n must have held, before it was handed out, for the directory to be sound. */
  ghost predicate StaleFits(s: Fs, d: int, n: int, t: seq<int>)
    requires 0 <= LastBlock(s, d) < |s.blk| && 0 <= d < |s.blk| && 0 <= n < |s.blk|
  {
    d !in t && OwnChain(s, s.blk, s.used, d, s.blk[n].next, t) && SlotsFit(s, LinkedTo(s, d, n), d, [d, n] + t)
  }

  function PlaceIn(c: seq<int>, b: int): (i: int)
    requires b in c
    ensures 0 <= i < |c| && c[i] == b
  {
    if c[0] == b then 0 else 1 + PlaceIn(c[1..], b)
  }

  ghost predicate SlotOf(blk: seq<Block>, c: seq<int>, o: int, at: (int, int)) {
    LiveIn(blk, c, at.0, at.1) && SlotsAt(blk, at.0)[at.1].start == o
  }

  /** Where an object's entry is: in the chain's blocks, or where it was. */
  ghost function EntryAt(s: Fs, blk: seq<Block>, c: seq<int>, o: int): (int, int) {
    if exists at :: SlotOf(blk, c, o, at) then
      var at :| SlotOf(blk, c, o, at); at
    else if o in s.ref then s.ref[o] else (0, 0)
  }

  /** The half-grown disk with the lists of objects and places brought in line with it. */
  ghost function Settled(s: Fs, d: int, n: int, t: seq<int>): Fs
    requires 0 <= LastBlock(s, d) < |s.blk| && 0 <= d < |s.blk|
  {
    var c := [d, n] + t;
    Fs(LinkedTo(s, d, n), s.used + {n}, s.max, s.objs[d := Obj(true, c)],
       map b | b in (s.home.Keys - SetOf(Chain(s, d))) + SetOf(c) :: if b in c then (d, PlaceIn(c, b)) else s.home[b],
       map o | o in s.objs :: EntryAt(s, LinkedTo(s, d, n), c, o))
  }

  /** Two states of the same disk with the same objects, but for the blocks of d. */
  ghost predicate Relisted(s: Fs, s': Fs, r: Fs, d: int) {
    && r.blk == s'.blk && r.used == s'.used && r.max == s'.max
    && r.objs.Keys == s.objs.Keys && IsDir(r, d)
    && (forall o :: o in s.objs && o != d ==> r.objs[o] == s.objs[o])
  }

  lemma SettledBlocks(s: Fs, d: int, n: int, x: int)
    requires Linkable(s, d, n) && 0 <= x < |s.blk|
    ensures var blk' := LinkedTo(s, d, n);
      && |blk'| == |s.blk| && (x != d ==> blk'[x] == s.blk[x]) && WfBlock(blk'[x])
      && blk'[d].slots == LastSlots(s, d)
  {
    AllWf(s);
    hide Ok;
  }

  lemma SettledOwn(s: Fs, d: int, n: int, t: seq<int>)
    requires Linkable(s, d, n) && StaleFits(s, d, n, t)
    ensures ObjOk(Settled(s, d, n, t), d)
  {
    hide Ok, IsChain, SlotsFit;
    StaleChain(s, d, n, t);
    var c, s' := [d, n] + t, Settled(s, d, n, t);
    assert Chain(s', d) == c;
    forall i | 0 <= i < |c| ensures PlaceOk(s', d, i, c[i]) {
      assert c[i] in c;
      if PlaceIn(c, c[i]) < i {
        ChainDistinct(s'.blk, d, c, PlaceIn(c, c[i]), i);
      } else if PlaceIn(c, c[i]) > i {
        ChainDistinct(s'.blk, d, c, i, PlaceIn(c, c[i]));
      }
    }
  }

  lemma OthersApart(s: Fs, d: int, o: int)
    requires Ok(s) && o in s.objs && o != d
    ensures forall x :: x in Chain(s, o) ==> x in s.home && x !in Chain(s, d)
  {
    forall x | x in Chain(s, o) ensures x in s.home && x !in Chain(s, d) {
      InChain(s, o, x);
      if x in Chain(s, d) {
        InChain(s, d, x);
      }
    }
  }

  lemma NotInNew(s: Fs, d: int, n: int, t: seq<int>, o: int)
    requires Linkable(s, d, n) && StaleFits(s, d, n, t) && o in s.objs && o != d
    ensures forall x :: x in Chain(s, o) ==> x !in [d, n] + t
  {
    hide Ok, IsChain, SlotsFit, LinkedTo;
    StaleChain(s, d, n, t);
  }

  lemma SettledOther(s: Fs, d: int, n: int, t: seq<int>, o: int)
    requires Linkable(s, d, n) && StaleFits(s, d, n, t) && o in s.objs && o != d
    ensures ObjOk(Settled(s, d, n, t), o)
  {
    hide Ok, IsChain, StaleFits, LinkedTo, EntryAt, Settled;
    var c, s' := [d, n] + t, Settled(s, d, n, t);
    ObjHere(s, o);
    SettledShape(s, d, n, t);
    forall x | x in Chain(s, o)
      ensures 0 <= x < |s.blk| && s'.blk[x] == s.blk[x] && x in s'.home && s'.home[x] == s.home[x]
    {
      SettledBlock(s, d, n, t, o, x);
    }
    SettledSame(s, d, n, t, o);
    ChainFrame(s.blk, s'.blk, o, Chain(s, o));
    forall i | 0 <= i < |Chain(s, o)| ensures PlaceOk(s', o, i, Chain(s, o)[i]) {
      assert PlaceOk(s, o, i, Chain(s, o)[i]);
      assert Chain(s, o)[i] in Chain(s, o);
    }
  }

  lemma SettledSame(s: Fs, d: int, n: int, t: seq<int>, o: int)
    requires Linkable(s, d, n) && o in s.objs && o != d
    ensures Chain(Settled(s, d, n, t), o) == Chain(s, o) && s.used <= Settled(s, d, n, t).used
  {
    hide Ok, LinkedTo, EntryAt;
  }

  lemma SettledBlock(s: Fs, d: int, n: int, t: seq<int>, o: int, x: int)
    requires Linkable(s, d, n) && StaleFits(s, d, n, t) && o in s.objs && o != d && x in Chain(s, o)
    ensures var s' := Settled(s, d, n, t);
      0 <= x < |s.blk| == |s'.blk| && s'.blk[x] == s.blk[x] && x in s'.home && s'.home[x] == s.home[x]
  {
    hide Ok, IsChain, StaleFits, LinkedTo, EntryAt;
    NotInNew(s, d, n, t, o);
    OthersApart(s, d, o);
    ChainBounds(s, o, x);
    SettledBlocks(s, d, n, x);
    assert d in [d, n] + t;
  }

  lemma ObjHere(s: Fs, o: int)
    requires Ok(s) && o in s.objs
    ensures ObjOk(s, o)
  {
  }

  lemma ChainBounds(s: Fs, o: int, x: int)
    requires Ok(s) && x in Chain(s, o)
    ensures 0 <= x < |s.blk|
  {
    InChain(s, o, x);
  }

  lemma SettledHome(s: Fs, d: int, n: int, t: seq<int>, x: int)
    requires Linkable(s, d, n) && x in Settled(s, d, n, t).home
    ensures HomeOk(Settled(s, d, n, t), x)
  {
    var c := [d, n] + t;
    if x !in c {
      assert x in s.home && x !in Chain(s, d);
      assert HomeOk(s, x);
    }
    hide Ok;
  }

  /** The slots of the chain's blocks, in the new lists. */
  lemma SettledNew(s: Fs, d: int, n: int, t: seq<int>, b: int, k: int)
    requires Linkable(s, d, n) && StaleFits(s, d, n, t)
    requires b in [d, n] + t && 0 <= k < |SlotsAt(LinkedTo(s, d, n), b)|
    ensures SlotOk(Settled(s, d, n, t), SlotsAt(LinkedTo(s, d, n), b)[k], b, k)
  {
    hide Ok, OwnChain, LinkedTo;
    var c, blk' := [d, n] + t, LinkedTo(s, d, n);
    var e := SlotsAt(blk', b)[k];
    assert EntryFits(s, e);
    if Live(e) {
      assert SlotOf(blk', c, e.start, (b, k));
      assert EntryAt(s, blk', c, e.start) == (b, k);
    }
  }

  /** The slots of another directory's blocks. */
  lemma SettledOld(s: Fs, d: int, n: int, t: seq<int>, o: int, b: int, k: int)
    requires Linkable(s, d, n) && StaleFits(s, d, n, t) && IsDir(s, o) && o != d && b in Chain(s, o)
    requires 0 <= k < |SlotsAt(s.blk, b)|
    ensures SlotOk(Settled(s, d, n, t), SlotsAt(s.blk, b)[k], b, k)
  {
    hide Ok, OwnChain, LinkedTo;
    InChain(s, o, b);
    DirSlot(s, b, k);
    if Live(SlotsAt(s.blk, b)[k]) {
      EntryStays(s, d, n, t, o, b, k);
      hide SlotsFit, EntryAt;
    }
  }

  lemma EntryStays(s: Fs, d: int, n: int, t: seq<int>, o: int, b: int, k: int)
    requires Linkable(s, d, n) && StaleFits(s, d, n, t) && LiveAt(s, o, b, k) && o != d
    requires SlotsAt(s.blk, b)[k].start in s.ref
    ensures var e := SlotsAt(s.blk, b)[k]; EntryAt(s, LinkedTo(s, d, n), [d, n] + t, e.start) == s.ref[e.start]
  {
    hide Ok, OwnChain, LinkedTo;
    var c, blk', e := [d, n] + t, LinkedTo(s, d, n), SlotsAt(s.blk, b)[k];
    forall at ensures !SlotOf(blk', c, e.start, at) {
    }
  }

  lemma SettledSlot(s: Fs, d: int, n: int, t: seq<int>, b: int, k: int)
    requires Linkable(s, d, n) && StaleFits(s, d, n, t)
    requires DirBlock(Settled(s, d, n, t), b) && 0 <= k < |SlotsAt(Settled(s, d, n, t).blk, b)|
    ensures SlotOk(Settled(s, d, n, t), SlotsAt(Settled(s, d, n, t).blk, b)[k], b, k)
  {
    var c := [d, n] + t;
    if b in c {
      SettledNew(s, d, n, t, b, k);
    } else {
      assert b in s.home && b !in Chain(s, d);
      BlockOf(s, b);
      assert b != d by {
        assert d in c;
      }
      SettledBlocks(s, d, n, b);
      SettledOld(s, d, n, t, s.home[b].0, b, k);
      hide Ok;
    }
  }

  lemma SettledShape(s: Fs, d: int, n: int, t: seq<int>)
    requires Linkable(s, d, n)
    ensures var s' := Settled(s, d, n, t);
      && ROOT < |s'.blk| == |s.blk| && s'.blk == LinkedTo(s, d, n) && s'.max <= |s'.blk| && IsDir(s', ROOT)
      && s'.objs.Keys == s.objs.Keys
      && Relisted(s, HalfGrown(s, d, n), s', d)
  {
    Basics(s);
    hide Ok;
  }

  lemma SettledOk(s: Fs, d: int, n: int, t: seq<int>)
    requires Linkable(s, d, n) && StaleFits(s, d, n, t)
    ensures Ok(Settled(s, d, n, t)) && Relisted(s, HalfGrown(s, d, n), Settled(s, d, n, t), d)
  {
    hide Ok, ObjOk, HomeOk, SlotOk, StaleFits, Settled, WfBlock;
    SettledShape(s, d, n, t);
    var s' := Settled(s, d, n, t);
    forall x | 0 <= x < |s'.blk| ensures WfBlock(s'.blk[x]) {
      SettledBlocks(s, d, n, x);
    }
    forall o | o in s'.objs ensures ObjOk(s', o) {
      if o == d {
        SettledOwn(s, d, n, t);
      } else {
        SettledOther(s, d, n, t, o);
      }
    }
    forall x | x in s'.home ensures HomeOk(s', x) {
      SettledHome(s, d, n, t, x);
    }
    forall b, k | DirBlock(s', b) && 0 <= k < |SlotsAt(s'.blk, b)| ensures SlotOk(s', SlotsAt(s'.blk, b)[k], b, k) {
      SettledSlot(s, d, n, t, b, k);
    }
    OkFrom(s');
  }

  // ---- and back

  lemma RelistedChain(s: Fs, d: int, n: int, r: Fs)
    requires Linkable(s, d, n) && Ok(r) && Relisted(s, HalfGrown(s, d, n), r, d)
    ensures OwnChain(s, LinkedTo(s, d, n), s.used + {n}, d, d, Chain(r, d))
  {
    hide Ok, IsChain;
    ObjHere(r, d);
    forall x | x in Chain(r, d) ensures ROOT <= x && (x == ROOT || x in s.used + {n}) {
      InChain(r, d, x);
    }
    forall x, o | x in Chain(r, d) && o in s.objs && o != d ensures x !in Chain(s, o) {
      InChain(r, d, x);
      if x in Chain(s, o) {
        assert Chain(r, o) == Chain(s, o);
        InChain(r, o, x);
      }
    }
  }

  lemma RelistedSlot(s: Fs, d: int, n: int, r: Fs, b: int, k: int)
    requires Linkable(s, d, n) && Ok(r) && Relisted(s, HalfGrown(s, d, n), r, d)
    requires b in Chain(r, d) && 0 <= k < |SlotsAt(r.blk, b)|
    ensures EntryFits(s, SlotsAt(r.blk, b)[k])
    ensures var e := SlotsAt(r.blk, b)[k]; Live(e) ==> e.start in r.ref && r.ref[e.start] == (b, k)
  {
    InChain(r, d, b);
    DirSlot(r, b, k);
    hide Ok, LinkedTo;
  }

  lemma RelistedElse(s: Fs, d: int, n: int, r: Fs, o: int, b: int, k: int)
    requires Linkable(s, d, n) && Ok(r) && Relisted(s, HalfGrown(s, d, n), r, d) && LiveAt(s, o, b, k) && o != d
    ensures var e := SlotsAt(s.blk, b)[k]; e.start in r.ref && r.ref[e.start] == (b, k) && b !in Chain(r, d)
  {
    hide Ok;
    LinkFacts(s, d, n);
    ChainBounds(s, o, b);
    assert Chain(r, o) == Chain(s, o) && IsDir(r, o);
    InChain(r, o, b);
    DirSlot(r, b, k);
    if b in Chain(r, d) {
      InChain(r, d, b);
    }
  }

  lemma RelistedSlots(s: Fs, d: int, n: int, r: Fs)
    requires Linkable(s, d, n) && Ok(r) && Relisted(s, HalfGrown(s, d, n), r, d)
    ensures SlotsFit(s, LinkedTo(s, d, n), d, Chain(r, d))
  {
    hide Ok, EntryFits;
    var c, blk' := Chain(r, d), LinkedTo(s, d, n);
    forall b, k | b in c && 0 <= k < |SlotsAt(blk', b)|
      ensures EntryFits(s, SlotsAt(blk', b)[k])
      ensures var e := SlotsAt(blk', b)[k]; Live(e) ==> e.start in r.ref && r.ref[e.start] == (b, k)
    {
      RelistedSlot(s, d, n, r, b, k);
    }
    forall o, b, k | LiveAt(s, o, b, k) && o != d
      ensures SlotsAt(s.blk, b)[k].start in r.ref && r.ref[SlotsAt(s.blk, b)[k].start] == (b, k) && b !in c
    {
      RelistedElse(s, d, n, r, o, b, k);
    }
  }

  /** The half-grown disk, its objects as they were, is a good one, and so safe, for some lists
      of places exactly when the new block's stale contents fit: its pointer starts a chain of
      used blocks that belong to nothing else, and the entries in these blocks are sound. */
  lemma HalfGrownOkExactly(s: Fs, d: int, name: string, flag: int)
    requires Ok(s) && IsDir(s, d) && HalfGrows(s, d)
    ensures 0 <= LastBlock(s, d) < |s.blk| && 0 <= d < |s.blk| && 0 <= FreeBlk(s.used, s.max).value < |s.blk|
    ensures (exists r :: Ok(r) && Relisted(s, Insert(s, d, name, flag).0, r, d))
       <==> exists t :: StaleFits(s, d, FreeBlk(s.used, s.max).value, t)
  {
    hide Ok, StaleFits, HalfGrows, Insert, Relisted, Settled;
    HalfGrowsLinks(s, d);
    HalfGrownLeaves(s, d, name, flag);
    var n := FreeBlk(s.used, s.max).value;
    if r :| Ok(r) && Relisted(s, Insert(s, d, name, flag).0, r, d) {
      RelistedChain(s, d, n, r);
      var t := StaleTail(s, d, n, Chain(r, d));
      RelistedSlots(s, d, n, r);
      assert StaleFits(s, d, n, t) by {
        FitsIs(s, d, n, t);
      }
    }
    if t :| StaleFits(s, d, n, t) {
      SettledOk(s, d, n, t);
    }
  }

  lemma FitsIs(s: Fs, d: int, n: int, t: seq<int>)
    requires Linkable(s, d, n) && d !in t && OwnChain(s, s.blk, s.used, d, s.blk[n].next, t)
    requires SlotsFit(s, LinkedTo(s, d, n), d, [d, n] + t)
    ensures StaleFits(s, d, n, t)
  {
  }

  /** The block that directory d is about to be linked to happens to fit. */
  ghost predicate Mends(s: Fs, d: int) {
    && 0 <= LastBlock(s, d) < |s.blk| && 0 <= d < |s.blk|
    && FreeBlk(s.used, s.max).Some? && FreeBlk(s.used, s.max).value < |s.blk|
    && exists t :: StaleFits(s, d, FreeBlk(s.used, s.max).value, t)
  }

  /** A block that leads nowhere and holds no entry. */
  ghost predicate Clean(b: Block) {
    b.next == -1 && forall k :: 0 <= k < |b.slots| ==> !Live(b.slots[k])
  }

  lemma LastSlotAt(s: Fs, d: int, k: int)
    requires Ok(s) && IsDir(s, d) && 0 <= k < |LastSlots(s, d)|
    ensures EntryFits(s, LastSlots(s, d)[k])
    ensures Live(LastSlots(s, d)[k]) ==>
        var o := LastSlots(s, d)[k].start; o in s.ref && s.ref[o] == (LastBlock(s, d), k)
  {
    DirBounds(s, d);
    InChain(s, d, LastBlock(s, d));
    DirSlot(s, LastBlock(s, d), k);
    hide Ok;
  }

  /** The directory's own entries, and none in the clean block. */
  lemma CleanSlot(s: Fs, d: int, n: int, b: int, k: int)
    requires Linkable(s, d, n) && Clean(s.blk[n]) && b in [d, n] && 0 <= k < |SlotsAt(LinkedTo(s, d, n), b)|
    ensures var e := SlotsAt(LinkedTo(s, d, n), b)[k];
      EntryFits(s, e) && (Live(e) ==> b == d && e.start in s.ref && s.ref[e.start] == (LastBlock(s, d), k))
  {
    hide Ok, EntryFits, LinkedTo;
    SettledBlocks(s, d, n, b);
    if b == d {
      LastSlotAt(s, d, k);
    } else {
      CleanEntry(s, s.blk[n].slots[k]);
    }
  }

  lemma LiveRef(s: Fs, d: int, o: int, b: int, k: int)
    requires Ok(s) && IsDir(s, d) && LiveAt(s, o, b, k) && o != d
    ensures SlotsAt(s.blk, b)[k].start in s.ref && s.ref[SlotsAt(s.blk, b)[k].start] == (b, k) && b != LastBlock(s, d)
  {
    LiveSlot(s, o, b, k);
    LastIn(s, d);
    hide Ok;
  }

  lemma CleanSlots(s: Fs, d: int, n: int, c: seq<int>)
    requires Linkable(s, d, n) && Clean(s.blk[n]) && c == [d, n]
    ensures SlotsFit(s, LinkedTo(s, d, n), d, c)
  {
    hide Ok, EntryFits, LinkedTo, Clean;
    var blk' := LinkedTo(s, d, n);
    forall b, k | b in c && 0 <= k < |SlotsAt(blk', b)|
      ensures EntryFits(s, SlotsAt(blk', b)[k])
    {
      CleanSlot(s, d, n, b, k);
    }
    forall b, k | LiveIn(blk', c, b, k)
      ensures b == d && SlotsAt(blk', b)[k].start in s.ref && s.ref[SlotsAt(blk', b)[k].start] == (LastBlock(s, d), k)
    {
      CleanSlot(s, d, n, b, k);
    }
    forall o, b, k | LiveAt(s, o, b, k) && o != d
      ensures SlotsAt(s.blk, b)[k].start in s.ref && s.ref[SlotsAt(s.blk, b)[k].start] == (b, k) && b != LastBlock(s, d)
    {
      LiveRef(s, d, o, b, k);
    }
  }

  lemma LastIn(s: Fs, d: int)
    requires Ok(s) && IsDir(s, d)
    ensures var b := LastBlock(s, d); b in s.home && s.home[b].0 == d
  {
    DirBounds(s, d);
    InChain(s, d, LastBlock(s, d));
  }

  lemma CleanEntry(s: Fs, e: Dirent)
    requires !Live(e)
    ensures EntryFits(s, e)
  {
  }

  /** A clean block always fits, one that leads into another object never does. */
  lemma CleanMends(s: Fs, d: int)
    requires Ok(s) && IsDir(s, d) && HalfGrows(s, d)
    ensures 0 <= FreeBlk(s.used, s.max).value < |s.blk|
    ensures Clean(s.blk[FreeBlk(s.used, s.max).value]) ==> Mends(s, d)
    ensures (exists o :: o in s.objs && o != d && s.blk[FreeBlk(s.used, s.max).value].next in Chain(s, o)) ==>
        !Mends(s, d)
  {
    hide Ok, HalfGrows, SlotsFit, LinkedTo;
    HalfGrowsLinks(s, d);
    var n := FreeBlk(s.used, s.max).value;
    if Clean(s.blk[n]) {
      CleanSlots(s, d, n, [d, n] + []);
      assert OwnChain(s, s.blk, s.used, d, -1, []);
      assert StaleFits(s, d, n, []);
    }
    if o :| o in s.objs && o != d && s.blk[n].next in Chain(s, o) {
      ChainBounds(s, o, s.blk[n].next);
      forall t ensures !StaleFits(s, d, n, t) {
        if t != [] && t[0] == s.blk[n].next {
          assert t[0] in t;
        }
      }
    }
  }

  /** The disk after op_create, with the lists of a half-grown directory brought in line when
      they can be. */
  ghost function Created(s: Fs, path: seq<string>, flag: int): (r: Fs)
    requires Ok(s) && path != [] && flag in {1, 2}
    ensures !LeavesHalf(s, path) ==> r == Create(s, path, flag).0
  {
    if LeavesHalf(s, path) && Mends(s, Resolve(s, Front(path)).value.start) then
      var d := Resolve(s, Front(path)).value.start;
      var n := FreeBlk(s.used, s.max).value;
      var t :| StaleFits(s, d, n, t);
      Settled(s, d, n, t)
    else Create(s, path, flag).0
  }

  lemma LeavesHalfIs(s: Fs, path: seq<string>, flag: int)
    requires Ok(s) && path != [] && flag in {1, 2} && LeavesHalf(s, path)
    ensures var d := Resolve(s, Front(path)).value.start;
      && IsDir(s, d) && HalfGrows(s, d) && Create(s, path, flag) == Insert(s, d, Last(path), flag)
  {
    ResolveMeans(s, Front(path));
    hide Ok, HalfGrows, Visible, Insert;
  }

  /** op_create, half-grown directories included, leaves a good disk with the objects it should
      have exactly when the parent is not left half-grown, or the block it then leads to fits. */
  lemma CreateOkExactly(s: Fs, path: seq<string>, flag: int)
    requires Ok(s) && path != [] && flag in {1, 2}
    ensures LeavesHalf(s, path) ==>
      ((exists r :: Ok(r) && Relisted(s, Create(s, path, flag).0, r, Resolve(s, Front(path)).value.start))
       <==> Mends(s, Resolve(s, Front(path)).value.start))
    ensures !LeavesHalf(s, path) || Mends(s, Resolve(s, Front(path)).value.start) ==> Ok(Created(s, path, flag))
    ensures var r, s' := Created(s, path, flag), Create(s, path, flag).0;
        r.blk == s'.blk && r.used == s'.used && r.max == s'.max
  {
    hide Ok, Create, StaleFits, Relisted, Settled, HalfGrows, Visible;
    if LeavesHalf(s, path) {
      LeavesHalfIs(s, path, flag);
      var d := Resolve(s, Front(path)).value.start;
      HalfGrowsLinks(s, d);
      HalfGrownLeaves(s, d, Last(path), flag);
      HalfGrownOkExactly(s, d, Last(path), flag);
      forall t | StaleFits(s, d, FreeBlk(s.used, s.max).value, t)
        ensures Ok(Settled(s, d, FreeBlk(s.used, s.max).value, t))
        ensures Relisted(s, Create(s, path, flag).0, Settled(s, d, FreeBlk(s.used, s.max).value, t), d)
      {
        SettledOk(s, d, FreeBlk(s.used, s.max).value, t);
      }
      SettledDisk(s, d, FreeBlk(s.used, s.max).value);
    } else {
      CreateOk(s, path, flag);
    }
  }

  lemma SettledDisk(s: Fs, d: int, n: int)
    requires Linkable(s, d, n)
    ensures forall t ::
        var r, s' := Settled(s, d, n, t), HalfGrown(s, d, n); r.blk == s'.blk && r.used == s'.used && r.max == s'.max
  {
  }
}
