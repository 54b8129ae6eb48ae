/** op_create: adding an entry to a directory, as written. */
module Creating {
  import opened Paths
  import opened Runs
  import opened Disk
  import opened Tree

  const ENOENT: int := 2
  const EEXIST: int := 17
  const ENOTDIR: int := 20
  const EISDIR: int := 21
  const ENAMETOOLONG: int := 36
  const ENOTEMPTY: int := 39

  /** The existence test scans a block only up to its first free slot. */
  predicate Seen(slots: seq<Dirent>, name: string) {
    FindSlot(slots, name, 0) < FreeSlot(slots, 0)
  }

  /** is_exist: some block of the chain shows the name before its first free slot. */
  predicate Visible(blk: seq<Block>, c: seq<int>, name: string) {
    exists i :: 0 <= i < |c| && Seen(SlotsAt(blk, c[i]), name)
  }

  /** After the existence test the buffer holds the directory's last block. */
  function LastBlock(s: Fs, d: int): (b: int) {
    var c := Chain(s, d);
    if c == [] then -1 else c[|c| - 1]
  }

  function LastSlots(s: Fs, d: int): seq<Dirent> {
    SlotsAt(s.blk, LastBlock(s, d))
  }

  /** Entries whose slot was in block b are now in the same slot of block `to`. */
  function Moved(ref: map<int, (int, int)>, b: int, to: int): map<int, (int, int)> {
    map o | o in ref :: if ref[o].0 == b then (to, ref[o].1) else ref[o]
  }

  function AsSet(m: Option<int>): set<int> {
    if m.Some? then {m.value} else {}
  }

  /** How an insertion changes the lists of objects and places: directory d is left with its
      first block and the new block m if there is one, and a new object of one block n has
      its entry in slot `at`. */
  function Reshape(s: Fs, blk': seq<Block>, d: int, m: Option<int>, n: int, isDir: bool, at: (int, int)): Fs {
    var home := (s.home - SetOf(Chain(s, d)))[d := (d, 0)][n := (n, 0)];
    Fs(blk', s.used + AsSet(m) + {n}, s.max,
       s.objs[d := Obj(true, if m.Some? then [d, m.value] else [d])][n := Obj(isDir, [n])],
       if m.Some? then home[m.value := (d, 1)] else home,
       Moved(s.ref, LastBlock(s, d), d)[n := at])
  }

  /** The buffer gets the new entry in its first free slot and is written to the directory's
      first block; the object's block n is zeroed. */
  function Fill(s: Fs, d: int, name: string, flag: int, n: int): Fs
    requires 0 <= LastBlock(s, d) < |s.blk| && 0 <= d < |s.blk| && 0 <= n < |s.blk|
    requires FreeSlot(LastSlots(s, d), 0) < |LastSlots(s, d)|
  {
    var buffer := s.blk[LastBlock(s, d)];
    var k := FreeSlot(buffer.slots, 0);
    Reshape(s, s.blk[d := WithEntry(buffer, k, Dirent(name, 0, n, flag))][n := Fresh()],
            d, None, n, flag == 2, (d, k))
  }

  /** A block whose first slot holds the given entry, and nothing else. */
  function OneEntry(e: Dirent): Block {
    WithEntry(Fresh(), 0, e)
  }

  /** With the buffer full, it is written to the directory's first block with a link to a
      new block m, whose first slot gets the entry. */
  function Grow(s: Fs, d: int, name: string, flag: int, m: int, n: int): Fs
    requires 0 <= LastBlock(s, d) < |s.blk| && 0 <= d < |s.blk| && 0 <= m < |s.blk| && 0 <= n < |s.blk|
  {
    var buffer := s.blk[LastBlock(s, d)];
    Reshape(s, s.blk[d := buffer.(next := m)][m := OneEntry(Dirent(name, 0, n, flag))][n := Fresh()],
            d, Some(m), n, flag == 2, (m, 0))
  }

  /** The second search of the growing case finds nothing: the link is on the disk, the block
      it leads to was never initialised. */
  function HalfGrown(s: Fs, d: int, m: int): Fs
    requires 0 <= LastBlock(s, d) < |s.blk| && 0 <= d < |s.blk|
  {
    s.(blk := s.blk[d := s.blk[LastBlock(s, d)].(next := m)], used := s.used + {m})
  }

  /** The one-block search. */
  function FreeBlk(used: set<int>, max: nat): (r: Option<int>)
    ensures r.Some? ==> FIRST <= r.value < max - 1 && r.value !in used
    ensures r.None? <==> forall b :: FIRST <= b < max - 1 ==> b in used
  {
    BestMeans(used, FIRST, max - 1, 1);
    var r := Best(used, FIRST, max - 1, 1);
    if r.len < 1 then None else Some(r.start)
  }

  /** Adding an entry to directory d that does not show the name. */
  function Insert(s: Fs, d: int, name: string, flag: int): (Fs, int)
    requires Ok(s) && IsDir(s, d)
  {
    DirBounds(s, d);
    match FreeBlk(s.used, s.max)
    case None => (s, -1)
    case Some(n) =>
      if FreeSlot(LastSlots(s, d), 0) < SLOTS then (Fill(s, d, name, flag, n), 0)
      else match FreeBlk(s.used + {n}, s.max)
        case None => (HalfGrown(s, d, n), -1)
        case Some(m) => (Grow(s, d, name, flag, n, m), 0)
  }

  function Create(s: Fs, path: seq<string>, flag: int): (Fs, int)
    requires Ok(s) && path != []
  {
    var name := Last(path);
    if |name| > NAME_MAX then (s, -ENAMETOOLONG)
    else match Resolve(s, Front(path))
      case None => (s, -ENOENT)
      case Some(p) =>
        ResolveMeans(s, Front(path));
        if p.flag != 2 then (s, -ENOTDIR)
        else if Visible(s.blk, Chain(s, p.start), name) then (s, -EEXIST)
        else Insert(s, p.start, name, flag)
  }

  lemma AllWf(s: Fs)
    requires Ok(s)
    ensures forall b :: 0 <= b < |s.blk| ==> WfBlock(s.blk[b])
  {
  }

  lemma DirBounds(s: Fs, d: int)
    requires Ok(s) && IsDir(s, d)
    ensures Chain(s, d) != [] && Chain(s, d)[0] == d && LastBlock(s, d) in Chain(s, d)
    ensures ROOT <= d < |s.blk| && ROOT <= LastBlock(s, d) < |s.blk| && |LastSlots(s, d)| == SLOTS
    ensures s.blk[LastBlock(s, d)].next == -1
  {
    assert ObjOk(s, d);
    InChain(s, d, d);
    InChain(s, d, LastBlock(s, d));
  }

  /** A block the search hands out belongs to no object. */
  lemma FreeIsNew(s: Fs, n: int)
    requires Ok(s) && FIRST <= n && n !in s.used
    ensures n !in s.home && n !in s.objs
    ensures forall o :: o in s.objs ==> n !in Chain(s, o)
  {
    if n in s.home {
      assert HomeOk(s, n);
      InChain(s, s.home[n].0, n);
    }
    forall o | o in s.objs ensures n !in Chain(s, o) && o != n {
      assert ObjOk(s, o);
      assert Chain(s, o)[0] == o;
      if n in Chain(s, o) {
        InChain(s, o, n);
      }
    }
  }

  /** Objects other than the directory touched keep their chains and places. */
  lemma OtherObject(s: Fs, s': Fs, d: int, new_blks: set<int>, o: int)
    requires Ok(s) && IsDir(s, d) && o in s.objs && o != d
    requires forall n :: n in new_blks ==> FIRST <= n && n !in s.used
    requires |s'.blk| == |s.blk| && s.used <= s'.used
    requires forall b :: 0 <= b < |s.blk| && b != d && b !in new_blks ==> s'.blk[b] == s.blk[b]
    requires o in s'.objs && s'.objs[o] == s.objs[o]
    requires forall b :: b in s.home && b !in Chain(s, d) && b !in new_blks ==> b in s'.home && s'.home[b] == s.home[b]
    ensures ObjOk(s', o)
    ensures forall b :: b in Chain(s, o) ==> SlotsAt(s'.blk, b) == SlotsAt(s.blk, b)
    ensures Content(s'.blk, Chain(s', o)) == Content(s.blk, Chain(s, o))
    ensures forall x :: EntryIn(s'.blk, Chain(s', o), x) == EntryIn(s.blk, Chain(s, o), x)
  {
    assert ObjOk(s, o) && ObjOk(s, d);
    var c := Chain(s, o);
    forall b | b in c
      ensures s'.blk[b] == s.blk[b] && b in s'.home && s'.home[b] == s.home[b] && b in s'.used + {ROOT} && b < |s.blk|
    {
      InChain(s, o, b);
      if b in Chain(s, d) {
        InChain(s, d, b);
      }
      assert d in Chain(s, d);
    }
    ChainFrame(s.blk, s'.blk, o, c);
    forall i | 0 <= i < |c| ensures PlaceOk(s', o, i, c[i]) {
      assert PlaceOk(s, o, i, c[i]);
      assert c[i] in c;
    }
    ContentFrame(s.blk, s'.blk, c);
    forall x ensures EntryIn(s'.blk, Chain(s', o), x) == EntryIn(s.blk, Chain(s, o), x) {
      FindFrame(s.blk, s'.blk, c, x);
    }
  }

  // ---- both ways of inserting keep the structure

  /** The blocks an insertion writes: the directory's first block, linked to m if there is
      one, m as the end of the chain, and the zeroed block n. */
  ghost predicate Rewrites(s: Fs, blk': seq<Block>, d: int, m: Option<int>, n: int) {
    && |blk'| == |s.blk| && 0 <= d < |blk'|
    && (forall b :: 0 <= b < |blk'| ==> WfBlock(blk'[b]))
    && (forall b :: 0 <= b < |blk'| && b != d && b != n && b !in AsSet(m) ==> blk'[b] == s.blk[b])
    && FIRST <= n < |blk'| && n !in s.used && n != d && blk'[n] == Fresh()
    && blk'[d].next == (if m.Some? then m.value else -1)
    && (m.Some? ==>
        FIRST <= m.value < |blk'| && m.value !in s.used && m.value != d && m.value != n && blk'[m.value].next == -1)
  }

  lemma ReshapeOwn(s: Fs, blk': seq<Block>, d: int, m: Option<int>, n: int, isDir: bool, at: (int, int))
    requires Ok(s) && IsDir(s, d) && Rewrites(s, blk', d, m, n)
    ensures ObjOk(Reshape(s, blk', d, m, n, isDir, at), d) && ObjOk(Reshape(s, blk', d, m, n, isDir, at), n)
  {
    hide Ok, ObjOk;
    DirBounds(s, d);
    InChain(s, d, d);
    ReshapeDir(s, blk', d, m, n, isDir, at);
    ReshapeNew(s, blk', d, m, n, isDir, at);
  }

  lemma ReshapeDir(s: Fs, blk': seq<Block>, d: int, m: Option<int>, n: int, isDir: bool, at: (int, int))
    requires Rewrites(s, blk', d, m, n) && ROOT <= d && (d == ROOT || d in s.used)
    ensures ObjOk(Reshape(s, blk', d, m, n, isDir, at), d)
  {
    hide Moved, WfBlock, Fresh;
  }

  lemma ReshapeNew(s: Fs, blk': seq<Block>, d: int, m: Option<int>, n: int, isDir: bool, at: (int, int))
    requires Rewrites(s, blk', d, m, n)
    ensures ObjOk(Reshape(s, blk', d, m, n, isDir, at), n)
  {
    hide Moved, WfBlock;
  }

  lemma ReshapeOther(s: Fs, blk': seq<Block>, d: int, m: Option<int>, n: int, isDir: bool, at: (int, int), o: int)
    requires Ok(s) && IsDir(s, d) && Rewrites(s, blk', d, m, n) && o in s.objs && o != d
    ensures var s' := Reshape(s, blk', d, m, n, isDir, at);
      && o != n && Chain(s', o) == Chain(s, o) && ObjOk(s', o)
      && (forall b :: b in Chain(s, o) ==> SlotsAt(s'.blk, b) == SlotsAt(s.blk, b))
      && Content(s'.blk, Chain(s', o)) == Content(s.blk, Chain(s, o))
      && forall x :: EntryIn(s'.blk, Chain(s', o), x) == EntryIn(s.blk, Chain(s, o), x)
  {
    DirBounds(s, d);
    FreeIsNew(s, n);
    hide Ok, ObjOk, IsChain, EntryIn, Content, SlotsAt, Moved, IsDir, Fresh, WfBlock;
    OtherObject(s, Reshape(s, blk', d, m, n, isDir, at), d, AsSet(m) + {n}, o);
  }

  lemma ReshapeHome(s: Fs, blk': seq<Block>, d: int, m: Option<int>, n: int, isDir: bool, at: (int, int), b: int)
    requires Ok(s) && IsDir(s, d) && Rewrites(s, blk', d, m, n)
    requires b in Reshape(s, blk', d, m, n, isDir, at).home
    ensures HomeOk(Reshape(s, blk', d, m, n, isDir, at), b)
  {
    if b != d && b != n && b !in AsSet(m) {
      assert HomeOk(s, b);
      assert b in Chain(s, s.home[b].0);
      FreeIsNew(s, n);
    }
  }

  lemma FreshSlots(s: Fs, blk': seq<Block>, d: int, m: Option<int>, n: int, b: int, k: int)
    requires Rewrites(s, blk', d, m, n) && b == n && 0 <= k < |SlotsAt(blk', b)|
    ensures SlotsAt(blk', b)[k] == FREE_ENTRY
  {
  }

  lemma OldSlots(s: Fs, blk': seq<Block>, d: int, m: Option<int>, n: int, isDir: bool, at: (int, int), b: int, k: int)
    requires Ok(s) && IsDir(s, d) && Rewrites(s, blk', d, m, n) && b != n && b != d && b !in AsSet(m)
    requires DirBlock(Reshape(s, blk', d, m, n, isDir, at), b) && 0 <= k < |SlotsAt(blk', b)|
    ensures b in s.home && b !in Chain(s, d) && SlotsAt(blk', b) == SlotsAt(s.blk, b)
    ensures SlotOk(s, SlotsAt(s.blk, b)[k], b, k)
    ensures Live(SlotsAt(s.blk, b)[k]) ==> s.ref[SlotsAt(s.blk, b)[k].start].0 != LastBlock(s, d)
  {
    DirBounds(s, d);
    FreeIsNew(s, n);
    assert HomeOk(s, b);
    InChain(s, s.home[b].0, b);
    assert SlotOk(s, SlotsAt(s.blk, b)[k], b, k);
    hide Ok;
  }

  /** A slot of another directory is as good after the insertion as before. */
  lemma ReshapeSlot(s: Fs, blk': seq<Block>, d: int, m: Option<int>, n: int, isDir: bool, at: (int, int), b: int,
                    k: int)
    requires Ok(s) && IsDir(s, d) && Rewrites(s, blk', d, m, n)
    requires DirBlock(Reshape(s, blk', d, m, n, isDir, at), b) && b != d && b !in AsSet(m)
    requires 0 <= k < |SlotsAt(blk', b)|
    ensures SlotOk(Reshape(s, blk', d, m, n, isDir, at), SlotsAt(blk', b)[k], b, k)
  {
    if b == n {
      FreshSlots(s, blk', d, m, n, b, k);
      hide Ok, Rewrites, Reshape, Fresh;
      FreeEntryOk(Reshape(s, blk', d, m, n, isDir, at));
    } else {
      OldSlots(s, blk', d, m, n, isDir, at, b, k);
      FreeIsNew(s, n);
      hide Ok, Rewrites;
    }
  }

  /** The last block's entries are good in the first block, where they are moved to. */
  lemma ReshapeMoved(s: Fs, blk': seq<Block>, d: int, m: Option<int>, n: int, isDir: bool, at: (int, int), k: int)
    requires Ok(s) && IsDir(s, d) && Rewrites(s, blk', d, m, n) && 0 <= k < SLOTS
    ensures |LastSlots(s, d)| == SLOTS && SlotOk(Reshape(s, blk', d, m, n, isDir, at), LastSlots(s, d)[k], d, k)
  {
    DirBounds(s, d);
    FreeIsNew(s, n);
    InChain(s, d, LastBlock(s, d));
    assert SlotOk(s, SlotsAt(s.blk, LastBlock(s, d))[k], LastBlock(s, d), k);
  }

  lemma ReshapeOk(s: Fs, blk': seq<Block>, d: int, m: Option<int>, n: int, isDir: bool, at: (int, int))
    requires Ok(s) && IsDir(s, d) && Rewrites(s, blk', d, m, n)
    requires forall b, k :: b in {d} + AsSet(m) && 0 <= k < |SlotsAt(blk', b)|
               ==> SlotOk(Reshape(s, blk', d, m, n, isDir, at), SlotsAt(blk', b)[k], b, k)
    ensures Ok(Reshape(s, blk', d, m, n, isDir, at))
  {
    hide ObjOk, HomeOk, SlotOk, Moved;
    var s' := Reshape(s, blk', d, m, n, isDir, at);
    ReshapeOwn(s, blk', d, m, n, isDir, at);
    FreeIsNew(s, n);
    forall o | o in s'.objs ensures ObjOk(s', o) {
      if o != d && o != n {
        ReshapeOther(s, blk', d, m, n, isDir, at, o);
      }
    }
    forall b | b in s'.home ensures HomeOk(s', b) {
      ReshapeHome(s, blk', d, m, n, isDir, at, b);
    }
    forall b, k | DirBlock(s', b) && 0 <= k < |SlotsAt(s'.blk, b)|
      ensures SlotOk(s', SlotsAt(s'.blk, b)[k], b, k)
    {
      if b != d && b !in AsSet(m) {
        ReshapeSlot(s, blk', d, m, n, isDir, at, b, k);
      }
    }
  }

  lemma FillRewrites(s: Fs, d: int, name: string, flag: int, n: int)
    requires Ok(s) && IsDir(s, d) && FIRST <= n < |s.blk| && n !in s.used
    requires 0 <= LastBlock(s, d) < |s.blk| && 0 <= d < |s.blk| && FreeSlot(LastSlots(s, d), 0) < |LastSlots(s, d)|
    ensures Rewrites(s, Fill(s, d, name, flag, n).blk, d, None, n)
  {
    hide Ok, Moved, WithNumbers, WithName, FreeSlot;
    DirBounds(s, d);
    FreeIsNew(s, n);
    AllWf(s);
  }

  /** The new object's entry. */
  lemma NewEntryOk(s: Fs, blk': seq<Block>, d: int, m: Option<int>, n: int, at: (int, int), name: string, flag: int)
    requires |name| <= NAME_MAX && flag in {1, 2} && FIRST <= n && n != d
    ensures SlotOk(Reshape(s, blk', d, m, n, flag == 2, at), Dirent(name, 0, n, flag), at.0, at.1)
  {
    hide Moved;
  }

  lemma FillSlots(s: Fs, d: int, name: string, flag: int, n: int)
    requires 0 <= LastBlock(s, d) < |s.blk| && 0 <= d < |s.blk| && 0 <= n < |s.blk| && n != d
    requires FreeSlot(LastSlots(s, d), 0) < |LastSlots(s, d)|
    ensures var k, s' := FreeSlot(LastSlots(s, d), 0), Fill(s, d, name, flag, n);
      && s' == Reshape(s, s'.blk, d, None, n, flag == 2, (d, k)) && Chain(s', d) == [d] && IsDir(s', d)
      && SlotsAt(s'.blk, d) == LastSlots(s, d)[k := Dirent(name, 0, n, flag)]
  {
    hide Moved, Fresh, WithNumbers, WithName, FreeSlot;
  }

  lemma GrowSlots(s: Fs, d: int, name: string, flag: int, m: int, n: int)
    requires 0 <= LastBlock(s, d) < |s.blk| && 0 <= d < |s.blk| && 0 <= m < |s.blk| && 0 <= n < |s.blk|
    requires m != d && n != d && n != m
    ensures var s' := Grow(s, d, name, flag, m, n);
      && s' == Reshape(s, s'.blk, d, Some(m), n, flag == 2, (m, 0)) && Chain(s', d) == [d, m] && IsDir(s', d)
      && SlotsAt(s'.blk, d) == LastSlots(s, d) && SlotsAt(s'.blk, m) == Fresh().slots[0 := Dirent(name, 0, n, flag)]
  {
    hide Moved, Fresh, WithNumbers, WithName;
  }

  lemma FillOk(s: Fs, d: int, name: string, flag: int, n: int)
    requires Ok(s) && IsDir(s, d) && |name| <= NAME_MAX && flag in {1, 2}
    requires FIRST <= n < |s.blk| && n !in s.used
    requires 0 <= LastBlock(s, d) < |s.blk| && 0 <= d < |s.blk| && FreeSlot(LastSlots(s, d), 0) < |LastSlots(s, d)|
    ensures Ok(Fill(s, d, name, flag, n))
  {
    hide Ok, Rewrites, Fill, SlotOk, Reshape;
    var s', at := Fill(s, d, name, flag, n), (d, FreeSlot(LastSlots(s, d), 0));
    FillRewrites(s, d, name, flag, n);
    FreeIsNew(s, n);
    DirBounds(s, d);
    FillSlots(s, d, name, flag, n);
    NewEntryOk(s, s'.blk, d, None, n, at, name, flag);
    forall k | 0 <= k < |SlotsAt(s'.blk, d)| ensures SlotOk(s', SlotsAt(s'.blk, d)[k], d, k) {
      ReshapeMoved(s, s'.blk, d, None, n, flag == 2, at, k);
    }
    ReshapeOk(s, s'.blk, d, None, n, flag == 2, at);
  }

  lemma GrowRewrites(s: Fs, d: int, name: string, flag: int, m: int, n: int)
    requires Ok(s) && IsDir(s, d)
    requires FIRST <= m < |s.blk| && m !in s.used
    requires FIRST <= n < |s.blk| && n !in s.used && n != m
    requires 0 <= LastBlock(s, d) < |s.blk| && 0 <= d < |s.blk|
    ensures Rewrites(s, Grow(s, d, name, flag, m, n).blk, d, Some(m), n)
  {
    hide Ok, Moved, WithNumbers, WithName, FreeSlot;
    DirBounds(s, d);
    FreeIsNew(s, n);
    FreeIsNew(s, m);
    AllWf(s);
  }

  lemma FreeEntryOk(s: Fs)
    ensures forall b, k :: SlotOk(s, FREE_ENTRY, b, k)
  {
  }

  lemma GrowOk(s: Fs, d: int, name: string, flag: int, m: int, n: int)
    requires Ok(s) && IsDir(s, d) && |name| <= NAME_MAX && flag in {1, 2}
    requires FIRST <= m < |s.blk| && m !in s.used
    requires FIRST <= n < |s.blk| && n !in s.used && n != m
    requires 0 <= LastBlock(s, d) < |s.blk| && 0 <= d < |s.blk|
    ensures Ok(Grow(s, d, name, flag, m, n))
  {
    hide Ok, Rewrites, Grow, SlotOk, Reshape;
    var s' := Grow(s, d, name, flag, m, n);
    GrowRewrites(s, d, name, flag, m, n);
    FreeIsNew(s, n);
    FreeIsNew(s, m);
    DirBounds(s, d);
    GrowSlots(s, d, name, flag, m, n);
    NewEntryOk(s, s'.blk, d, Some(m), n, (m, 0), name, flag);
    FreeEntryOk(s');
    forall b, k | b in {d} + AsSet(Some(m)) && 0 <= k < |SlotsAt(s'.blk, b)|
      ensures SlotOk(s', SlotsAt(s'.blk, b)[k], b, k)
    {
      if b == d {
        ReshapeMoved(s, s'.blk, d, Some(m), n, flag == 2, (m, 0), k);
      }
    }
    ReshapeOk(s, s'.blk, d, Some(m), n, flag == 2, (m, 0));
  }

  /** The disk is left half-grown when the directory's last block is full and exactly one
      start position is free. */
  predicate HalfGrows(s: Fs, d: int) {
    && FreeSlot(LastSlots(s, d), 0) == |LastSlots(s, d)|
    && FreeBlk(s.used, s.max).Some?
    && FreeBlk(s.used + {FreeBlk(s.used, s.max).value}, s.max).None?
  }

  /** Every block the search may start at is used. */
  predicate DiskFull(s: Fs) {
    forall b :: FIRST <= b < s.max - 1 ==> b in s.used
  }

  /** op_create gets as far as asking for a block. */
  ghost predicate Asks(s: Fs, path: seq<string>)
    requires path != []
  {
    && |Last(path)| <= NAME_MAX && Resolve(s, Front(path)).Some? && Resolve(s, Front(path)).value.flag == 2
    && !Visible(s.blk, Chain(s, Resolve(s, Front(path)).value.start), Last(path))
  }

  /** It leaves the parent half-grown. */
  ghost predicate LeavesHalf(s: Fs, path: seq<string>)
    requires path != []
  {
    Asks(s, path) && HalfGrows(s, Resolve(s, Front(path)).value.start)
  }

  /** What that leaves: the call fails, yet the directory's first block now leads to a block
      that was never initialised. */
  lemma HalfGrownLeaves(s: Fs, d: int, name: string, flag: int)
    requires Ok(s) && IsDir(s, d) && HalfGrows(s, d)
    ensures var (s', r) := Insert(s, d, name, flag); var n := FreeBlk(s.used, s.max).value;
      && r == -1 && 0 <= d < |s'.blk| && n != d && s' == HalfGrown(s, d, n)
      && s'.blk[d].next == n && s'.blk[n] == s.blk[n]
  {
    DirBounds(s, d);
    MaxOk(s);
    FreeIsNew(s, FreeBlk(s.used, s.max).value);
    hide Ok, Fill, Grow;
  }

  /** op_create keeps the structural invariant on every disk, whatever the directory looks
      like, unless it leaves the parent half-grown. */
  lemma CreateOk(s: Fs, path: seq<string>, flag: int)
    requires Ok(s) && path != [] && flag in {1, 2} && !LeavesHalf(s, path)
    ensures Ok(Create(s, path, flag).0)
  {
    hide Ok, HalfGrows, Visible;
    if Asks(s, path) {
      ResolveMeans(s, Front(path));
      InsertOk(s, Resolve(s, Front(path)).value.start, Last(path), flag);
    }
  }

  lemma InsertOk(s: Fs, d: int, name: string, flag: int)
    requires Ok(s) && IsDir(s, d) && flag in {1, 2} && |name| <= NAME_MAX && !HalfGrows(s, d)
    ensures Ok(Insert(s, d, name, flag).0)
  {
    DirBounds(s, d);
    MaxOk(s);
    hide Ok;
    var first := FreeBlk(s.used, s.max);
    if first.Some? {
      if FreeSlot(LastSlots(s, d), 0) < SLOTS {
        FillOk(s, d, name, flag, first.value);
      } else {
        GrowOk(s, d, name, flag, first.value, FreeBlk(s.used + {first.value}, s.max).value);
      }
    }
  }

  lemma MaxOk(s: Fs)
    requires Ok(s)
    ensures s.max <= |s.blk|
  {
  }

  // ---- what an insertion does to lookups

  /** Only the directory's last block holds entries. */
  ghost predicate OnlyLastHolds(s: Fs, d: int) {
    forall i, k :: 0 <= i < |Chain(s, d)| - 1 && 0 <= k < |SlotsAt(s.blk, Chain(s, d)[i])| ==>
        !Live(SlotsAt(s.blk, Chain(s, d)[i])[k])
  }

  lemma LookupInOne(blk: seq<Block>, b: int, x: string)
    ensures var k := FindSlot(SlotsAt(blk, b), x, 0);
      EntryIn(blk, [b], x) == if k < |SlotsAt(blk, b)| then Some(SlotsAt(blk, b)[k]) else None
  {
    assert [b][1..] == [];
    assert FindIn(blk, [], x) == None;
  }

  lemma LookupInTwo(blk: seq<Block>, b: int, c: int, x: string)
    ensures EntryIn(blk, [b, c], x) == if EntryIn(blk, [b], x).Some? then EntryIn(blk, [b], x) else EntryIn(blk, [c], x)
  {
    assert [b, c][1..] == [c];
    LookupInOne(blk, b, x);
  }

  /** If only the last block holds entries, a lookup is a lookup in the last block. */
  lemma LookupLast(s: Fs, d: int, x: string)
    requires Ok(s) && IsDir(s, d) && OnlyLastHolds(s, d)
    ensures Entry(s, d, x) == EntryIn(s.blk, [LastBlock(s, d)], x)
  {
    DirBounds(s, d);
    hide Ok;
    var c := Chain(s, d);
    var n := |c| - 1;
    assert c[n..] == [LastBlock(s, d)];
    FindSkips(s.blk, c, n, x);
  }

  /** If an earlier block holds an entry too, that entry's name is not in the last block. */
  lemma LookupMisses(s: Fs, d: int, i: int, k: int)
    requires Ok(s) && IsDir(s, d) && UniqueNames(s)
    requires 0 <= i < |Chain(s, d)| - 1 && 0 <= k < |SlotsAt(s.blk, Chain(s, d)[i])|
    requires Live(SlotsAt(s.blk, Chain(s, d)[i])[k])
    ensures var x := SlotsAt(s.blk, Chain(s, d)[i])[k].fname;
      Entry(s, d, x).Some? && EntryIn(s.blk, [LastBlock(s, d)], x) == None
  {
    DirBounds(s, d);
    assert ObjOk(s, d);
    var c := Chain(s, d);
    ChainDistinct(s.blk, d, c, i, |c| - 1);
    assert c[i] in c;
    assert UniqueIn(s.blk, c);
    hide Ok;
    FindsIt(s.blk, c, c[i], k);
    LookupInOne(s.blk, LastBlock(s, d), SlotsAt(s.blk, c[i])[k].fname);
  }

  /** The new entry in the first free slot is found first, and hides no other name. */
  lemma FilledSlot(slots: seq<Dirent>, e: Dirent, x: string)
    requires Live(e) && FreeSlot(slots, 0) < |slots| && !Seen(slots, e.fname)
    ensures FindSlot(slots[FreeSlot(slots, 0) := e], x, 0)
         == if x == e.fname then FreeSlot(slots, 0) else FindSlot(slots, x, 0)
  {
    var slots' := slots[FreeSlot(slots, 0) := e];
    if x != e.fname {
      FindSlotSame(slots, slots', x, 0);
    } else {
      assert Named(slots'[FreeSlot(slots, 0)], x);
      assert forall j :: 0 <= j < FreeSlot(slots, 0) ==> !Named(slots'[j], x);
    }
  }

  lemma FillLookup(s: Fs, d: int, name: string, flag: int, n: int, x: string)
    requires Ok(s) && IsDir(s, d) && flag in {1, 2} && FIRST <= n < |s.blk| && n !in s.used
    requires 0 <= LastBlock(s, d) < |s.blk| && 0 <= d < |s.blk| && FreeSlot(LastSlots(s, d), 0) < |LastSlots(s, d)|
    requires !Seen(LastSlots(s, d), name)
    ensures Entry(Fill(s, d, name, flag, n), d, x)
         == if x == name then Some(Dirent(name, 0, n, flag)) else EntryIn(s.blk, [LastBlock(s, d)], x)
  {
    hide Ok, FindSlot, EntryIn, FreeSlot, Seen, Fill;
    DirBounds(s, d);
    FreeIsNew(s, n);
    var s' := Fill(s, d, name, flag, n);
    var slots, e := LastSlots(s, d), Dirent(name, 0, n, flag);
    FillSlots(s, d, name, flag, n);
    LookupInOne(s'.blk, d, x);
    LookupInOne(s.blk, LastBlock(s, d), x);
    FilledSlot(slots, e, x);
  }

  lemma GrowLookup(s: Fs, d: int, name: string, flag: int, m: int, n: int, x: string)
    requires Ok(s) && IsDir(s, d) && flag in {1, 2}
    requires FIRST <= m < |s.blk| && m !in s.used && FIRST <= n < |s.blk| && n !in s.used && n != m
    requires 0 <= LastBlock(s, d) < |s.blk| && 0 <= d < |s.blk| && FreeSlot(LastSlots(s, d), 0) == |LastSlots(s, d)|
    requires !Seen(LastSlots(s, d), name)
    ensures Entry(Grow(s, d, name, flag, m, n), d, x)
         == if x == name then Some(Dirent(name, 0, n, flag)) else EntryIn(s.blk, [LastBlock(s, d)], x)
  {
    hide Ok, IsChain, FreeSlot, Grow, Seen, FindSlot, EntryIn;
    DirBounds(s, d);
    FreeIsNew(s, n);
    FreeIsNew(s, m);
    var s' := Grow(s, d, name, flag, m, n);
    GrowSlots(s, d, name, flag, m, n);
    OneEntryFinds(Dirent(name, 0, n, flag), x);
    LookupInTwo(s'.blk, d, m, x);
    LookupInOne(s'.blk, d, x);
    LookupInOne(s'.blk, m, x);
    LookupInOne(s.blk, LastBlock(s, d), x);
    FullShows(LastSlots(s, d), name);
  }

  lemma OneEntryFinds(e: Dirent, x: string)
    requires Live(e)
    ensures FindSlot(Fresh().slots[0 := e], x, 0) == if x == e.fname then 0 else SLOTS
  {
    if x != e.fname {
      FindSlotSame(Fresh().slots[0 := e], Fresh().slots, x, 0);
    }
  }

  /** The existence test sees every name in a full block. */
  lemma FullShows(slots: seq<Dirent>, name: string)
    requires FreeSlot(slots, 0) == |slots|
    ensures Seen(slots, name) <==> FindSlot(slots, name, 0) < |slots|
  {
  }

  lemma NewIsEmpty(s: Fs, blk': seq<Block>, d: int, m: Option<int>, n: int, isDir: bool, at: (int, int), x: string)
    requires Rewrites(s, blk', d, m, n)
    ensures Entry(Reshape(s, blk', d, m, n, isDir, at), n, x) == None
    ensures Chain(Reshape(s, blk', d, m, n, isDir, at), n) == [n]
  {
    var s' := Reshape(s, blk', d, m, n, isDir, at);
    assert Chain(s', n) == [n];
    LookupInOne(s'.blk, n, x);
  }

  // ---- op_create as a step of the tree

  /** Everything a successful insertion does, seen through lookups and contents. */
  ghost predicate Inserted(s: Fs, s': Fs, d: int, name: string, flag: int, n: int) {
    && FIRST <= n && n !in s.used && n !in s.objs && Chain(s', n) == [n] && s'.used >= s.used + {n}
    && Entry(s', d, name) == Some(Dirent(name, 0, n, flag))
    && (forall x :: Entry(s', n, x) == None)
    && (forall x :: x != name ==> Entry(s', d, x) == EntryIn(s.blk, [LastBlock(s, d)], x))
    && (forall o :: o in s.objs && o != d ==>
          Chain(s', o) == Chain(s, o) && Content(s'.blk, Chain(s, o)) == Content(s.blk, Chain(s, o)))
    && (forall o, x :: o in s.objs && o != d ==> Entry(s', o, x) == Entry(s, o, x))
  }

  lemma ReshapeOthers(s: Fs, blk': seq<Block>, d: int, m: Option<int>, n: int, isDir: bool, at: (int, int))
    requires Ok(s) && IsDir(s, d) && Rewrites(s, blk', d, m, n)
    ensures var s' := Reshape(s, blk', d, m, n, isDir, at);
      && (forall o :: o in s.objs && o != d ==>
            Chain(s', o) == Chain(s, o) && Content(s'.blk, Chain(s, o)) == Content(s.blk, Chain(s, o)))
      && (forall o, x :: o in s.objs && o != d ==> Entry(s', o, x) == Entry(s, o, x))
      && (forall x :: Entry(s', n, x) == None) && Chain(s', n) == [n] && s'.used >= s.used + {n}
  {
    hide Ok, Rewrites, EntryIn, Content, Moved;
    var s' := Reshape(s, blk', d, m, n, isDir, at);
    forall o | o in s.objs && o != d
      ensures Chain(s', o) == Chain(s, o) && Content(s'.blk, Chain(s, o)) == Content(s.blk, Chain(s, o))
      ensures forall x :: Entry(s', o, x) == Entry(s, o, x)
    {
      ReshapeOther(s, blk', d, m, n, isDir, at, o);
    }
    forall x ensures Entry(s', n, x) == None {
      NewIsEmpty(s, blk', d, m, n, isDir, at, x);
    }
  }

  lemma NotSeenInLast(s: Fs, d: int, name: string)
    requires Ok(s) && IsDir(s, d) && !Visible(s.blk, Chain(s, d), name)
    ensures !Seen(LastSlots(s, d), name)
  {
    DirBounds(s, d);
  }

  lemma FillEffect(s: Fs, d: int, name: string, flag: int, n: int)
    requires Ok(s) && IsDir(s, d) && flag in {1, 2} && !Seen(LastSlots(s, d), name)
    requires FIRST <= n < |s.blk| && n !in s.used
    requires 0 <= LastBlock(s, d) < |s.blk| && 0 <= d < |s.blk| && FreeSlot(LastSlots(s, d), 0) < |LastSlots(s, d)|
    ensures Inserted(s, Fill(s, d, name, flag, n), d, name, flag, n)
  {
    var s' := Fill(s, d, name, flag, n);
    FreeIsNew(s, n);
    FillRewrites(s, d, name, flag, n);
    ReshapeOthers(s, s'.blk, d, None, n, flag == 2, (d, FreeSlot(LastSlots(s, d), 0)));
    forall x
      ensures Entry(s', d, x) == if x == name then Some(Dirent(name, 0, n, flag))
          else EntryIn(s.blk, [LastBlock(s, d)], x)
    {
      FillLookup(s, d, name, flag, n, x);
    }
  }

  lemma GrowEffect(s: Fs, d: int, name: string, flag: int, m: int, n: int)
    requires Ok(s) && IsDir(s, d) && flag in {1, 2} && !Seen(LastSlots(s, d), name)
    requires FIRST <= m < |s.blk| && m !in s.used && FIRST <= n < |s.blk| && n !in s.used && n != m
    requires 0 <= LastBlock(s, d) < |s.blk| && 0 <= d < |s.blk| && FreeSlot(LastSlots(s, d), 0) == |LastSlots(s, d)|
    ensures Inserted(s, Grow(s, d, name, flag, m, n), d, name, flag, n)
  {
    var s' := Grow(s, d, name, flag, m, n);
    FreeIsNew(s, n);
    GrowRewrites(s, d, name, flag, m, n);
    ReshapeOthers(s, s'.blk, d, Some(m), n, flag == 2, (m, 0));
    forall x
      ensures Entry(s', d, x) == if x == name then Some(Dirent(name, 0, n, flag))
          else EntryIn(s.blk, [LastBlock(s, d)], x)
    {
      GrowLookup(s, d, name, flag, m, n, x);
    }
  }

  lemma InsertEffect(s: Fs, d: int, name: string, flag: int) returns (n: int)
    requires Ok(s) && IsDir(s, d) && flag in {1, 2}
    requires !Visible(s.blk, Chain(s, d), name) && Insert(s, d, name, flag).1 == 0
    ensures Inserted(s, Insert(s, d, name, flag).0, d, name, flag, n)
  {
    DirBounds(s, d);
    MaxOk(s);
    NotSeenInLast(s, d, name);
    hide Ok, Inserted, Visible, Seen, Fill, Grow, FreeSlot;
    var first := FreeBlk(s.used, s.max).value;
    if FreeSlot(LastSlots(s, d), 0) < SLOTS {
      n := first;
      FillEffect(s, d, name, flag, n);
    } else {
      n := FreeBlk(s.used + {first}, s.max).value;
      GrowEffect(s, d, name, flag, first, n);
    }
  }

  function EmptyNode(flag: int): Node {
    if flag == 2 then DirNode else FileNode(0, [])
  }

  lemma CreateEffect(s: Fs, path: seq<string>, flag: int) returns (n: int)
    requires Ok(s) && path != [] && flag in {1, 2} && Create(s, path, flag).1 == 0
    requires OnlyLastHolds(s, Resolve(s, Front(path)).value.start)
    ensures var d := Resolve(s, Front(path)).value.start;
      && Resolve(s, Front(path)).value.flag == 2 && IsDir(s, d)
      && Inserted(s, Create(s, path, flag).0, d, Last(path), flag, n)
      && OnlyEntry(s, Create(s, path, flag).0, d, Last(path))
  {
    var d, name, s' := Resolve(s, Front(path)).value.start, Last(path), Create(s, path, flag).0;
    ResolveMeans(s, Front(path));
    n := InsertEffect(s, d, name, flag);
    hide Ok, Create, Insert, EntryIn, IsDir;
    forall x | x != name ensures Entry(s', d, x) == Entry(s, d, x) {
      LookupLast(s, d, x);
    }
    DirsAreObjs(s);
  }

  /** When only the last block of the parent holds entries, creating a path that led nowhere
      adds exactly that path, as an empty file or directory. */
  lemma CreateAdds(s: Fs, path: seq<string>, flag: int)
    requires Ok(s) && path != [] && flag in {1, 2} && Resolve(s, path) == None
    requires Create(s, path, flag).1 == 0 && OnlyLastHolds(s, Resolve(s, Front(path)).value.start)
    ensures TreeOf(Create(s, path, flag).0) == TreeOf(s)[path := EmptyNode(flag)]
    ensures CreatedLocally(s, Create(s, path, flag).0, path)
  {
    var s' := Create(s, path, flag).0;
    var n := CreateEffect(s, path, flag);
    hide Ok, Create, EntryIn, IsDir;
    forall q | q != path && Resolve(s, q).Some?
      ensures NodeOf(s', Resolve(s, q).value) == NodeOf(s, Resolve(s, q).value)
      ensures Resolve(s, q).value.flag == 1 ==>
          Chain(s', Resolve(s, q).value.start) == Chain(s, Resolve(s, q).value.start)
    {
      ResolveMeans(s, q);
    }
    hide Entry, NodeOf;
    TreeStep(s, s', path);
  }

  /** Apart from the new path, which leads to an object of one block and size 0, every path
      leads where it led. */
  ghost predicate CreatedLocally(s: Fs, s': Fs, path: seq<string>) {
    && SameElsewhere(s, s', path)
    && Resolve(s', path).Some? && Resolve(s', path).value.fsize == 0 && |Chain(s', Resolve(s', path).value.start)| == 1
  }

  lemma DirsAreObjs(s: Fs)
    ensures forall o :: IsDir(s, o) ==> o in s.objs
  {
  }

  /** As written, creation is a one-path step of the tree exactly when no block of the
      parent but the last holds an entry; otherwise an entry of an earlier block is lost. */
  lemma CreateAddsExactly(s: Fs, path: seq<string>, flag: int)
    requires Ok(s) && UniqueNames(s) && path != [] && flag in {1, 2} && Resolve(s, path) == None
    requires Create(s, path, flag).1 == 0
    ensures TreeOf(Create(s, path, flag).0) == TreeOf(s)[path := EmptyNode(flag)]
       <==> OnlyLastHolds(s, Resolve(s, Front(path)).value.start)
  {
    var d, name, s' := Resolve(s, Front(path)).value.start, Last(path), Create(s, path, flag).0;
    ResolveMeans(s, Front(path));
    if OnlyLastHolds(s, d) {
      CreateAdds(s, path, flag);
    } else {
      var i, k :| 0 <= i < |Chain(s, d)| - 1 && 0 <= k < |SlotsAt(s.blk, Chain(s, d)[i])|
          && Live(SlotsAt(s.blk, Chain(s, d)[i])[k]);
      var x := SlotsAt(s.blk, Chain(s, d)[i])[k].fname;
      LookupMisses(s, d, i, k);
      var n := InsertEffect(s, d, name, flag);
      DirsAreObjs(s);
      LosesName(s, s', path, x, EmptyNode(flag));
    }
  }

  /** If the parent no longer answers for a name it answered for, the tree lost a path. */
  lemma LosesName(s: Fs, s': Fs, path: seq<string>, x: string, node: Node)
    requires Ok(s) && path != [] && Resolve(s, path) == None && Resolve(s, Front(path)).Some?
    requires Resolve(s, Front(path)).value.flag == 2
    requires Entry(s, Resolve(s, Front(path)).value.start, x).Some?
    requires Entry(s', Resolve(s, Front(path)).value.start, x) == None
    requires forall o, y ::
        IsDir(s, o) && o != Resolve(s, Front(path)).value.start ==> Entry(s', o, y) == Entry(s, o, y)
    ensures TreeOf(s') != TreeOf(s)[path := node]
  {
    hide Ok, Entry, NodeOf, TreeOf;
    ResolveOutside(s, s', Front(path), Front(path));
    var q := Front(path) + [x];
    assert Front(q) == Front(path) && Last(q) == x;
    TreeHas(s, q);
    TreeHas(s', q);
  }

  // ---- names stay unique exactly when the existence test did not miss one

  lemma OthersUnique(s: Fs, blk': seq<Block>, d: int, m: Option<int>, n: int, isDir: bool, at: (int, int))
    requires Ok(s) && IsDir(s, d) && Rewrites(s, blk', d, m, n) && UniqueNames(s)
    ensures var s' := Reshape(s, blk', d, m, n, isDir, at);
      forall o :: IsDir(s', o) && o != d ==> UniqueIn(s'.blk, Chain(s', o))
  {
    hide Ok, Rewrites, UniqueIn;
    var s' := Reshape(s, blk', d, m, n, isDir, at);
    forall o | IsDir(s', o) && o != d ensures UniqueIn(s'.blk, Chain(s', o)) {
      if o == n {
        FreshUnique(s, blk', d, m, n);
        assert Chain(s', o) == [n];
      } else {
        ReshapeOther(s, blk', d, m, n, isDir, at, o);
        assert UniqueIn(s.blk, Chain(s, o));
        UniqueSame(s.blk, s'.blk, Chain(s, o));
      }
    }
  }

  lemma FreshUnique(s: Fs, blk': seq<Block>, d: int, m: Option<int>, n: int)
    requires Rewrites(s, blk', d, m, n)
    ensures UniqueIn(blk', [n])
  {
  }

  lemma UniqueSame(blk: seq<Block>, blk': seq<Block>, c: seq<int>)
    requires UniqueIn(blk, c) && forall b :: b in c ==> SlotsAt(blk', b) == SlotsAt(blk, b)
    ensures UniqueIn(blk', c)
  {
  }

  /** One block's entries, with a new one in a free slot, carry different names exactly when
      none carried the new name. */
  lemma AddUnique(blk: seq<Block>, c: seq<int>, b: int, blk': seq<Block>, d: int, k: nat, e: Dirent)
    requires UniqueIn(blk, c) && b in c && k < |SlotsAt(blk, b)| && !Live(SlotsAt(blk, b)[k]) && Live(e)
    requires SlotsAt(blk', d) == SlotsAt(blk, b)[k := e]
    ensures UniqueIn(blk', [d]) <==> FindSlot(SlotsAt(blk, b), e.fname, 0) == |SlotsAt(blk, b)|
  {
    var slots := SlotsAt(blk, b);
    var l := FindSlot(slots, e.fname, 0);
    assert d in [d];
    if l < |slots| {
      assert l != k && Named(SlotsAt(blk', d)[l], SlotsAt(blk', d)[k].fname);
      assert !UniqueIn(blk', [d]);
    } else {
      assert forall j :: 0 <= j < |slots| ==> !Named(slots[j], e.fname);
    }
  }

  lemma FillUnique(s: Fs, d: int, name: string, flag: int, n: int)
    requires Ok(s) && IsDir(s, d) && UniqueNames(s) && flag in {1, 2} && !Seen(LastSlots(s, d), name)
    requires FIRST <= n < |s.blk| && n !in s.used
    requires 0 <= LastBlock(s, d) < |s.blk| && 0 <= d < |s.blk| && FreeSlot(LastSlots(s, d), 0) < |LastSlots(s, d)|
    ensures UniqueNames(Fill(s, d, name, flag, n)) <==> EntryIn(s.blk, [LastBlock(s, d)], name) == None
  {
    hide Ok, Rewrites, UniqueIn, FreeSlot, FindSlot;
    var s', slots, k := Fill(s, d, name, flag, n), LastSlots(s, d), FreeSlot(LastSlots(s, d), 0);
    FillRewrites(s, d, name, flag, n);
    OthersUnique(s, s'.blk, d, None, n, flag == 2, (d, k));
    DirBounds(s, d);
    FreeIsNew(s, n);
    LookupInOne(s.blk, LastBlock(s, d), name);
    assert UniqueIn(s.blk, Chain(s, d));
    assert Chain(s', d) == [d] && SlotsAt(s'.blk, d) == slots[k := Dirent(name, 0, n, flag)];
    AddUnique(s.blk, Chain(s, d), LastBlock(s, d), s'.blk, d, k, Dirent(name, 0, n, flag));
    assert IsDir(s', d);
  }

  lemma UniqueMoved(blk: seq<Block>, c: seq<int>, b: int, blk': seq<Block>, d: int)
    requires UniqueIn(blk, c) && b in c && SlotsAt(blk', d) == SlotsAt(blk, b)
    ensures UniqueIn(blk', [d])
  {
  }

  lemma UniqueTwo(blk: seq<Block>, d: int, m: int)
    requires UniqueIn(blk, [d])
    requires forall k :: 0 < k < |SlotsAt(blk, m)| ==> !Live(SlotsAt(blk, m)[k])
    requires |SlotsAt(blk, m)| > 0
    requires forall k :: 0 <= k < |SlotsAt(blk, d)| ==> !Named(SlotsAt(blk, d)[k], SlotsAt(blk, m)[0].fname)
    ensures UniqueIn(blk, [d, m])
  {
    assert d in [d];
  }

  lemma NotFound(slots: seq<Dirent>, name: string)
    requires FindSlot(slots, name, 0) == |slots|
    ensures forall k :: 0 <= k < |slots| ==> !Named(slots[k], name)
  {
  }

  lemma GrowUnique(s: Fs, d: int, name: string, flag: int, m: int, n: int)
    requires Ok(s) && IsDir(s, d) && UniqueNames(s) && flag in {1, 2} && !Seen(LastSlots(s, d), name)
    requires FIRST <= m < |s.blk| && m !in s.used && FIRST <= n < |s.blk| && n !in s.used && n != m
    requires 0 <= LastBlock(s, d) < |s.blk| && 0 <= d < |s.blk| && FreeSlot(LastSlots(s, d), 0) == |LastSlots(s, d)|
    ensures UniqueNames(Grow(s, d, name, flag, m, n)) && EntryIn(s.blk, [LastBlock(s, d)], name) == None
  {
    hide Ok, Rewrites, UniqueIn, Grow, Reshape, Seen, FindSlot, FreeSlot, EntryIn;
    var s', slots := Grow(s, d, name, flag, m, n), LastSlots(s, d);
    GrowRewrites(s, d, name, flag, m, n);
    DirBounds(s, d);
    FreeIsNew(s, n);
    FreeIsNew(s, m);
    GrowSlots(s, d, name, flag, m, n);
    OthersUnique(s, s'.blk, d, Some(m), n, flag == 2, (m, 0));
    LookupInOne(s.blk, LastBlock(s, d), name);
    FullShows(slots, name);
    NotFound(slots, name);
    assert UniqueIn(s.blk, Chain(s, d));
    UniqueMoved(s.blk, Chain(s, d), LastBlock(s, d), s'.blk, d);
    UniqueTwo(s'.blk, d, m);
  }

  /** As written, a successful creation keeps names unique exactly when the parent's last
      block did not hold the name already (behind a free slot, where the existence test does
      not look). */
  lemma CreateUniqueExactly(s: Fs, path: seq<string>, flag: int)
    requires Ok(s) && UniqueNames(s) && path != [] && flag in {1, 2} && Create(s, path, flag).1 == 0
    ensures UniqueNames(Create(s, path, flag).0)
       <==> EntryIn(s.blk, [LastBlock(s, Resolve(s, Front(path)).value.start)], Last(path)) == None
  {
    ResolveMeans(s, Front(path));
    var d := Resolve(s, Front(path)).value.start;
    DirBounds(s, d);
    MaxOk(s);
    NotSeenInLast(s, d, Last(path));
    hide Ok, UniqueNames, Visible, Seen, Fill, Grow, FreeSlot, EntryIn;
    var first := FreeBlk(s.used, s.max).value;
    if FreeSlot(LastSlots(s, d), 0) < SLOTS {
      FillUnique(s, d, Last(path), flag, first);
    } else {
      GrowUnique(s, d, Last(path), flag, first, FreeBlk(s.used + {first}, s.max).value);
    }
  }

  /** Live slots come before free ones in every block of the directory. */
  ghost predicate Packed(s: Fs, d: int) {
    forall b, j, k :: b in Chain(s, d) && 0 <= j < k < |SlotsAt(s.blk, b)| && Live(SlotsAt(s.blk, b)[k])
      ==> Live(SlotsAt(s.blk, b)[j])
  }

  /** The existence test never reports a name that is not there, and in a packed directory
      it misses none. */
  lemma VisibleMeans(s: Fs, d: int, name: string)
    requires Ok(s) && IsDir(s, d)
    ensures Visible(s.blk, Chain(s, d), name) ==> Entry(s, d, name).Some?
    ensures Packed(s, d) ==> (Visible(s.blk, Chain(s, d), name) <==> Entry(s, d, name).Some?)
  {
    hide Ok;
    var c := Chain(s, d);
    if i :| 0 <= i < |c| && Seen(SlotsAt(s.blk, c[i]), name) {
      assert c[i] in c;
      assert Named(SlotsAt(s.blk, c[i])[FindSlot(SlotsAt(s.blk, c[i]), name, 0)], name);
    }
    if Entry(s, d, name).Some? && Packed(s, d) {
      var (b, k) := FindIn(s.blk, c, name).value;
      var i :| 0 <= i < |c| && c[i] == b;
      assert FreeSlot(SlotsAt(s.blk, b), 0) > k;
      assert Seen(SlotsAt(s.blk, c[i]), name);
    }
  }

  /** Exactly which names it shows: those of entries with no free slot before them in their block. */
  lemma VisibleExactly(blk: seq<Block>, c: seq<int>, name: string)
    ensures Visible(blk, c, name) <==> exists i, k :: InFront(blk, c, i, k) && Named(SlotsAt(blk, c[i])[k], name)
  {
    hide Named, Live;
    if i :| 0 <= i < |c| && Seen(SlotsAt(blk, c[i]), name) {
      assert InFront(blk, c, i, FindSlot(SlotsAt(blk, c[i]), name, 0));
    }
    if i, k :| InFront(blk, c, i, k) && Named(SlotsAt(blk, c[i])[k], name) {
      NamedIsLive(SlotsAt(blk, c[i])[k], name);
      assert Seen(SlotsAt(blk, c[i]), name);
    }
  }

  ghost predicate InFront(blk: seq<Block>, c: seq<int>, i: int, k: int) {
    && 0 <= i < |c| && 0 <= k < |SlotsAt(blk, c[i])| && forall j :: 0 <= j < k ==> Live(SlotsAt(blk, c[i])[j])
  }

  lemma NamedIsLive(e: Dirent, name: string)
    ensures Named(e, name) ==> Live(e)
  {
  }

  /** A creation that succeeds does not repeat a name its parent's last block hides behind a
      free slot. */
  ghost predicate NotHidden(s: Fs, path: seq<string>, flag: int)
    requires Ok(s) && path != []
  {
    Create(s, path, flag).1 == 0 ==>
      EntryIn(s.blk, [LastBlock(s, Resolve(s, Front(path)).value.start)], Last(path)) == None
  }

  lemma PackedHidesNothing(s: Fs, path: seq<string>, flag: int)
    requires Ok(s) && path != []
    requires Resolve(s, Front(path)).Some? && Resolve(s, Front(path)).value.flag == 2 ==>
        Packed(s, Resolve(s, Front(path)).value.start)
    ensures NotHidden(s, path, flag)
  {
    if Create(s, path, flag).1 == 0 {
      ResolveMeans(s, Front(path));
      var d := Resolve(s, Front(path)).value.start;
      DirBounds(s, d);
      VisibleMeans(s, d, Last(path));
      hide Ok, Insert, Visible;
      LookupInOne(s.blk, LastBlock(s, d), Last(path));
    }
  }

  // ---- the reference

  /** mknod and mkdir on a tree of paths. */
  ghost function TreeCreate(t: imap<seq<string>, Node>, path: seq<string>, flag: int): (imap<seq<string>, Node>, int)
    requires path != []
  {
    if |Last(path)| > NAME_MAX then (t, -ENAMETOOLONG)
    else if Front(path) !in t then (t, -ENOENT)
    else if t[Front(path)] != DirNode then (t, -ENOTDIR)
    else if path in t then (t, -EEXIST)
    else (t[path := EmptyNode(flag)], 0)
  }

  /** Where op_create can be mknod or mkdir: it stops at a name it sees, or the name is not
      there and only the parent's last block holds entries. */
  ghost predicate CreateFits(s: Fs, path: seq<string>)
    requires path != []
  {
    var p := Resolve(s, Front(path));
    p.Some? && p.value.flag == 2 && |Last(path)| <= NAME_MAX ==>
      (var d := p.value.start;
       || Visible(s.blk, Chain(s, d), Last(path))
       || (Entry(s, d, Last(path)) == None && OnlyLastHolds(s, d)))
  }

  /** A packed parent whose last block holds all entries is such a place, for every name. */
  lemma PackedFits(s: Fs, path: seq<string>)
    requires Ok(s) && path != []
    requires Resolve(s, Front(path)).Some? && Resolve(s, Front(path)).value.flag == 2 ==>
      var d := Resolve(s, Front(path)).value.start; Packed(s, d) && OnlyLastHolds(s, d)
    ensures CreateFits(s, path)
  {
    hide Ok, Visible, Entry, OnlyLastHolds, Packed;
    var p := Resolve(s, Front(path));
    if p.Some? && p.value.flag == 2 {
      ResolveMeans(s, Front(path));
      VisibleMeans(s, p.value.start, Last(path));
    }
  }

  /** Unless it fails for want of space, op_create is then mknod or mkdir on the tree: same
      result, same tree. */
  lemma CreateRefines(s: Fs, path: seq<string>, flag: int)
    requires Ok(s) && path != [] && flag in {1, 2} && CreateFits(s, path)
    ensures var (s', r) := Create(s, path, flag);
      r != -1 ==> (TreeOf(s'), r) == TreeCreate(TreeOf(s), path, flag)
  {
    hide Ok, TreeOf, Visible, Entry, OnlyLastHolds, Packed, CreatedLocally;
    var p := Resolve(s, Front(path));
    TreeHas(s, Front(path));
    TreeHas(s, path);
    if p.Some? && p.value.flag == 2 {
      ResolveMeans(s, Front(path));
      VisibleMeans(s, p.value.start, Last(path));
      if Create(s, path, flag).1 == 0 {
        CreateAdds(s, path, flag);
      }
    }
  }

  /** And only then. */
  lemma CreateRefinesExactly(s: Fs, path: seq<string>, flag: int)
    requires Ok(s) && UniqueNames(s) && path != [] && flag in {1, 2} && Create(s, path, flag).1 != -1
    ensures var (s', r) := Create(s, path, flag);
      (TreeOf(s'), r) == TreeCreate(TreeOf(s), path, flag) <==> CreateFits(s, path)
  {
    hide Ok, UniqueNames, TreeOf, Visible, Entry, OnlyLastHolds, CreatedLocally, CreateFits;
    if CreateFits(s, path) {
      CreateRefines(s, path, flag);
    } else {
      UnfitReaches(s, path, flag);
      TreeHas(s, Front(path));
      TreeHas(s, path);
      ResolveMeans(s, Front(path));
      if Resolve(s, path) == None {
        CreateAddsExactly(s, path, flag);
      }
    }
  }

  lemma UnfitReaches(s: Fs, path: seq<string>, flag: int)
    requires Ok(s) && path != [] && Create(s, path, flag).1 != -1 && !CreateFits(s, path)
    ensures Resolve(s, Front(path)).Some? && Resolve(s, Front(path)).value.flag == 2 && |Last(path)| <= NAME_MAX
    ensures Create(s, path, flag).1 == 0
    ensures Resolve(s, path) == None ==> !OnlyLastHolds(s, Resolve(s, Front(path)).value.start)
  {
    ResolveMeans(s, Front(path));
    hide Ok, Visible, Entry, OnlyLastHolds;
  }

  /** It fails with -1 exactly when it asks for a block and every start is used, or, with the
      parent's last block full, all but one. */
  lemma CreateStarves(s: Fs, path: seq<string>, flag: int)
    requires Ok(s) && path != [] && flag in {1, 2}
    ensures Create(s, path, flag).1 == -1
       <==> (Asks(s, path) && DiskFull(s)) || LeavesHalf(s, path)
    ensures Create(s, path, flag).1 != 0 && !LeavesHalf(s, path) ==> Create(s, path, flag).0 == s
  {
    hide Ok, Visible, Insert, HalfGrows, DiskFull, Resolve;
    if Asks(s, path) {
      ResolveMeans(s, Front(path));
      InsertStarves(s, Resolve(s, Front(path)).value.start, Last(path), flag);
    }
  }

  lemma InsertStarves(s: Fs, d: int, name: string, flag: int)
    requires Ok(s) && IsDir(s, d)
    ensures Insert(s, d, name, flag).1 == -1 <==> DiskFull(s) || HalfGrows(s, d)
    ensures Insert(s, d, name, flag).1 != 0 && !HalfGrows(s, d) ==> Insert(s, d, name, flag).0 == s
  {
    hide Ok, Fill, Grow, FreeSlot, HalfGrown;
    DirBounds(s, d);
  }

  lemma TreeHas(s: Fs, p: seq<string>)
    ensures p in TreeOf(s) <==> Resolve(s, p).Some?
    ensures Resolve(s, p).Some? ==> (TreeOf(s)[p] == DirNode <==> Resolve(s, p).value.flag == 2)
  {
  }
}
