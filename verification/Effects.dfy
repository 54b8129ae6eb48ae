/** What creating, removing and changing an entry write, block by block, on every good disk. */
module Effects {
  import opened Paths
  import opened Runs
  import opened Disk
  import opened Tree
  import opened Creating
  import opened Removing
  import opened Walking

  // ---- op_create

  /** The search for one block finds the first free one. */
  lemma FreeBlkFirst(used: set<int>, max: nat)
    ensures var r := FreeBlk(used, max); r.Some? ==> forall b :: FIRST <= b < r.value ==> b in used
  {
    var r := Best(used, FIRST, max - 1, 1);
    if r.len >= 1 {
      forall b | FIRST <= b < r.start ensures b in used {
        assert RunLen(used, b, 1) < r.len;
      }
    }
  }

  /** Block x is the first free one. */
  ghost predicate FirstFreeBlock(used: set<int>, max: nat, x: int) {
    FIRST <= x < max - 1 && x !in used && forall b :: FIRST <= b < x ==> b in used
  }

  /** The entry of a new object of one block n, in slot k; the other slots as in `before`. */
  ghost predicate Enters(slots: seq<Dirent>, before: seq<Dirent>, k: int, name: string, n: int, flag: int) {
    && |slots| == |before| == SLOTS && 0 <= k < SLOTS && slots[k] == Dirent(name, 0, n, flag)
    && forall j :: 0 <= j < SLOTS && j != k ==> slots[j] == before[j]
  }

  /** The directory's first block holds what its last held, with the new entry in the first free
      slot, and leads nowhere; the object's block is the first free one, and zeroed. */
  ghost predicate FillsIn(s: Fs, s': Fs, d: int, name: string, flag: int, n: int) {
    && FirstFreeBlock(s.used, s.max, n) && s'.used == s.used + {n} && Chain(s', d) == [d]
    && 0 <= d < |s.blk| == |s'.blk| && 0 <= n < |s.blk| && n != d && s'.blk[n] == Fresh() && s'.blk[d].next == -1
    && (exists k :: Enters(s'.blk[d].slots, LastSlots(s, d), k, name, n, flag)
                    && !Live(LastSlots(s, d)[k]) && forall j :: 0 <= j < k ==> Live(LastSlots(s, d)[j]))
    && forall x :: 0 <= x < |s.blk| && x != d && x != n ==> s'.blk[x] == s.blk[x]
  }

  /** Its first block holds what its last, full one held, and leads to the first free block, which
      holds the new entry alone; the object's block is the next free one, and zeroed. */
  ghost predicate GrowsBy(s: Fs, s': Fs, d: int, name: string, flag: int, m: int, n: int) {
    && FirstFreeBlock(s.used, s.max, m) && FirstFreeBlock(s.used + {m}, s.max, n)
    && s'.used == s.used + {m, n} && Chain(s', d) == [d, m]
    && 0 <= d < |s.blk| == |s'.blk| && 0 <= m < |s.blk| && 0 <= n < |s.blk| && n != d && m != d && m != n
    && s'.blk[n] == Fresh() && s'.blk[d].next == m && s'.blk[m].next == -1
    && s'.blk[d].slots == LastSlots(s, d) && (forall j :: 0 <= j < |LastSlots(s, d)| ==> Live(LastSlots(s, d)[j]))
    && Enters(s'.blk[m].slots, Fresh().slots, 0, name, n, flag)
    && forall x :: 0 <= x < |s.blk| && x != d && x != m && x != n ==> s'.blk[x] == s.blk[x]
  }

  /** What a successful creation writes and marks. */
  lemma CreateWrites(s: Fs, path: seq<string>, flag: int)
    requires Ok(s) && path != [] && Create(s, path, flag).1 == 0
    ensures var d, s' := Resolve(s, Front(path)).value.start, Create(s, path, flag).0;
      || (exists n :: FillsIn(s, s', d, Last(path), flag, n))
      || (exists m, n :: GrowsBy(s, s', d, Last(path), flag, m, n))
  {
    hide Ok, Insert, Visible, FillsIn, GrowsBy;
    ResolveMeans(s, Front(path));
    InsertWrites(s, Resolve(s, Front(path)).value.start, Last(path), flag);
  }

  lemma InsertWrites(s: Fs, d: int, name: string, flag: int)
    requires Ok(s) && IsDir(s, d) && Insert(s, d, name, flag).1 == 0
    ensures var s' := Insert(s, d, name, flag).0;
      (exists n :: FillsIn(s, s', d, name, flag, n)) || (exists m, n :: GrowsBy(s, s', d, name, flag, m, n))
  {
    hide Ok, Fill, Grow, HalfGrown, FreeSlot, FillsIn, GrowsBy;
    DirBounds(s, d);
    MaxOk(s);
    var m := FreeBlk(s.used, s.max).value;
    FreeBlkFirst(s.used, s.max);
    FreeIsNew(s, m);
    if FreeSlot(LastSlots(s, d), 0) < SLOTS {
      FillWrites(s, d, name, flag, m);
    } else {
      FreeBlkFirst(s.used + {m}, s.max);
      var n := FreeBlk(s.used + {m}, s.max).value;
      FreeIsNew(s, n);
      GrowWrites(s, d, name, flag, m, n);
    }
  }

  lemma FillWrites(s: Fs, d: int, name: string, flag: int, n: int)
    requires 0 <= LastBlock(s, d) < |s.blk| && 0 <= d < |s.blk| && n != d && |LastSlots(s, d)| == SLOTS && n < |s.blk|
    requires s.blk[LastBlock(s, d)].next == -1 && FirstFreeBlock(s.used, s.max, n)
    requires FreeSlot(LastSlots(s, d), 0) < SLOTS
    ensures FillsIn(s, Fill(s, d, name, flag, n), d, name, flag, n)
  {
    hide Moved, Fresh, WithNumbers, WithName, FreeSlot;
    FillSlots(s, d, name, flag, n);
    FillUsed(s, d, name, flag, n);
    var k := FreeSlot(LastSlots(s, d), 0);
    assert Enters(Fill(s, d, name, flag, n).blk[d].slots, LastSlots(s, d), k, name, n, flag);
  }

  lemma GrowWrites(s: Fs, d: int, name: string, flag: int, m: int, n: int)
    requires 0 <= LastBlock(s, d) < |s.blk| && 0 <= d < |s.blk| && n != d && m != d && n != m
    requires |LastSlots(s, d)| == SLOTS
    requires n < |s.blk| && m < |s.blk| && FreeSlot(LastSlots(s, d), 0) == SLOTS
    requires FirstFreeBlock(s.used, s.max, m) && FirstFreeBlock(s.used + {m}, s.max, n)
    ensures GrowsBy(s, Grow(s, d, name, flag, m, n), d, name, flag, m, n)
  {
    hide Moved, WithNumbers, WithName, FreeSlot;
    GrowSlots(s, d, name, flag, m, n);
  }

  /** What a creation that leaves its parent half-grown writes and marks. */
  lemma HalfGrowthWrites(s: Fs, path: seq<string>, flag: int)
    requires Ok(s) && path != [] && LeavesHalf(s, path)
    ensures var d, (s', r) := Resolve(s, Front(path)).value.start, Create(s, path, flag);
      && r == -1 && 0 <= d < |s.blk| == |s'.blk|
      && s'.blk[d].slots == LastSlots(s, d)
      && (exists n :: FirstFreeBlock(s.used, s.max, n) && s'.used == s.used + {n} && s'.blk[d].next == n)
      && forall x :: 0 <= x < |s.blk| && x != d ==> s'.blk[x] == s.blk[x]
  {
    hide Ok, Visible, FreeSlot;
    var d := Resolve(s, Front(path)).value.start;
    ResolveMeans(s, Front(path));
    DirBounds(s, d);
    FreeBlkFirst(s.used, s.max);
    assert FirstFreeBlock(s.used, s.max, FreeBlk(s.used, s.max).value);
  }

  // ---- op_rm

  /** What a removal writes and marks: the object's blocks are given back and zeroed, its entry
      keeps its name and says unused, and every other block and entry is as it was. A removal that
      fails writes nothing. */
  lemma RemoveWrites(s: Fs, path: seq<string>, flag: int)
    requires Ok(s) && path != []
    ensures var (s', r) := Remove(s, path, flag);
      if r != 0 then s' == s else
        && Resolve(s, path).Some?
        && var e := Resolve(s, path).value; var c := Chain(s, e.start);
        && e.start in s.ref
        && var (b, k) := s.ref[e.start];
        && 0 <= b < |s.blk| == |s'.blk| && 0 <= k < |s.blk[b].slots| && s.blk[b].slots[k] == e && b !in c
        && s'.used == s.used - SetOf(c) && (forall x :: x in c ==> 0 <= x < |s.blk| && s'.blk[x] == Fresh())
        && s'.blk[b].next == s.blk[b].next && s'.blk[b].slots == s.blk[b].slots[k := Dirent(e.fname, 0, -1, 0)]
        && forall x :: 0 <= x < |s.blk| && x !in c && x != b ==> s'.blk[x] == s.blk[x]
  {
    hide Ok, Erase, EmptyChain, At;
    if Remove(s, path, flag).1 == 0 {
      var e, d := Resolve(s, path).value, Resolve(s, Front(path)).value.start;
      RemoveAt(s, path);
      AtApart(s, e.start, d, s.ref[e.start].0, s.ref[e.start].1);
      ChainIn(s, e.start);
      EraseWrites(s, e.start, s.ref[e.start].0, s.ref[e.start].1);
    }
  }

  lemma ChainIn(s: Fs, o: int)
    requires Ok(s)
    ensures forall x :: x in Chain(s, o) ==> 0 <= x < |s.blk|
  {
    forall x | x in Chain(s, o) ensures 0 <= x < |s.blk| {
      InChain(s, o, x);
    }
  }

  lemma EraseWrites(s: Fs, o: int, b: int, k: int)
    requires 0 <= b < |s.blk| && 0 <= k < |s.blk[b].slots| && b !in Chain(s, o)
    requires forall x :: x in Chain(s, o) ==> 0 <= x < |s.blk|
    ensures var s', c := Erase(s, o, b, k), Chain(s, o);
      && |s'.blk| == |s.blk| && s'.used == s.used - SetOf(c) && (forall x :: x in c ==> s'.blk[x] == Fresh())
      && s'.blk[b].next == s.blk[b].next
      && s'.blk[b].slots == s.blk[b].slots[k := Dirent(s.blk[b].slots[k].fname, 0, -1, 0)]
      && forall x :: 0 <= x < |s.blk| && x !in c && x != b ==> s'.blk[x] == s.blk[x]
  {
    hide Fresh, WithNumbers;
  }

  // ---- op_modify_attr

  /** On every good disk: the entry that the path leads to gets the new size, start and kind and
      keeps its name; every other entry and block is as it was. Where no entry is found nothing is
      written. */
  lemma ModifiedMeans(s: Fs, path: seq<string>, inode: Dirent)
    requires Ok(s) && path != [] && (Resolve(s, Front(path)).Some? ==> Resolve(s, Front(path)).value.flag == 2)
    ensures Resolve(s, path) == None ==> Modified(s, path, inode) == (s.blk, -ENOENT)
    ensures Resolve(s, path).Some? ==>
      var e, (blk', r) := Resolve(s, path).value, Modified(s, path, inode);
      && r == 0 && |blk'| == |s.blk| && e.start in s.ref
      && var (b, k) := s.ref[e.start];
      && 0 <= b < |s.blk| && 0 <= k < |s.blk[b].slots| && s.blk[b].slots[k] == e
      && blk'[b].next == s.blk[b].next
      && blk'[b].slots == s.blk[b].slots[k := Dirent(Last(path), inode.fsize, inode.start, inode.flag)]
      && forall x :: 0 <= x < |s.blk| && x != b ==> blk'[x] == s.blk[x]
  {
    hide Ok, WithNumbers, At;
    var p := Resolve(s, Front(path));
    if p.Some? {
      ResolveMeans(s, Front(path));
      if Resolve(s, path).Some? {
        RemoveAt(s, path);
        var e := Resolve(s, path).value;
        AtApart(s, e.start, p.value.start, s.ref[e.start].0, s.ref[e.start].1);
        EntryMeans(s, p.value.start, Last(path));
      }
    }
  }
}
