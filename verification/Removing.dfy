/** op_rm: freeing an object's chain and clearing its entry. */
module Removing {
  import opened Paths
  import opened Disk
  import opened Tree
  import opened Creating

  /** The blocks of a set, zeroed by init_new_blk. */
  function Zeroed(blk: seq<Block>, r: set<int>): (z: seq<Block>)
    ensures |z| == |blk|
    ensures forall b :: 0 <= b < |blk| ==> z[b] == if b in r then Fresh() else blk[b]
  {
    seq(|blk|, b requires 0 <= b < |blk| => if b in r then Fresh() else blk[b])
  }

  /** What op_modify_attr writes for a removed entry: the name stays, everything else says
      unused. */
  function Cleared(e: Dirent): Dirent {
    Dirent(e.fname, 0, -1, 0)
  }

  function ClearSlot(blk: seq<Block>, b: int, k: int): seq<Block> {
    ModifySlot(blk, b, k, Cleared(FREE_ENTRY))
  }

  /** Object o, whose entry is in slot k of block b, is gone. */
  function Erase(s: Fs, o: int, b: int, k: int): Fs {
    var c := SetOf(Chain(s, o));
    Fs(ClearSlot(Zeroed(s.blk, c), b, k), s.used - c, s.max, s.objs - {o}, s.home - c, s.ref - {o})
  }

  /** is_empty_dir: no slot of the chain is in use. */
  predicate EmptyChain(blk: seq<Block>, c: seq<int>) {
    forall i :: 0 <= i < |c| ==> AllFree(SlotsAt(blk, c[i]))
  }

  predicate AllFree(slots: seq<Dirent>) {
    forall k :: 0 <= k < |slots| ==> !Live(slots[k])
  }

  function Remove(s: Fs, path: seq<string>, flag: int): (Fs, int)
    requires Ok(s) && path != []
  {
    match Resolve(s, path)
    case None => (s, -ENOENT)
    case Some(e) =>
      if flag == 1 && e.flag == 2 then (s, -EISDIR)
      else if flag == 2 && e.flag == 1 then (s, -ENOTDIR)
      else if flag == 2 && !EmptyChain(s.blk, Chain(s, e.start)) then (s, -ENOTEMPTY)
      else
        EntryMeans(s, Resolve(s, Front(path)).value.start, Last(path));
        (Erase(s, e.start, s.ref[e.start].0, s.ref[e.start].1), 0)
  }

  // ---- structure

  /** o is an object other than the root, with its entry in slot k of block b of directory d. */
  ghost predicate At(s: Fs, o: int, d: int, b: int, k: int) {
    && o in s.objs && o != ROOT && o in s.ref && s.ref[o] == (b, k)
    && LiveAt(s, d, b, k) && SlotsAt(s.blk, b)[k].start == o
  }

  lemma AtApart(s: Fs, o: int, d: int, b: int, k: int)
    requires Ok(s) && At(s, o, d, b, k)
    ensures ROOT <= b < |s.blk| && 0 <= k < |s.blk[b].slots| && b in s.home && s.home[b].0 == d
    ensures d != o ==> b !in Chain(s, o)
    ensures forall p, x :: p in s.objs && p != o && x in Chain(s, p) ==> x !in Chain(s, o) && (x == b ==> p == d)
  {
    InChain(s, d, b);
    forall p, x | p in s.objs && p != o && x in Chain(s, p) ensures x !in Chain(s, o) && (x == b ==> p == d) {
      InChain(s, p, x);
      if x in Chain(s, o) {
        InChain(s, o, x);
      }
    }
  }

  /** A surviving object's blocks: everything but the cleared slot is as before. */
  lemma EraseBlock(s: Fs, o: int, d: int, b: int, k: int, p: int, x: int)
    requires Ok(s) && At(s, o, d, b, k) && d != o && p in s.objs && p != o && x in Chain(s, p)
    ensures var s' := Erase(s, o, b, k);
      && x !in Chain(s, o) && 0 <= x < |s.blk| == |s'.blk|
      && s'.blk[x].next == s.blk[x].next && |s'.blk[x].slots| == |s.blk[x].slots|
      && (forall j :: 0 <= j < |s.blk[x].slots| ==>
            s'.blk[x].slots[j] == if x == b && j == k then Cleared(s.blk[x].slots[j]) else s.blk[x].slots[j])
      && (p != d ==> s'.blk[x] == s.blk[x])
  {
    AtApart(s, o, d, b, k);
    InChain(s, p, x);
    hide Ok, At, Fresh, WithNumbers;
  }

  lemma EraseFrame(s: Fs, o: int, d: int, b: int, k: int, p: int)
    requires Ok(s) && At(s, o, d, b, k) && d != o && p in s.objs && p != o
    ensures var s', c := Erase(s, o, b, k), Chain(s, p);
      && ObjOk(s, p) && |s'.blk| == |s.blk| && (forall x :: x in c ==> x !in Chain(s, o))
      && (forall x :: x in c ==> s'.blk[x].next == s.blk[x].next)
      && (forall x :: x in c && p != d ==> DataAt(s'.blk, x) == DataAt(s.blk, x))
  {
    assert ObjOk(s, p);
    hide Ok, Erase, At;
    var s', c := Erase(s, o, b, k), Chain(s, p);
    forall x | x in c
      ensures 0 <= x < |s.blk| == |s'.blk| && s'.blk[x].next == s.blk[x].next && x !in Chain(s, o)
      ensures p != d ==> DataAt(s'.blk, x) == DataAt(s.blk, x)
    {
      EraseBlock(s, o, d, b, k, p, x);
    }
  }

  lemma EraseObj(s: Fs, o: int, d: int, b: int, k: int, p: int)
    requires Ok(s) && At(s, o, d, b, k) && d != o && p in s.objs && p != o
    ensures var s' := Erase(s, o, b, k);
      && ObjOk(s', p) && Chain(s', p) == Chain(s, p)
      && (p != d ==> Content(s'.blk, Chain(s, p)) == Content(s.blk, Chain(s, p)))
  {
    hide Ok, Zeroed, ClearSlot, At, IsChain, DataAt;
    EraseFrame(s, o, d, b, k, p);
    var s', c := Erase(s, o, b, k), Chain(s, p);
    ChainFrame(s.blk, s'.blk, p, c);
    if p != d {
      ContentFrame(s.blk, s'.blk, c);
    }
    forall i | 0 <= i < |c| ensures PlaceOk(s', p, i, c[i]) {
      assert PlaceOk(s, p, i, c[i]);
      assert c[i] in c;
    }
  }

  lemma SlotKept(s: Fs, o: int, b: int, k: int, e: Dirent, x: int, j: int)
    requires o in s.ref && s.ref[o] == (b, k) && SlotOk(s, e, x, j)
    ensures SlotOk(Erase(s, o, b, k), if x == b && j == k then Cleared(e) else e, x, j)
  {
    hide ClearSlot, Zeroed;
  }

  lemma EraseSlot(s: Fs, o: int, d: int, b: int, k: int, x: int, j: int)
    requires Ok(s) && At(s, o, d, b, k) && d != o
    requires DirBlock(Erase(s, o, b, k), x) && 0 <= j < |SlotsAt(Erase(s, o, b, k).blk, x)|
    ensures SlotOk(Erase(s, o, b, k), SlotsAt(Erase(s, o, b, k).blk, x)[j], x, j)
  {
    hide Ok, ClearSlot, Zeroed, SlotOk;
    var p := s.home[x].0;
    BlockOf(s, x);
    EraseSlots(s, o, d, b, k, p);
    DirSlot(s, x, j);
    SlotKept(s, o, b, k, SlotsAt(s.blk, x)[j], x, j);
  }

  lemma BlockOf(s: Fs, x: int)
    requires Ok(s) && x in s.home
    ensures s.home[x].0 in s.objs && x in Chain(s, s.home[x].0) && ROOT <= x < |s.blk|
  {
    assert HomeOk(s, x);
    InChain(s, s.home[x].0, x);
  }

  lemma DirSlot(s: Fs, x: int, j: int)
    requires Ok(s) && DirBlock(s, x) && 0 <= j < |SlotsAt(s.blk, x)|
    ensures SlotOk(s, SlotsAt(s.blk, x)[j], x, j)
  {
  }

  lemma EraseHome(s: Fs, o: int, d: int, b: int, k: int, x: int)
    requires Ok(s) && At(s, o, d, b, k) && x in Erase(s, o, b, k).home
    ensures HomeOk(Erase(s, o, b, k), x)
  {
    assert HomeOk(s, x);
  }

  lemma EraseOk(s: Fs, o: int, d: int, b: int, k: int)
    requires Ok(s) && At(s, o, d, b, k) && d != o
    ensures Ok(Erase(s, o, b, k))
  {
    var s' := Erase(s, o, b, k);
    AtApart(s, o, d, b, k);
    EraseWf(s, o, b, k);
    Basics(s);
    hide Ok, ObjOk, HomeOk, SlotOk, ClearSlot, Zeroed;
    forall p | p in s'.objs ensures ObjOk(s', p) {
      EraseObj(s, o, d, b, k, p);
    }
    forall x | x in s'.home ensures HomeOk(s', x) {
      EraseHome(s, o, d, b, k, x);
    }
    forall x, j | DirBlock(s', x) && 0 <= j < |SlotsAt(s'.blk, x)| ensures SlotOk(s', SlotsAt(s'.blk, x)[j], x, j) {
      EraseSlot(s, o, d, b, k, x, j);
    }
    OkFrom(s');
  }

  lemma EraseWf(s: Fs, o: int, b: int, k: int)
    requires Ok(s)
    ensures |Erase(s, o, b, k).blk| == |s.blk|
    ensures forall x :: 0 <= x < |s.blk| ==> WfBlock(Erase(s, o, b, k).blk[x])
  {
    AllWf(s);
    hide Ok;
  }

  lemma Basics(s: Fs)
    requires Ok(s)
    ensures ROOT < |s.blk| && s.max <= |s.blk| && IsDir(s, ROOT)
  {
  }

  /** The parts of the invariant, put together. */
  lemma OkFrom(s: Fs)
    requires ROOT < |s.blk| && s.max <= |s.blk| && IsDir(s, ROOT)
    requires forall b :: 0 <= b < |s.blk| ==> WfBlock(s.blk[b])
    requires forall o :: o in s.objs ==> ObjOk(s, o)
    requires forall b :: b in s.home ==> HomeOk(s, b)
    requires forall b, k :: DirBlock(s, b) && 0 <= k < |SlotsAt(s.blk, b)| ==> SlotOk(s, SlotsAt(s.blk, b)[k], b, k)
    ensures Ok(s)
  {
  }

  /** The removed object's entry, found from its path. */
  lemma RemoveAt(s: Fs, path: seq<string>)
    requires Ok(s) && path != [] && Resolve(s, path).Some?
    ensures var o, d := Resolve(s, path).value.start, Resolve(s, Front(path)).value.start;
      && o in s.ref && At(s, o, d, s.ref[o].0, s.ref[o].1) && d != o && IsDir(s, d)
      && SlotsAt(s.blk, s.ref[o].0)[s.ref[o].1] == Resolve(s, path).value && Resolve(s, path).value.fname == Last(path)
  {
    EntryMeans(s, Resolve(s, Front(path)).value.start, Last(path));
    ResolveMeans(s, Front(path));
    if Resolve(s, path).value.start == Resolve(s, Front(path)).value.start {
      SamePath(s, path, Front(path));
    }
  }

  /** op_rm keeps the structural invariant on every disk. */
  lemma RemoveOk(s: Fs, path: seq<string>, flag: int)
    requires Ok(s) && path != []
    ensures Ok(Remove(s, path, flag).0)
  {
    if Remove(s, path, flag).1 == 0 {
      RemoveAt(s, path);
      var o := Resolve(s, path).value.start;
      EraseOk(s, o, Resolve(s, Front(path)).value.start, s.ref[o].0, s.ref[o].1);
    }
  }

  // ---- lookups

  /** Lookups agree on disks whose slots along the chain agree on who carries the name. */
  lemma {:induction false} FindSame(blk: seq<Block>, blk': seq<Block>, c: seq<int>, name: string)
    requires forall b :: b in c ==> |SlotsAt(blk', b)| == |SlotsAt(blk, b)|
    requires forall b, j :: b in c && 0 <= j < |SlotsAt(blk, b)| ==>
        (Named(SlotsAt(blk, b)[j], name) <==> Named(SlotsAt(blk', b)[j], name))
    ensures FindIn(blk', c, name) == FindIn(blk, c, name)
    decreases |c|
  {
    if c != [] {
      assert c[0] in c;
      FindSlotSame(SlotsAt(blk, c[0]), SlotsAt(blk', c[0]), name, 0);
      FindSame(blk, blk', c[1..], name);
    }
  }

  /** The slots of directory p after the removal, seen through the lookup's eyes. */
  lemma EraseSlots(s: Fs, o: int, d: int, b: int, k: int, p: int)
    requires Ok(s) && At(s, o, d, b, k) && d != o && p in s.objs && p != o
    ensures var s' := Erase(s, o, b, k);
      && (forall x :: x in Chain(s, p) ==> |SlotsAt(s'.blk, x)| == |SlotsAt(s.blk, x)|)
      && forall x, j :: x in Chain(s, p) && 0 <= j < |SlotsAt(s.blk, x)| ==>
           SlotsAt(s'.blk, x)[j] == if x == b && j == k then Cleared(SlotsAt(s.blk, x)[j]) else SlotsAt(s.blk, x)[j]
  {
    forall x | x in Chain(s, p)
      ensures |SlotsAt(Erase(s, o, b, k).blk, x)| == |SlotsAt(s.blk, x)|
      ensures forall j :: 0 <= j < |SlotsAt(s.blk, x)| ==>
        SlotsAt(Erase(s, o, b, k).blk, x)[j] == if x == b && j == k then Cleared(SlotsAt(s.blk, x)[j])
          else SlotsAt(s.blk, x)[j]
    {
      EraseBlock(s, o, d, b, k, p, x);
    }
  }

  lemma EraseEntry(s: Fs, o: int, d: int, b: int, k: int, p: int, x: string)
    requires Ok(s) && At(s, o, d, b, k) && d != o && IsDir(s, p) && p != o
    requires p == d ==> x != SlotsAt(s.blk, b)[k].fname
    ensures Entry(Erase(s, o, b, k), p, x) == Entry(s, p, x)
  {
    hide Ok, ObjOk, Zeroed, ClearSlot;
    var s', c := Erase(s, o, b, k), Chain(s, p);
    AtApart(s, o, d, b, k);
    EraseSlots(s, o, d, b, k, p);
    EraseObj(s, o, d, b, k, p);
    FindSame(s.blk, s'.blk, c, x);
  }

  lemma EraseEntryGone(s: Fs, o: int, d: int, b: int, k: int)
    requires Ok(s) && At(s, o, d, b, k) && d != o && UniqueIn(s.blk, Chain(s, d))
    ensures Entry(Erase(s, o, b, k), d, SlotsAt(s.blk, b)[k].fname) == None
  {
    var s', c, x := Erase(s, o, b, k), Chain(s, d), SlotsAt(s.blk, b)[k].fname;
    EraseSlots(s, o, d, b, k, d);
    EraseObj(s, o, d, b, k, d);
    hide Ok, ObjOk, Zeroed, ClearSlot;
    forall b', j | b' in c && 0 <= j < |SlotsAt(s.blk, b')| ensures !Named(SlotsAt(s'.blk, b')[j], x) {
      assert Named(SlotsAt(s.blk, b')[j], x) ==> b' == b && j == k;
    }
  }

  lemma EmptyMeans(s: Fs, o: int)
    ensures EmptyChain(s.blk, Chain(s, o)) ==> forall x :: Entry(s, o, x) == None
    ensures IsDir(s, o) && (forall x :: Entry(s, o, x) == None) ==> EmptyChain(s.blk, Chain(s, o))
  {
    var c := Chain(s, o);
    if EmptyChain(s.blk, c) {
      forall b, k | b in c && 0 <= k < |SlotsAt(s.blk, b)| ensures !Live(SlotsAt(s.blk, b)[k]) {
        var i :| 0 <= i < |c| && c[i] == b;
        assert AllFree(SlotsAt(s.blk, c[i]));
      }
    }
    if IsDir(s, o) && forall x :: Entry(s, o, x) == None {
      forall i, k | 0 <= i < |c| && 0 <= k < |SlotsAt(s.blk, c[i])| ensures !Live(SlotsAt(s.blk, c[i])[k]) {
        assert Entry(s, o, SlotsAt(s.blk, c[i])[k].fname) == None;
        assert c[i] in c;
      }
    }
  }

  lemma UniqueHere(s: Fs, d: int)
    requires UniqueNames(s) && IsDir(s, d)
    ensures UniqueIn(s.blk, Chain(s, d))
  {
  }

  /** A successful removal takes exactly its path out of the tree, and gives exactly the
      removed object's blocks back. */
  lemma RemoveDrops(s: Fs, path: seq<string>, flag: int)
    requires Ok(s) && UniqueNames(s) && path != [] && flag in {1, 2} && Remove(s, path, flag).1 == 0
    ensures TreeOf(Remove(s, path, flag).0) == TreeOf(s) - {path}
    ensures Remove(s, path, flag).0.used == s.used - SetOf(Chain(s, Resolve(s, path).value.start))
    ensures SameElsewhere(s, Remove(s, path, flag).0, path)
  {
    hide Ok, Erase, UniqueNames, EmptyChain, At, Entry, Content, UniqueIn;
    var e, d := Resolve(s, path).value, Resolve(s, Front(path)).value.start;
    RemoveAt(s, path);
    ResolveMeans(s, path);
    var o, s' := e.start, Remove(s, path, flag).0;
    var (b, k) := s.ref[o];
    EmptyMeans(s, o);
    UniqueHere(s, d);
    forall p, x | IsDir(s, p) && (p != d || x != Last(path)) ensures Entry(s', p, x) == Entry(s, p, x) {
      if p != o {
        EraseEntry(s, o, d, b, k, p, x);
      } else {
        NoObject(s, o, b, k, x);
      }
    }
    EraseEntryGone(s, o, d, b, k);
    forall q | q != path && Resolve(s, q).Some?
      ensures NodeOf(s', Resolve(s, q).value) == NodeOf(s, Resolve(s, q).value)
      ensures Chain(s', Resolve(s, q).value.start) == Chain(s, Resolve(s, q).value.start)
    {
      ResolveMeans(s, q);
      if Resolve(s, q).value.start == o {
        SamePath(s, q, path);
      }
      EraseObj(s, o, d, b, k, Resolve(s, q).value.start);
    }
    TreeStep(s, s', path);
    EraseUsed(s, o, b, k);
  }

  lemma NoObject(s: Fs, o: int, b: int, k: int, x: string)
    ensures Entry(Erase(s, o, b, k), o, x) == None
  {
  }

  lemma EraseUsed(s: Fs, o: int, b: int, k: int)
    ensures Erase(s, o, b, k).used == s.used - SetOf(Chain(s, o))
  {
  }

  lemma RemoveUnique(s: Fs, path: seq<string>, flag: int)
    requires Ok(s) && UniqueNames(s) && path != []
    ensures UniqueNames(Remove(s, path, flag).0)
  {
    hide Ok, Erase, UniqueNames, At;
    if Remove(s, path, flag).1 == 0 {
      var o, d := Resolve(s, path).value.start, Resolve(s, Front(path)).value.start;
      RemoveAt(s, path);
      EraseUnique(s, o, d, s.ref[o].0, s.ref[o].1);
    }
  }

  lemma EraseUnique(s: Fs, o: int, d: int, b: int, k: int)
    requires Ok(s) && UniqueNames(s) && At(s, o, d, b, k) && d != o
    ensures UniqueNames(Erase(s, o, b, k))
  {
    hide Ok, At, UniqueIn, ObjOk;
    var s' := Erase(s, o, b, k);
    forall p | IsDir(s', p) ensures UniqueIn(s'.blk, Chain(s', p)) {
      assert p in s.objs && p != o && IsDir(s, p);
      EraseSlots(s, o, d, b, k, p);
      ClearedUnique(s.blk, s'.blk, Chain(s, p), b, k);
    }
  }

  lemma ClearedUnique(blk: seq<Block>, blk': seq<Block>, c: seq<int>, b: int, k: int)
    requires UniqueIn(blk, c) && forall x :: x in c ==> |SlotsAt(blk', x)| == |SlotsAt(blk, x)|
    requires forall x, j :: x in c && 0 <= j < |SlotsAt(blk, x)| ==>
      SlotsAt(blk', x)[j] == if x == b && j == k then Cleared(SlotsAt(blk, x)[j]) else SlotsAt(blk, x)[j]
    ensures UniqueIn(blk', c)
  {
  }

  // ---- the reference

  /** unlink (flag 1) and rmdir (flag 2) on a tree of paths. */
  ghost function TreeRemove(t: imap<seq<string>, Node>, path: seq<string>, flag: int): (imap<seq<string>, Node>, int) {
    if path !in t then (t, -ENOENT)
    else if flag == 1 && t[path] == DirNode then (t, -EISDIR)
    else if flag == 2 && t[path] != DirNode then (t, -ENOTDIR)
    else if flag == 2 && exists x :: path + [x] in t then (t, -ENOTEMPTY)
    else (t - {path}, 0)
  }

  lemma ChildInTree(s: Fs, path: seq<string>, x: string)
    requires Resolve(s, path).Some? && Resolve(s, path).value.flag == 2
    ensures path + [x] in TreeOf(s) <==> Entry(s, Resolve(s, path).value.start, x).Some?
  {
    assert Front(path + [x]) == path && Last(path + [x]) == x;
  }

  /** op_rm is unlink or rmdir on the tree: same result, same tree, on every disk with unique
      names. */
  lemma RemoveRefines(s: Fs, path: seq<string>, flag: int)
    requires Ok(s) && UniqueNames(s) && path != [] && flag in {1, 2}
    ensures var (s', r) := Remove(s, path, flag); (TreeOf(s'), r) == TreeRemove(TreeOf(s), path, flag)
  {
    var e := Resolve(s, path);
    assert path in TreeOf(s) <==> e.Some?;
    if e.Some? {
      ResolveMeans(s, path);
      assert TreeOf(s)[path] == DirNode <==> e.value.flag == 2;
      if e.value.flag == 2 {
        forall x ensures path + [x] in TreeOf(s) <==> Entry(s, e.value.start, x).Some? {
          ChildInTree(s, path, x);
        }
        EmptyMeans(s, e.value.start);
      }
      if Remove(s, path, flag).1 == 0 {
        RemoveDrops(s, path, flag);
      }
    }
    hide Ok, TreeOf, UniqueNames, Entry, EmptyChain, Erase;
  }

  /** The parent of the path is a one-block directory with a free slot. */
  ghost predicate HasRoom(s: Fs, path: seq<string>)
    requires path != []
  {
    && Resolve(s, Front(path)).Some?
    && var d := Resolve(s, Front(path)).value.start;
       |Chain(s, d)| == 1 && FreeSlot(LastSlots(s, d), 0) < |LastSlots(s, d)|
  }

  /** After a creation in a free slot the path opens as an empty object whose only block is
      the first free one. */
  lemma CreatedOpens(s: Fs, path: seq<string>, flag: int)
    requires Ok(s) && path != [] && flag in {1, 2} && Create(s, path, flag).1 == 0 && HasRoom(s, path)
    ensures var n := FreeBlk(s.used, s.max);
      && n.Some? && Resolve(Create(s, path, flag).0, path) == Some(Dirent(Last(path), 0, n.value, flag))
      && Chain(Create(s, path, flag).0, n.value) == [n.value]
      && Create(s, path, flag).0.used == s.used + {n.value}
      && forall x :: Entry(Create(s, path, flag).0, n.value, x) == None
  {
    hide Ok, Visible, Fill, EntryIn, FreeSlot, Seen, Grow;
    var d, s1 := Resolve(s, Front(path)).value.start, Create(s, path, flag).0;
    ResolveMeans(s, Front(path));
    DirBounds(s, d);
    MaxOk(s);
    var n := FreeBlk(s.used, s.max).value;
    NotSeenInLast(s, d, Last(path));
    FillEffect(s, d, Last(path), flag, n);
    assert s1 == Fill(s, d, Last(path), flag, n);
    FillUsed(s, d, Last(path), flag, n);
    DirsAreObjs(s);
    ResolveOutside(s, s1, Front(path), Front(path));
  }

  lemma FillUsed(s: Fs, d: int, name: string, flag: int, n: int)
    requires 0 <= LastBlock(s, d) < |s.blk| && 0 <= d < |s.blk| && 0 <= n < |s.blk|
    requires FreeSlot(LastSlots(s, d), 0) < |LastSlots(s, d)|
    ensures Fill(s, d, name, flag, n).used == s.used + {n}
  {
    hide Moved, FreeSlot;
  }

  /** Creating a path there and removing it again restores the bitmap and the tree. */
  lemma CreateThenRemove(s: Fs, path: seq<string>, flag: int)
    requires Ok(s) && UniqueNames(s) && path != [] && flag in {1, 2} && Resolve(s, path) == None
    requires Create(s, path, flag).1 == 0 && HasRoom(s, path)
    ensures Ok(Create(s, path, flag).0)
    ensures var (s2, r) := Remove(Create(s, path, flag).0, path, flag);
      r == 0 && s2.used == s.used && TreeOf(s2) == TreeOf(s)
  {
    hide Ok, UniqueNames, TreeOf, EmptyChain, CreatedLocally, SameElsewhere, OnlyLastHolds, EntryIn, Insert, Visible;
    hide FreeSlot;
    var d, s1 := Resolve(s, Front(path)).value.start, Create(s, path, flag).0;
    OneBlock(s, path, flag);
    CreateOk(s, path, flag);
    CreateAdds(s, path, flag);
    CreateUniqueExactly(s, path, flag);
    CreatedOpens(s, path, flag);
    EmptyMeans(s1, FreeBlk(s.used, s.max).value);
    ResolveMeans(s1, path);
    hide Create;
    RemoveDrops(s1, path, flag);
    PutBack(TreeOf(s), path, EmptyNode(flag));
    NotInTree(s, path);
  }

  lemma OneBlock(s: Fs, path: seq<string>, flag: int)
    requires Ok(s) && path != [] && Resolve(s, path) == None && Create(s, path, flag).1 == 0 && HasRoom(s, path)
    ensures var d := Resolve(s, Front(path)).value.start;
      OnlyLastHolds(s, d) && EntryIn(s.blk, [LastBlock(s, d)], Last(path)) == None && !HalfGrows(s, d)
  {
    var d := Resolve(s, Front(path)).value.start;
    ResolveMeans(s, Front(path));
    DirBounds(s, d);
    assert Chain(s, d) == [LastBlock(s, d)];
  }

  lemma NotInTree(s: Fs, path: seq<string>)
    ensures path in TreeOf(s) <==> Resolve(s, path).Some?
  {
  }

  lemma PutBack<K, V>(t: imap<K, V>, k: K, v: V)
    ensures k !in t ==> t[k := v] - {k} == t
  {
  }
}
