/** The file system as a whole: which objects (files and directories) the disk holds, the
    invariant that keeps their chains apart, and the tree of paths the disk stands for. */
module Tree {
  import opened Paths
  import opened Disk

  /** A file or directory, known by its first block. */
  datatype Obj = Obj(isDir: bool, chain: seq<int>)

  /** blk, used and max are the disk. objs lists the objects on it, home says of which
      object and where in its chain a block is, ref in which slot an object's entry is. */
  datatype Fs = Fs(blk: seq<Block>, used: set<int>, max: nat,
                   objs: map<int, Obj>, home: map<int, (int, int)>, ref: map<int, (int, int)>)

  predicate IsDir(s: Fs, o: int) {
    o in s.objs && s.objs[o].isDir
  }

  function Chain(s: Fs, o: int): seq<int> {
    if o in s.objs then s.objs[o].chain else []
  }

  ghost predicate PlaceOk(s: Fs, o: int, i: int, b: int) {
    ROOT <= b && (b != ROOT ==> b in s.used) && b in s.home && s.home[b] == (o, i)
  }

  ghost predicate ObjOk(s: Fs, o: int) {
    var c := Chain(s, o);
    && |c| > 0 && c[0] == o && IsChain(s.blk, o, c)
    && forall i :: 0 <= i < |c| ==> PlaceOk(s, o, i, c[i])
  }

  ghost predicate HomeOk(s: Fs, b: int)
    requires b in s.home
  {
    var (o, i) := s.home[b];
    o in s.objs && 0 <= i < |Chain(s, o)| && Chain(s, o)[i] == b
  }

  predicate DirBlock(s: Fs, b: int) {
    b in s.home && IsDir(s, s.home[b].0)
  }

  ghost predicate SlotOk(s: Fs, e: Dirent, b: int, k: int) {
    && 0 <= e.flag <= 2
    && (Live(e) ==>
        && |e.fname| <= NAME_MAX
        && e.start in s.objs && e.start != ROOT && (s.objs[e.start].isDir <==> e.flag == 2)
        && e.start in s.ref && s.ref[e.start] == (b, k))
  }

  /** The structural invariant. */
  ghost predicate Ok(s: Fs) {
    && ROOT < |s.blk| && s.max <= |s.blk|
    && (forall b :: 0 <= b < |s.blk| ==> WfBlock(s.blk[b]))
    && IsDir(s, ROOT)
    && (forall o :: o in s.objs ==> ObjOk(s, o))
    && (forall b :: b in s.home ==> HomeOk(s, b))
    && (forall b, k :: DirBlock(s, b) && 0 <= k < |SlotsAt(s.blk, b)| ==> SlotOk(s, SlotsAt(s.blk, b)[k], b, k))
  }

  // ---- what the invariant says about the disk

  /** The safety property in the disk's own terms: every object's chain ends in -1 without
      a repetition, lies at or above the root block, is marked used from block 9 on, and
      shares no block with another object's chain; every live entry of a directory points
      to such an object, and no two live entries to the same one. */
  ghost predicate Safe(s: Fs) {
    && (forall o :: o in s.objs ==> IsChain(s.blk, o, Chain(s, o)) && Chain(s, o) != [])
    && (forall o, i, j :: o in s.objs && 0 <= i < j < |Chain(s, o)| ==> Chain(s, o)[i] != Chain(s, o)[j])
    && (forall o, i :: o in s.objs && 0 <= i < |Chain(s, o)| ==>
          ROOT <= Chain(s, o)[i] && (FIRST <= Chain(s, o)[i] ==> Chain(s, o)[i] in s.used))
    && (forall o, p, b :: o in s.objs && p in s.objs && b in Chain(s, o) && b in Chain(s, p) ==> o == p)
    && (forall o, b, k :: LiveAt(s, o, b, k) ==> SlotsAt(s.blk, b)[k].start in s.objs)
    && (forall o, b, k, p, d, l :: LiveAt(s, o, b, k) && LiveAt(s, p, d, l) ==>
          SlotsAt(s.blk, b)[k].start == SlotsAt(s.blk, d)[l].start ==> (o, b, k) == (p, d, l))
  }

  /** Slot k of block b, in directory o, is in use. */
  ghost predicate LiveAt(s: Fs, o: int, b: int, k: int) {
    IsDir(s, o) && b in Chain(s, o) && 0 <= k < |SlotsAt(s.blk, b)| && Live(SlotsAt(s.blk, b)[k])
  }

  lemma InChain(s: Fs, o: int, b: int)
    requires Ok(s) && b in Chain(s, o)
    ensures o in s.objs && b in s.home && s.home[b].0 == o
    ensures ROOT <= b < |s.blk| && (b != ROOT ==> b in s.used)
  {
    assert ObjOk(s, o);
    var i :| 0 <= i < |Chain(s, o)| && Chain(s, o)[i] == b;
    assert PlaceOk(s, o, i, b);
  }

  lemma OkIsSafe(s: Fs)
    requires Ok(s)
    ensures Safe(s)
  {
    forall o, i, j | o in s.objs && 0 <= i < j < |Chain(s, o)| ensures Chain(s, o)[i] != Chain(s, o)[j] {
      assert ObjOk(s, o);
      ChainDistinct(s.blk, o, Chain(s, o), i, j);
    }
    forall o, i | o in s.objs && 0 <= i < |Chain(s, o)|
      ensures ROOT <= Chain(s, o)[i] && (FIRST <= Chain(s, o)[i] ==> Chain(s, o)[i] in s.used)
    {
      InChain(s, o, Chain(s, o)[i]);
    }
    forall o, p, b | o in s.objs && p in s.objs && b in Chain(s, o) && b in Chain(s, p) ensures o == p {
      InChain(s, o, b);
      InChain(s, p, b);
    }
    forall o, b, k | LiveAt(s, o, b, k)
      ensures SlotsAt(s.blk, b)[k].start in s.objs && s.ref[SlotsAt(s.blk, b)[k].start] == (b, k)
    {
      LiveSlot(s, o, b, k);
    }
    forall o, b, k, p, d, l | LiveAt(s, o, b, k) && LiveAt(s, p, d, l)
      && SlotsAt(s.blk, b)[k].start == SlotsAt(s.blk, d)[l].start
      ensures (o, b, k) == (p, d, l)
    {
      LiveSlot(s, o, b, k);
      LiveSlot(s, p, d, l);
    }
  }

  lemma LiveSlot(s: Fs, o: int, b: int, k: int)
    requires Ok(s) && LiveAt(s, o, b, k)
    ensures SlotOk(s, SlotsAt(s.blk, b)[k], b, k) && b in s.home && s.home[b].0 == o
  {
    InChain(s, o, b);
    assert DirBlock(s, b);
  }

  // ---- paths

  const ROOT_ENTRY := Dirent("", 0, ROOT, 2)

  function Front(path: seq<string>): seq<string>
    requires path != []
  {
    path[..|path| - 1]
  }

  function Last(path: seq<string>): string
    requires path != []
  {
    path[|path| - 1]
  }

  /** The entry a directory gives for a name. */
  function Entry(s: Fs, d: int, name: string): Option<Dirent> {
    if IsDir(s, d) then EntryIn(s.blk, Chain(s, d), name) else None
  }

  /** What a path leads to: the parent's answer, then one lookup in it. */
  function Resolve(s: Fs, path: seq<string>): Option<Dirent>
    decreases |path|
  {
    if path == [] then Some(ROOT_ENTRY) else
      match Resolve(s, Front(path))
      case None => None
      case Some(e) => if e.flag == 2 then Entry(s, e.start, Last(path)) else None
  }

  lemma EntryMeans(s: Fs, d: int, name: string)
    requires Ok(s) && Entry(s, d, name).Some?
    ensures var e := Entry(s, d, name).value;
      && Named(e, name) && |name| <= NAME_MAX && e.flag in {1, 2}
      && e.start in s.objs && e.start != ROOT && (IsDir(s, e.start) <==> e.flag == 2)
      && e.start in s.ref
      && var (b, k) := s.ref[e.start];
         FindIn(s.blk, Chain(s, d), name) == Some((b, k)) && LiveAt(s, d, b, k) && SlotsAt(s.blk, b)[k] == e
  {
    var (b, k) := FindIn(s.blk, Chain(s, d), name).value;
    LiveSlot(s, d, b, k);
  }

  lemma {:induction false} ResolveMeans(s: Fs, path: seq<string>)
    requires Ok(s) && Resolve(s, path).Some?
    ensures var e := Resolve(s, path).value;
      e.start in s.objs && e.flag in {1, 2} && (IsDir(s, e.start) <==> e.flag == 2) && (path != [] <==> e.start != ROOT)
  {
    if path != [] {
      EntryMeans(s, Resolve(s, Front(path)).value.start, Last(path));
    }
  }

  lemma SameEntry(s: Fs, d: int, x: string, f: int, y: string)
    requires Ok(s) && Entry(s, d, x).Some? && Entry(s, f, y).Some?
    requires Entry(s, d, x).value.start == Entry(s, f, y).value.start
    ensures d == f && x == y
  {
    EntryMeans(s, d, x);
    EntryMeans(s, f, y);
    var (b, k) := s.ref[Entry(s, d, x).value.start];
    LiveSlot(s, d, b, k);
    LiveSlot(s, f, b, k);
  }

  /** The directory is a tree: an object is reached by at most one path. */
  lemma {:induction false} SamePath(s: Fs, p: seq<string>, q: seq<string>)
    requires Ok(s) && Resolve(s, p).Some? && Resolve(s, q).Some?
    requires Resolve(s, p).value.start == Resolve(s, q).value.start
    ensures p == q
    decreases |p|
  {
    hide Ok, Entry;
    ResolveMeans(s, p);
    ResolveMeans(s, q);
    if p != [] && q != [] {
      SameEntry(s, Resolve(s, Front(p)).value.start, Last(p), Resolve(s, Front(q)).value.start, Last(q));
      SamePath(s, Front(p), Front(q));
      assert p == Front(p) + [Last(p)] && q == Front(q) + [Last(q)];
    }
  }

  /** Below a path that leads nowhere, or to something without entries, there is nothing. */
  lemma {:induction false} NothingBelow(s: Fs, p: seq<string>, q: seq<string>)
    requires p <= q && p != q
    requires Resolve(s, p).None? || Resolve(s, p).value.flag != 2
          || forall x :: Entry(s, Resolve(s, p).value.start, x) == None
    ensures Resolve(s, q) == None
    decreases |q|
  {
    var q' := q[..|q| - 1];
    assert p <= q';
    if p != q' {
      NothingBelow(s, p, q');
    }
  }

  /** From s to s' only what directory d answers for one name may change. */
  ghost predicate OnlyEntry(s: Fs, s': Fs, d: int, name: string) {
    forall o, x :: IsDir(s, o) && (o != d || x != name) ==> Entry(s', o, x) == Entry(s, o, x)
  }

  /** Such a step leaves every path that does not go through that name alone. */
  lemma {:induction false} ResolveExcept(s: Fs, s': Fs, path: seq<string>, q: seq<string>)
    requires Ok(s) && path != [] && Resolve(s, Front(path)).Some?
    requires OnlyEntry(s, s', Resolve(s, Front(path)).value.start, Last(path))
    requires !(path <= q)
    ensures Resolve(s', q) == Resolve(s, q)
    decreases |q|
  {
    hide Ok, Entry;
    if q != [] {
      assert q == Front(q) + [Last(q)] && path == Front(path) + [Last(path)];
      assert path <= Front(q) ==> path <= q;
      ResolveExcept(s, s', path, Front(q));
      var r := Resolve(s, Front(q));
      if r.Some? && r.value.flag == 2 {
        ResolveMeans(s, Front(q));
        if r.value.start == Resolve(s, Front(path)).value.start && Last(q) == Last(path) {
          SamePath(s, Front(q), Front(path));
        }
      }
    }
  }

  /** A step that changes the answers of one directory only leaves every path alone that
      does not lead below that directory. */
  lemma {:induction false} ResolveOutside(s: Fs, s': Fs, dir: seq<string>, q: seq<string>)
    requires Ok(s) && Resolve(s, dir).Some?
    requires forall o, x :: IsDir(s, o) && o != Resolve(s, dir).value.start ==> Entry(s', o, x) == Entry(s, o, x)
    requires !(dir <= q && dir != q)
    ensures Resolve(s', q) == Resolve(s, q)
    decreases |q|
  {
    hide Ok, Entry;
    if q != [] {
      assert q == Front(q) + [Last(q)];
      assert dir <= Front(q) ==> dir <= q;
      ResolveOutside(s, s', dir, Front(q));
      var r := Resolve(s, Front(q));
      if r.Some? && r.value.flag == 2 {
        ResolveMeans(s, Front(q));
        if r.value.start == Resolve(s, dir).value.start {
          SamePath(s, Front(q), dir);
        }
      }
    }
  }

  // ---- the abstract tree

  datatype Node = DirNode | FileNode(size: nat, bytes: seq<byte>)

  function NodeOf(s: Fs, e: Dirent): Node {
    if e.flag == 2 then DirNode else FileNode(e.fsize, Take(Content(s.blk, Chain(s, e.start)), e.fsize))
  }

  /** The tree a disk stands for: every path that resolves, with the kind, size and bytes of
      what it leads to. */
  ghost function TreeOf(s: Fs): imap<seq<string>, Node> {
    imap p: seq<string> | Resolve(s, p).Some? :: NodeOf(s, Resolve(s, p).value)
  }

  /** A step keeps the nodes other paths lead to. */
  ghost predicate KeepsNodes(s: Fs, s': Fs, path: seq<string>) {
    forall q :: q != path && Resolve(s, q).Some? ==> NodeOf(s', Resolve(s, q).value) == NodeOf(s, Resolve(s, q).value)
  }

  /** Every other path leads where it led, and a file there has the blocks it had. */
  ghost predicate SameElsewhere(s: Fs, s': Fs, path: seq<string>) {
    forall q :: q != path ==>
      Resolve(s', q) == Resolve(s, q)
      && (Resolve(s, q).Some? && Resolve(s, q).value.flag == 1 ==>
          Chain(s', Resolve(s, q).value.start) == Chain(s, Resolve(s, q).value.start))
  }

  /** Nothing lies below what a path leads to. */
  ghost predicate Childless(s: Fs, r: Option<Dirent>) {
    r.Some? && r.value.flag == 2 ==> forall x :: Entry(s, r.value.start, x) == None
  }

  /** A step on one name of one directory, between two childless answers for that name, is
      one update of the tree at that path. */
  lemma TreeStep(s: Fs, s': Fs, path: seq<string>)
    requires Ok(s) && path != [] && Resolve(s, Front(path)).Some? && Resolve(s, Front(path)).value.flag == 2
    requires OnlyEntry(s, s', Resolve(s, Front(path)).value.start, Last(path))
    requires Childless(s, Resolve(s, path))
    requires Childless(s', Entry(s', Resolve(s, Front(path)).value.start, Last(path)))
    requires KeepsNodes(s, s', path)
    ensures Resolve(s', path) == Entry(s', Resolve(s, Front(path)).value.start, Last(path))
    ensures Resolve(s', path).Some? ==> TreeOf(s') == TreeOf(s)[path := NodeOf(s', Resolve(s', path).value)]
    ensures Resolve(s', path).None? ==> TreeOf(s') == TreeOf(s) - {path}
    ensures forall q :: q != path ==> Resolve(s', q) == Resolve(s, q)
  {
    hide Ok, Entry, NodeOf, OnlyEntry;
    ResolveExcept(s, s', path, Front(path));
    assert Resolve(s', path) == Entry(s', Resolve(s, Front(path)).value.start, Last(path));
    forall q | q != path
      ensures Resolve(s', q) == Resolve(s, q)
    {
      if path <= q {
        NothingBelow(s, path, q);
        NothingBelow(s', path, q);
      } else {
        ResolveExcept(s, s', path, q);
      }
    }
  }

  /** No two live slots along the chain carry the same name. */
  ghost predicate UniqueIn(blk: seq<Block>, c: seq<int>) {
    forall b, k, d, l ::
      b in c && 0 <= k < |SlotsAt(blk, b)| && d in c && 0 <= l < |SlotsAt(blk, d)| && Live(SlotsAt(blk, b)[k])
      ==> Named(SlotsAt(blk, d)[l], SlotsAt(blk, b)[k].fname) ==> b == d && k == l
  }

  /** No directory lists a name twice. */
  ghost predicate UniqueNames(s: Fs) {
    forall o :: IsDir(s, o) ==> UniqueIn(s.blk, Chain(s, o))
  }

  /** Under unique names a lookup finds the live slot that carries the name. */
  lemma FindsIt(blk: seq<Block>, c: seq<int>, b: int, k: int)
    requires UniqueIn(blk, c) && b in c && 0 <= k < |SlotsAt(blk, b)| && Live(SlotsAt(blk, b)[k])
    ensures FindIn(blk, c, SlotsAt(blk, b)[k].fname) == Some((b, k))
  {
    var r := FindIn(blk, c, SlotsAt(blk, b)[k].fname);
    assert Named(SlotsAt(blk, b)[k], SlotsAt(blk, b)[k].fname);
    var (d, l) := r.value;
    assert Named(SlotsAt(blk, d)[l], SlotsAt(blk, b)[k].fname);
  }
}
