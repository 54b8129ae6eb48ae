/** What every command keeps of the tree: directories, their "." and "..", their lengths. */
module VfsTree {
  import opened Vfs

  // ---- steps that add

  /** From s to s' the node i has been made under the current directory, in a control block
      that was free, together with the entries in `dots`. */
  ghost predicate Grows(s: Vol, s': Vol, i: int, dots: set<int>) {
    && HasRecord(s) && |s'.fcb| == |s.fcb| && 0 <= i < |s.fcb| && i !in dots && s.fcb[i].id == -1 && s.cur in s.depth
    && s'.cur == s.cur && s'.parent == s.parent[i := s.cur] && s'.depth == s.depth[i := s.depth[s.cur] + 1]
    && s'.owner.Keys == s.owner.Keys + dots && (forall a :: a in s.owner && a !in dots ==> s'.owner[a] == s.owner[a])
    && (forall a :: a in dots ==> 0 <= a < |s.fcb| && s.fcb[a].id == -1 && s'.owner[a] == i)
    && s'.fcb[s.cur] == Recorded(s.fcb[s.cur], i)
    && (forall x :: 0 <= x < |s.fcb| && x != i && x != s.cur && x !in dots ==> s'.fcb[x] == s.fcb[x])
    && (forall x :: 0 <= x < |s.fcb| && (x == i || x in dots) ==> s'.fcb[x].id == x && |s'.fcb[x].record| == RECORDS)
  }

  lemma GrowsApart(s: Vol, s': Vol, i: int, dots: set<int>)
    requires Inv(s) && Grows(s, s', i, dots)
    ensures i != 0 && i !in s.parent && i !in s.owner && i != s.cur
    ensures forall a :: a in dots ==> a != 0 && a !in s.parent && a !in s.owner && a != s.cur
  {
    FreeHere(s, i);
    forall a | a in dots ensures a != 0 && a !in s.parent && a !in s.owner && a != s.cur {
      FreeHere(s, a);
    }
  }

  lemma GrowsDirNodes(s: Vol, s': Vol, i: int, dots: set<int>, d: int)
    requires Inv(s) && Grows(s, s', i, dots) && d != i
    ensures IsDirNode(s', d) <==> IsDirNode(s, d)
    ensures IsDirNode(s, d) ==> d !in dots && d !in s.owner
  {
    GrowsApart(s, s', i, dots);
    NodeHere(s, d);
    hide Inv;
    assert 0 <= d < |s.fcb| && d !in dots ==> s'.fcb[d].isdir == s.fcb[d].isdir;
  }

  lemma NodeHere(s: Vol, x: int)
    requires Inv(s)
    ensures x in s.parent ==> NodeOk(s, x)
    ensures IsDirNode(s, x) ==> x !in s.owner
  {
    hide DirOk, DotOk, LiveOk;
    if x in s.parent {
      assert NodeOk(s, x);
    }
  }

  lemma GrowsMaps(s: Vol, s': Vol, i: int, dots: set<int>)
    requires Grows(s, s', i, dots)
    ensures s'.parent == s.parent[i := s.cur] && s.cur in s.depth && s'.depth == s.depth[i := s.depth[s.cur] + 1]
    ensures s'.cur == s.cur && |s'.fcb| == |s.fcb| && 0 <= i < |s.fcb| && i !in dots
    ensures forall a :: a in s'.owner <==> a in s.owner || a in dots
  {
  }

  lemma GrowsNode(s: Vol, s': Vol, i: int, dots: set<int>, x: int)
    requires Inv(s) && Grows(s, s', i, dots) && x in s'.parent
    ensures NodeOk(s', x)
  {
    hide Inv, IsDirNode, Grows;
    GrowsApart(s, s', i, dots);
    GrowsMaps(s, s', i, dots);
    NodeHere(s, x);
    GrowsParent(s, s', i, dots, x);
    GrowsDirNodes(s, s', i, dots, s'.parent[x]);
  }

  lemma GrowsParent(s: Vol, s': Vol, i: int, dots: set<int>, x: int)
    requires Inv(s) && Grows(s, s', i, dots) && x in s'.parent
    ensures s'.parent[x] != i && IsDirNode(s, s'.parent[x])
    ensures 0 < x < |s.fcb| && x !in dots
  {
    GrowsApart(s, s', i, dots);
    NodeHere(s, x);
    assert IsDirNode(s, s.cur);
    hide Inv, DirOk;
  }

  lemma GrowsDot(s: Vol, s': Vol, i: int, dots: set<int>, a: int)
    requires Inv(s) && Grows(s, s', i, dots) && a in s.owner
    ensures DotOk(s', a) && a !in dots && s'.fcb[a] == s.fcb[a] && s'.owner[a] == s.owner[a]
  {
    var d := s.owner[a];
    assert DotOk(s, a);
    assert IsDirNode(s, s.cur);
    hide Inv, IsDirNode;
    GrowsApart(s, s', i, dots);
    GrowsDirNodes(s, s', i, dots, d);
    NodeHere(s, s.cur);
    CurOk(s);
    assert s'.fcb[d].record[..2] == s.fcb[d].record[..2];
  }

  lemma GrowsKids(s: Vol, s': Vol, i: int, dots: set<int>, d: int)
    requires Grows(s, s', i, dots) && i !in s.parent
    ensures Kids(s', d) == (if d == s.cur then Kids(s, d) + {i} else Kids(s, d)) && i !in Kids(s, d)
  {
  }

  lemma GrowsRecords(s: Vol, s': Vol, i: int, dots: set<int>, d: int)
    requires Grows(s, s', i, dots) && i !in s.parent && 0 <= d < |s.fcb| && d !in dots && d != i
    requires RecordsOk(s, d, s.fcb[d].record)
    requires 2 <= s.fcb[s.cur].length && i >= 0
    ensures RecordsOk(s', d, s'.fcb[d].record) && s'.fcb[d].record[..2] == s.fcb[d].record[..2]
  {
    var r, r' := s.fcb[d].record, s'.fcb[d].record;
    assert forall j ::
        2 <= j < RECORDS && r'[j] != -1 ==> r'[j] == r[j] || (d == s.cur && j == s.fcb[d].length && r'[j] == i);
    assert r'[0] == r[0] && r'[1] == r[1];
  }

  lemma GrowsDir(s: Vol, s': Vol, i: int, dots: set<int>, d: int)
    requires Inv(s) && Grows(s, s', i, dots) && d != i && IsDirNode(s', d)
    ensures DirOk(s', d)
  {
    hide Inv, Kids, DotOk, RecordsOk, Grows;
    GrowsApart(s, s', i, dots);
    GrowsMaps(s, s', i, dots);
    GrowsDirNodes(s, s', i, dots, d);
    GrowsKids(s, s', i, dots, d);
    DirHere(s, d);
    CurOk(s);
    GrowsRecords(s, s', i, dots, d);
    GrowsLength(s, s', i, dots, d);
    var r := s.fcb[d].record;
    GrowsDot(s, s', i, dots, r[0]);
    GrowsDot(s, s', i, dots, r[1]);
    assert s'.fcb[d].record[0] == s'.fcb[d].record[..2][0] == r[0]
        && s'.fcb[d].record[1] == s'.fcb[d].record[..2][1] == r[1];
    assert Up(s', d) == Up(s, d);
  }

  lemma GrowsLength(s: Vol, s': Vol, i: int, dots: set<int>, d: int)
    requires Grows(s, s', i, dots) && 0 <= d < |s.fcb| && d !in dots && d != i
    ensures s'.fcb[d].length == s.fcb[d].length + (if d == s.cur then 1 else 0)
    ensures d == s.cur ==> s.fcb[d].length < |s.fcb[d].record|
  {
  }

  lemma GrowsLive(s: Vol, s': Vol, i: int, dots: set<int>, x: int)
    requires Inv(s) && Grows(s, s', i, dots) && 0 <= x < |s'.fcb|
    ensures LiveOk(s', x)
  {
    GrowsApart(s, s', i, dots);
    assert LiveOk(s, x);
    CurOk(s);
    hide Inv;
  }

  lemma GrowsBase(s: Vol, s': Vol, i: int, dots: set<int>)
    requires Inv(s) && Grows(s, s', i, dots)
    ensures RECORDS <= |s'.fcb| && 0 !in s'.parent && 0 !in s'.owner && 0 in s'.depth && s'.depth[0] == 0
    ensures IsDirNode(s', 0) && IsDirNode(s', s'.cur)
  {
    GrowsApart(s, s', i, dots);
    GrowsDirNodes(s, s', i, dots, 0);
    GrowsDirNodes(s, s', i, dots, s.cur);
    hide DirOk, DotOk, NodeOk, LiveOk, IsDirNode;
  }

  /** Making a node keeps the tree, if the node's own entries are right. */
  lemma GrowsOk(s: Vol, s': Vol, i: int, dots: set<int>)
    requires Inv(s) && Grows(s, s', i, dots)
    requires s'.fcb[i].isdir ==> DirOk(s', i)
    requires forall a :: a in dots ==> DotOk(s', a)
    ensures Inv(s')
  {
    GrowsBase(s, s', i, dots);
    var keys := s.owner.Keys;
    assert s'.owner.Keys == keys + dots;
    hide DirOk, DotOk, NodeOk, LiveOk, Inv, Grows;
    forall x | x in s'.parent ensures NodeOk(s', x) {
      GrowsNode(s, s', i, dots, x);
    }
    forall a | a in s'.owner ensures DotOk(s', a) {
      if a !in dots {
        assert a in keys;
        GrowsDot(s, s', i, dots, a);
      }
    }
    forall d | IsDirNode(s', d) ensures DirOk(s', d) {
      if d != i {
        GrowsDir(s, s', i, dots, d);
      }
    }
    forall x | 0 <= x < |s'.fcb| ensures LiveOk(s', x) {
      GrowsLive(s, s', i, dots, x);
    }
    InvFrom(s');
  }

  lemma InvFrom(s: Vol)
    requires RECORDS <= |s.fcb| && 0 !in s.parent && 0 !in s.owner && 0 in s.depth && s.depth[0] == 0
    requires IsDirNode(s, 0) && IsDirNode(s, s.cur)
    requires forall x :: 0 <= x < |s.fcb| ==> LiveOk(s, x)
    requires forall x :: x in s.parent ==> NodeOk(s, x)
    requires forall a :: a in s.owner ==> DotOk(s, a)
    requires forall d :: IsDirNode(s, d) ==> DirOk(s, d)
    ensures Inv(s)
  {
    hide DirOk, DotOk, NodeOk, LiveOk;
  }

  lemma AddedFileOk(s: Vol, i: int, f: Fcb)
    requires Inv(s) && HasRecord(s) && 0 <= i < |s.fcb| && s.fcb[i].id == -1 && s.cur in s.depth
    requires f.id == i && !f.isdir && |f.record| == RECORDS
    ensures Inv(Added(s, i, f))
  {
    FreeHere(s, i);
    hide Inv, HasRecord, Added, Grows;
    AddedGrows(s, s, i, f, {});
    GrowsOk(s, Added(s, i, f), i, {});
  }

  lemma MkfileOk(s: Vol, name: string)
    requires Inv(s)
    ensures Inv(Mkfile(s, name).0)
  {
    CurOk(s);
    var i := FirstFree(s.fcb, 0);
    if s.fcb[s.cur].length != RECORDS && i != |s.fcb| {
      FreeHere(s, i);
      hide Inv;
      AddedFileOk(s, i, Fcb(i, name, false, 0, s.fcb[i].record, 0));
    }
  }

  lemma MkdirGrows(s: Vol, name: string)
    requires Inv(s) && Three(s.fcb).2 < |s.fcb| && Mkdir(s, name).1 == 1
    ensures var (i, a, b) := Three(s.fcb); var s' := Mkdir(s, name).0;
      && Grows(s, s', i, {a, b}) && s'.fcb[i] == Fcb(i, name, true, 0, Nones(RECORDS)[0 := a][1 := b], 2)
      && s'.fcb[a] == Fcb(a, ".", true, 0, Nones(RECORDS)[0 := i], 1)
      && s'.fcb[b] == Fcb(b, "..", true, 0, Nones(RECORDS)[0 := s.cur], 1)
  {
    hide Inv, Three, WithDots, HasRecord;
    var (i, a, b) := Three(s.fcb);
    CurOk(s);
    FreeHere(s, i);
    FreeHere(s, a);
    FreeHere(s, b);
    DotsMade(s, i, a, b);
    AddedGrows(s, WithDots(s, i, a, b), i, Fcb(i, name, true, 0, Nones(RECORDS)[0 := a][1 := b], 2), {a, b});
  }

  lemma DotsMade(s: Vol, i: int, a: int, b: int)
    requires 0 <= s.cur < |s.fcb| && 0 <= a < |s.fcb| && 0 <= b < |s.fcb| && a != b && a != s.cur && b != s.cur
    requires i != a && i != b
    requires s.fcb[a].id == -1 && s.fcb[b].id == -1 && s.fcb[s.cur].id == s.cur
    ensures var s1 := WithDots(s, i, a, b);
      && HasDots(s, s1, i, {a, b}) && (HasRecord(s) ==> HasRecord(s1))
      && s1.fcb[a] == Fcb(a, ".", true, 0, Nones(RECORDS)[0 := i], 1)
      && s1.fcb[b] == Fcb(b, "..", true, 0, Nones(RECORDS)[0 := s.cur], 1)
  {
  }

  ghost predicate HasDots(s: Vol, s1: Vol, i: int, dots: set<int>) {
    && |s1.fcb| == |s.fcb| && s1.parent == s.parent && s1.depth == s.depth && s1.cur == s.cur
    && s1.owner.Keys == s.owner.Keys + dots && (forall a :: a in s.owner && a !in dots ==> s1.owner[a] == s.owner[a])
    && (forall a :: a in dots ==>
          && 0 <= a < |s.fcb| && s.fcb[a].id == -1 && s1.owner[a] == i
          && s1.fcb[a].id == a && |s1.fcb[a].record| == RECORDS)
    && (forall x :: 0 <= x < |s.fcb| && x !in dots ==> s1.fcb[x] == s.fcb[x])
  }

  lemma AddedGrows(s: Vol, s1: Vol, i: int, f: Fcb, dots: set<int>)
    requires HasDots(s, s1, i, dots) && HasRecord(s1) && 0 <= i < |s.fcb| && s.fcb[i].id == -1 && s.cur in s.depth
    requires i !in dots && i != s.cur
    requires s.cur !in dots && f.id == i && |f.record| == RECORDS
    ensures HasRecord(s) && Grows(s, Added(s1, i, f), i, dots) && Added(s1, i, f).fcb[i] == f
    ensures forall a :: a in dots ==> Added(s1, i, f).fcb[a] == s1.fcb[a]
  {
  }

  lemma NoKidsYet(s: Vol, s': Vol, i: int, dots: set<int>)
    requires Inv(s) && Grows(s, s', i, dots)
    ensures Kids(s', i) == {}
  {
    GrowsApart(s, s', i, dots);
    forall x | x in s'.parent ensures s'.parent[x] != i {
      GrowsParent(s, s', i, dots, x);
    }
  }

  lemma MkdirOk(s: Vol, name: string)
    requires Inv(s) && Three(s.fcb).2 < |s.fcb|
    ensures Inv(Mkdir(s, name).0)
  {
    hide Inv, Three, Grows;
    if Mkdir(s, name).1 == 1 {
      var (i, a, b) := Three(s.fcb);
      var s' := Mkdir(s, name).0;
      MkdirGrows(s, name);
      hide Mkdir;
      NoKidsYet(s, s', i, {a, b});
      GrowsMaps(s, s', i, {a, b});
      assert s'.owner[a] == i && s'.owner[b] == i;
      assert IsDirNode(s', i);
      assert a in s'.fcb[i].record[..2] && b in s'.fcb[i].record[..2] by {
        assert s'.fcb[i].record[..2][0] == a && s'.fcb[i].record[..2][1] == b;
      }
      GrowsOk(s, s', i, {a, b});
    }
  }

  // ---- steps that keep the tree

  /** Same tree: the control blocks of directories and dot entries, and who is under whom. */
  ghost predicate SameTree(s: Vol, s': Vol) {
    && |s'.fcb| == |s.fcb| && s'.parent == s.parent && s'.depth == s.depth && s'.owner == s.owner
    && IsDirNode(s, s'.cur)
    && (forall x :: 0 <= x < |s.fcb| ==>
          || s'.fcb[x] == s.fcb[x]
          || (IsFile(s, x) && s'.fcb[x].id == s.fcb[x].id && !s'.fcb[x].isdir && |s'.fcb[x].record| == RECORDS))
  }

  lemma SameDir(s: Vol, s': Vol, d: int)
    requires Inv(s) && SameTree(s, s') && IsDirNode(s', d)
    ensures DirOk(s', d)
  {
    hide Inv, Kids;
    assert IsDirNode(s, d) && s'.fcb[d] == s.fcb[d];
    DirHere(s, d);
    var r := s.fcb[d].record;
    NodeHere(s, r[0]);
    NodeHere(s, r[1]);
    assert s'.fcb[r[0]] == s.fcb[r[0]] && s'.fcb[r[1]] == s.fcb[r[1]];
    assert Kids(s', d) == Kids(s, d) by {
      SameKids(s, s', d);
    }
  }

  lemma SameKids(s: Vol, s': Vol, d: int)
    requires s'.parent == s.parent
    ensures Kids(s', d) == Kids(s, d)
  {
  }

  lemma SameDot(s: Vol, s': Vol, a: int)
    requires Inv(s) && SameTree(s, s') && a in s.owner
    ensures DotOk(s', a)
  {
    assert DotOk(s, a);
    hide Inv;
    var d := s.owner[a];
    assert s'.fcb[d] == s.fcb[d];
  }

  lemma SameNode(s: Vol, s': Vol, x: int)
    requires Inv(s) && SameTree(s, s') && x in s.parent
    ensures NodeOk(s', x)
  {
    NodeHere(s, x);
    hide Inv;
    var d := s.parent[x];
    assert s'.fcb[d] == s.fcb[d];
  }

  lemma SameTreeOk(s: Vol, s': Vol)
    requires Inv(s) && SameTree(s, s')
    ensures Inv(s')
  {
    forall x | 0 <= x < |s'.fcb| ensures LiveOk(s', x) {
      assert LiveOk(s, x);
    }
    SameBase(s, s');
    hide DirOk, DotOk, NodeOk, LiveOk, SameTree;
    forall x | x in s'.parent ensures NodeOk(s', x) {
      SameNode(s, s', x);
    }
    forall a | a in s'.owner ensures DotOk(s', a) {
      SameDot(s, s', a);
    }
    forall d | IsDirNode(s', d) ensures DirOk(s', d) {
      SameDir(s, s', d);
    }
    InvFrom(s');
  }

  lemma SameBase(s: Vol, s': Vol)
    requires Inv(s) && SameTree(s, s')
    ensures RECORDS <= |s'.fcb| && 0 !in s'.parent && 0 !in s'.owner && 0 in s'.depth && s'.depth[0] == 0
    ensures IsDirNode(s', 0) && IsDirNode(s', s'.cur) && s'.parent == s.parent && s'.owner == s.owner
  {
    hide DirOk, DotOk, NodeOk, LiveOk;
    assert s'.fcb[0] == s.fcb[0] && s'.fcb[s'.cur] == s.fcb[s'.cur];
  }

  lemma CdOk(s: Vol, name: string)
    requires Inv(s)
    ensures Inv(Cd(s, name).0)
    ensures Cd(s, name).0 == s.(cur := Cd(s, name).0.cur)
  {
    CurOk(s);
    FoundKid(s, name, 2);
    DirHere(s, s.cur);
    UpIsDir(s, s.cur);
    assert IsDirNode(s, 0) && IsDirNode(s, s.cur);
    hide Inv;
    SameTreeOk(s, Cd(s, name).0);
  }

  lemma UpIsDir(s: Vol, d: int)
    requires Inv(s) && IsDirNode(s, d)
    ensures IsDirNode(s, Up(s, d)) && d in s.depth
    ensures d != 0 ==> Up(s, d) in s.depth && s.depth[d] == s.depth[Up(s, d)] + 1
  {
    NodeHere(s, d);
    assert IsDirNode(s, 0);
    hide Inv;
  }

  lemma WriteOk(s: Vol, name: string, n: nat)
    requires Inv(s) && n < RECORDS * BLOCKS
    ensures Inv(Write(s, name, n).0)
  {
    CurOk(s);
    FoundKid(s, name, 0);
    assert IsDirNode(s, s.cur);
    if Write(s, name, n).1 == 1 {
      var x := s.fcb[s.cur].record[FindName(s.fcb, s.fcb[s.cur].record, name, 0)];
      assert LiveOk(s, x);
      hide Inv;
      SameTreeOk(s, Write(s, name, n).0);
    }
  }

  lemma CpOk(s: Vol, src: string, dst: string)
    requires Inv(s) && BlocksOk(s) && s.fcb[s.cur].length < RECORDS
    ensures Inv(Cp(s, src, dst).0)
  {
    CurOk(s);
    FoundKid(s, src, 0);
    var i, k := FirstFree(s.fcb, 0), FindName(s.fcb, s.fcb[s.cur].record, src, 0);
    assert IsDirNode(s, s.cur);
    if Cp(s, src, dst).1 == 1 {
      FreeHere(s, i);
      var x := s.fcb[s.cur].record[k];
      FileHere(s, x);
      hide Inv, BlocksOk, Added;
      var m := s.fcb[x].length;
      var (used', found) := Grab(s.used, 0, m);
      SameTreeOk(s, s.(used := used'));
      AddedFileOk(s.(used := used'), i,
        Fcb(i, dst, false, s.fcb[x].size, Padded(found, m, 0) + s.fcb[i].record[m..], m));
    }
  }

  // ---- steps that remove

  /** From s to s' the childless node x, in record k of the current directory, has gone,
      together with its dot entries. */
  ghost predicate Shrinks(s: Vol, s': Vol, x: int, k: nat, dots: set<int>) {
    && x in s.parent && s.parent[x] == s.cur && Kids(s, x) == {} && 0 <= s.cur < |s.fcb| && 0 < x < |s.fcb|
    && x != s.cur
    && |s'.fcb| == |s.fcb| && s'.cur == s.cur && s'.parent == s.parent - {x} && s'.depth == s.depth - {x}
    && s'.owner == s.owner - dots
    && 2 <= k < |s.fcb[s.cur].record| && s.fcb[s.cur].record[k] == x && s'.fcb[s.cur] == Dropped(s.fcb[s.cur], k)
    && x !in dots && s.cur !in dots && (forall a :: a in dots ==> a in s.owner && 0 <= a < |s.fcb|)
    && (forall a :: a in s.owner ==> (a in dots <==> s.owner[a] == x))
    && (forall y :: 0 <= y < |s.fcb| && y != s.cur && (y == x || y in dots) ==> s'.fcb[y] == FreeFcb(s'.fcb[y].isdir))
    && (forall y :: 0 <= y < |s.fcb| && y != x && y != s.cur && y !in dots ==> s'.fcb[y] == s.fcb[y])
  }

  lemma ShrinksMaps(s: Vol, s': Vol, x: int, k: nat, dots: set<int>)
    requires Shrinks(s, s', x, k, dots)
    ensures x in s.parent && s.parent[x] == s.cur && 0 < x < |s.fcb| && x != s.cur
    ensures |s'.fcb| == |s.fcb| && s'.cur == s.cur && s'.parent == s.parent - {x} && s'.depth == s.depth - {x}
    ensures s'.owner == s.owner - dots
  {
  }

  lemma DotHere(s: Vol, a: int)
    requires Inv(s) && a in s.owner
    ensures a != 0 && a !in s.parent
  {
    assert DotOk(s, a);
  }

  lemma ShrinksDirNodes(s: Vol, s': Vol, x: int, k: nat, dots: set<int>, d: int)
    requires Inv(s) && Shrinks(s, s', x, k, dots)
    ensures IsDirNode(s', d) <==> IsDirNode(s, d) && d != x
  {
    hide Inv, Kids;
    CurIsDir(s);
    NodeHere(s, d);
    if d in dots {
      DotHere(s, d);
    }
    if 0 <= d < |s.fcb| && d != x && d !in dots && d != s.cur {
      assert s'.fcb[d] == s.fcb[d];
    }
  }

  lemma ShrinksNode(s: Vol, s': Vol, x: int, k: nat, dots: set<int>, y: int)
    requires Inv(s) && Shrinks(s, s', x, k, dots) && y in s'.parent
    ensures NodeOk(s', y)
  {
    hide Inv, IsDirNode, Shrinks;
    ShrinksMaps(s, s', x, k, dots);
    NodeHere(s, y);
    ShrinksDirNodes(s, s', x, k, dots, s.parent[y]);
    assert s.parent[y] != x by {
      ChildlessParent(s, s', x, k, dots, y);
    }
  }

  lemma ChildlessParent(s: Vol, s': Vol, x: int, k: nat, dots: set<int>, y: int)
    requires Shrinks(s, s', x, k, dots) && y in s.parent
    ensures s.parent[y] != x
  {
    assert s.parent[y] == x ==> y in Kids(s, x);
  }

  lemma ShrinksDot(s: Vol, s': Vol, x: int, k: nat, dots: set<int>, a: int)
    requires Inv(s) && Shrinks(s, s', x, k, dots) && a in s.owner && a !in dots
    ensures DotOk(s', a) && s'.fcb[a] == s.fcb[a] && s.owner[a] != x && 0 < a < |s.fcb|
  {
    var d := s.owner[a];
    assert DotOk(s, a);
    assert IsDirNode(s, s.cur);
    hide Inv, IsDirNode, Kids;
    NodeHere(s, s.cur);
    NodeHere(s, x);
    ShrinksDirNodes(s, s', x, k, dots, d);
    NodeHere(s, d);
    assert d !in dots;
    assert s'.fcb[d].record[..2] == s.fcb[d].record[..2];
  }

  lemma ShrinksKids(s: Vol, s': Vol, x: int, k: nat, dots: set<int>, d: int)
    requires Shrinks(s, s', x, k, dots)
    ensures Kids(s', d) == Kids(s, d) - {x} && (x in Kids(s, d) <==> d == s.cur)
    ensures |Kids(s', d)| == |Kids(s, d)| - if d == s.cur then 1 else 0
  {
    assert Kids(s', d) == Kids(s, d) - {x};
  }

  lemma ShrinksRecords(s: Vol, s': Vol, x: int, k: nat, dots: set<int>, d: int)
    requires Shrinks(s, s', x, k, dots) && 0 <= d < |s.fcb| && d !in dots && d != x && RecordsOk(s, d, s.fcb[d].record)
    ensures RecordsOk(s', d, s'.fcb[d].record) && |s'.fcb[d].record| == RECORDS
    ensures s'.fcb[d].record[..2] == s.fcb[d].record[..2]
    ensures s'.fcb[d].length == s.fcb[d].length - if d == s.cur then 1 else 0
  {
    hide Kids;
    var r, r' := s.fcb[d].record, s'.fcb[d].record;
    assert d != s.cur ==> r' == r;
    assert forall j :: 2 <= j < RECORDS && r'[j] != -1 ==> r'[j] == r[j] && r[j] != x;
    assert r'[0] == r[0] && r'[1] == r[1];
  }

  lemma ShrinksDir(s: Vol, s': Vol, x: int, k: nat, dots: set<int>, d: int)
    requires Inv(s) && Shrinks(s, s', x, k, dots) && IsDirNode(s', d)
    ensures DirOk(s', d)
  {
    hide Inv, Kids, DotOk, RecordsOk, Shrinks;
    ShrinksMaps(s, s', x, k, dots);
    ShrinksDirNodes(s, s', x, k, dots, d);
    ShrinksKids(s, s', x, k, dots, d);
    DirHere(s, d);
    NotDot(s, s', x, k, dots, d);
    ShrinksRecords(s, s', x, k, dots, d);
    var r := s.fcb[d].record;
    NotItsDot(s, s', x, k, dots, r[0], d);
    NotItsDot(s, s', x, k, dots, r[1], d);
    ShrinksDot(s, s', x, k, dots, r[0]);
    ShrinksDot(s, s', x, k, dots, r[1]);
    assert s'.fcb[d].record[0] == s'.fcb[d].record[..2][0] == r[0]
        && s'.fcb[d].record[1] == s'.fcb[d].record[..2][1] == r[1];
    assert Up(s', d) == Up(s, d);
  }

  lemma NotItsDot(s: Vol, s': Vol, x: int, k: nat, dots: set<int>, a: int, d: int)
    requires Shrinks(s, s', x, k, dots) && a in s.owner && s.owner[a] == d && d != x
    ensures a !in dots
  {
  }

  lemma NotDot(s: Vol, s': Vol, x: int, k: nat, dots: set<int>, d: int)
    requires Inv(s) && Shrinks(s, s', x, k, dots) && IsDirNode(s, d)
    ensures d !in dots
  {
    NodeHere(s, d);
    hide Inv;
  }

  lemma ShrinksLive(s: Vol, s': Vol, x: int, k: nat, dots: set<int>, y: int)
    requires Inv(s) && Shrinks(s, s', x, k, dots) && 0 <= y < |s'.fcb|
    ensures LiveOk(s', y)
  {
    assert LiveOk(s, y);
    assert IsDirNode(s, s.cur);
    NodeHere(s, y);
    NodeHere(s, x);
    NodeHere(s, s.cur);
    assert 0 !in s.owner;
    hide Inv, Kids;
  }

  lemma ShrinksBase(s: Vol, s': Vol, x: int, k: nat, dots: set<int>)
    requires Inv(s) && Shrinks(s, s', x, k, dots)
    ensures RECORDS <= |s'.fcb| && 0 !in s'.parent && 0 !in s'.owner && 0 in s'.depth && s'.depth[0] == 0
    ensures IsDirNode(s', 0) && IsDirNode(s', s'.cur)
  {
    ShrinksDirNodes(s, s', x, k, dots, 0);
    ShrinksDirNodes(s, s', x, k, dots, s.cur);
    hide DirOk, DotOk, NodeOk, LiveOk, IsDirNode;
  }

  /** Removing a childless node keeps the tree. */
  lemma ShrinksOk(s: Vol, s': Vol, x: int, k: nat, dots: set<int>)
    requires Inv(s) && Shrinks(s, s', x, k, dots)
    ensures Inv(s')
  {
    ShrinksBase(s, s', x, k, dots);
    ShrinksMaps(s, s', x, k, dots);
    hide DirOk, DotOk, NodeOk, LiveOk, Inv, Shrinks;
    forall y | y in s'.parent ensures NodeOk(s', y) {
      ShrinksNode(s, s', x, k, dots, y);
    }
    forall a | a in s'.owner ensures DotOk(s', a) {
      ShrinksDot(s, s', x, k, dots, a);
    }
    forall d | IsDirNode(s', d) ensures DirOk(s', d) {
      ShrinksDir(s, s', x, k, dots, d);
    }
    forall y | 0 <= y < |s'.fcb| ensures LiveOk(s', y) {
      ShrinksLive(s, s', x, k, dots, y);
    }
    InvFrom(s');
  }

  lemma OnlyDots(s: Vol, x: int, a: int)
    requires Inv(s) && IsDirNode(s, x) && a in s.owner
    ensures s.owner[a] == x <==> a == s.fcb[x].record[0] || a == s.fcb[x].record[1]
  {
    assert DirOk(s, x) && DotOk(s, a);
  }

  /** What a successful rm does to the tree: one childless node goes, and nothing else. */
  lemma RmShrinks(s: Vol, name: string)
    requires Inv(s) && name != "." && name != ".." && Rm(s, name).1 == 1
    ensures var k := FindName(s.fcb, s.fcb[s.cur].record, name, 0);
      && k < RECORDS == |s.fcb[s.cur].record| && var x := s.fcb[s.cur].record[k];
      && 0 <= x < |s.fcb| && (s.fcb[x].isdir ==> |s.fcb[x].record| == RECORDS)
      && var dots := if s.fcb[x].isdir then {s.fcb[x].record[0], s.fcb[x].record[1]} else {};
      Shrinks(s, Rm(s, name).0, x, k, dots)
  {
    var k := FindName(s.fcb, s.fcb[s.cur].record, name, 0);
    CurOk(s);
    FoundKid(s, name, 0);
    var x := s.fcb[s.cur].record[k];
    if s.fcb[x].isdir {
      DirHere(s, x);
      hide Inv, Shrinks, WithoutDir;
      WithoutDirShrinks(s, k, x);
    } else {
      hide Inv, Shrinks, WithoutFile;
      WithoutFileShrinks(s, k, x);
    }
  }

  lemma WithoutDirShrinks(s: Vol, k: nat, x: int)
    requires Inv(s) && IsDirNode(s, x) && x in s.parent && s.parent[x] == s.cur && 0 < x < |s.fcb| && x != s.cur
    requires 0 <= s.cur < |s.fcb| && 2 <= k < |s.fcb[s.cur].record| && s.fcb[s.cur].record[k] == x
    requires s.fcb[x].length <= 2
    ensures var r := s.fcb[x].record;
      && |r| == RECORDS && 0 < r[0] < |s.fcb| && 0 < r[1] < |s.fcb|
      && Shrinks(s, WithoutDir(s, k, x, r[0], r[1]), x, k, {r[0], r[1]})
  {
    hide Inv, RecordsOk, Kids, IsDirNode, NodeOk, Shrinks, WithoutDir;
    DirHere(s, x);
    var r := s.fcb[x].record;
    forall a | a in s.owner ensures s.owner[a] == x <==> a == r[0] || a == r[1] {
      OnlyDots(s, x, a);
    }
    CurIsDir(s);
    NodeHere(s, s.cur);
    NodeHere(s, x);
    assert Kids(s, x) == {};
    WithoutDirIs(s, k, x, r[0], r[1]);
  }

  lemma CurIsDir(s: Vol)
    requires Inv(s)
    ensures IsDirNode(s, s.cur)
  {
  }

  lemma WithoutDirIs(s: Vol, k: nat, x: int, a: int, b: int)
    requires x in s.parent && s.parent[x] == s.cur && 0 < x < |s.fcb| && x != s.cur && Kids(s, x) == {}
    requires x !in s.owner && s.cur !in s.owner
    requires 0 <= s.cur < |s.fcb| && 2 <= k < |s.fcb[s.cur].record| && s.fcb[s.cur].record[k] == x
    requires a in s.owner && b in s.owner && 0 < a < |s.fcb| && 0 < b < |s.fcb|
    requires forall d :: d in s.owner ==> (s.owner[d] == x <==> d == a || d == b)
    ensures Shrinks(s, WithoutDir(s, k, x, a, b), x, k, {a, b})
  {
    hide Kids;
  }

  lemma WithoutFileShrinks(s: Vol, k: nat, x: int)
    requires Inv(s) && IsFile(s, x) && s.parent[x] == s.cur && 0 < x < |s.fcb| && x != s.cur
    requires 0 <= s.cur < |s.fcb| && 2 <= k < |s.fcb[s.cur].record| && s.fcb[s.cur].record[k] == x
    ensures Shrinks(s, WithoutFile(s, k, x), x, k, {})
  {
    FileHasNone(s, x);
    hide Inv, Kids;
  }

  /** A file has neither entries nor dots. */
  lemma FileHasNone(s: Vol, x: int)
    requires Inv(s) && IsFile(s, x)
    ensures Kids(s, x) == {} && forall a :: a in s.owner ==> s.owner[a] != x
  {
    forall y | y in s.parent ensures s.parent[y] != x {
      NodeHere(s, y);
    }
    forall a | a in s.owner ensures s.owner[a] != x {
      assert DotOk(s, a);
    }
  }

  lemma RmOk(s: Vol, name: string)
    requires Inv(s) && name != "." && name != ".."
    ensures Inv(Rm(s, name).0)
  {
    hide Inv, Shrinks;
    CurOk(s);
    if Rm(s, name).1 == 1 {
      RmShrinks(s, name);
      var k := FindName(s.fcb, s.fcb[s.cur].record, name, 0);
      var x := s.fcb[s.cur].record[k];
      ShrinksOk(s, Rm(s, name).0, x, k, if s.fcb[x].isdir then {s.fcb[x].record[0], s.fcb[x].record[1]} else {});
    }
  }

  /** The two dot entries of the current directory go the way of files: their record is emptied,
      their control block freed. */
  lemma RmDot(s: Vol, name: string)
    requires Inv(s) && (name == "." || name == "..")
    ensures var k := if name == "." then 0 else 1;
      && 0 <= s.cur < |s.fcb| && |s.fcb[s.cur].record| == RECORDS && 0 <= s.fcb[s.cur].record[k] < |s.fcb|
      && Rm(s, name) == (WithoutFile(s, k, s.fcb[s.cur].record[k]), 1)
  {
    CurOk(s);
    FoundDir(s, 0);
    FoundDir(s, 1);
    hide Inv, WithoutFile, WithoutDir;
    var r := s.fcb[s.cur].record;
    assert Carries(s.fcb, r[0], ".") && Carries(s.fcb, r[1], "..") && !Carries(s.fcb, r[0], "..");
    assert FindName(s.fcb, r, ".", 0) == 0 && FindName(s.fcb, r, "..", 0) == FindName(s.fcb, r, "..", 1) == 1;
  }

  /** As written, rm leaves a good tree exactly when the name was not "." or "..", whatever one
      takes for what was made where. */
  lemma RmOkExactly(s: Vol, name: string)
    requires Inv(s)
    ensures (exists t: Vol :: Inv(t) && t.fcb == Rm(s, name).0.fcb && t.cur == s.cur) <==> name != "." && name != ".."
  {
    hide Inv, WithoutFile, Rm;
    if name != "." && name != ".." {
      RmOk(s, name);
      RmCur(s, name);
    } else {
      RmDot(s, name);
      var k := if name == "." then 0 else 1;
      DotGone(s, k);
      if t: Vol :| Inv(t) && t.fcb == Rm(s, name).0.fcb && t.cur == s.cur {
        CurOk(t);
        FoundDirs(t);
      }
    }
  }

  lemma RmCur(s: Vol, name: string)
    requires Inv(s)
    ensures Rm(s, name).0.cur == s.cur
  {
    hide Inv, FindName;
  }

  lemma DotGone(s: Vol, k: nat)
    requires k < RECORDS && 0 <= s.cur < |s.fcb| && |s.fcb[s.cur].record| == RECORDS
    requires 0 <= s.fcb[s.cur].record[k] < |s.fcb|
    ensures var t := WithoutFile(s, k, s.fcb[s.cur].record[k]); t.fcb[s.cur].record == s.fcb[s.cur].record[k := -1]
  {
  }

  lemma FoundDirs(s: Vol)
    requires Inv(s) && 0 <= s.cur < |s.fcb| && |s.fcb[s.cur].record| == RECORDS
    ensures s.fcb[s.cur].record[0] != -1 && s.fcb[s.cur].record[1] != -1
  {
    assert DirOk(s, s.cur);
  }
}
