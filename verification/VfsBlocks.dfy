/** What every command keeps of the blocks: no block has two owners, or none where it should
    have one. */
module VfsBlocks {
  import opened Vfs
  import opened VfsTree

  // ---- blocks

  /** Free blocks from block i on. */
  function FreeFrom(used: seq<bool>, i: nat): nat
    requires i <= |used|
    decreases |used| - i
  {
    if i == |used| then 0 else FreeFrom(used, i + 1) + if used[i] then 0 else 1
  }

  /** The blocks taken were free, are distinct, the first free ones, and are now used; nothing else
      changed. */
  ghost predicate Taken(used: seq<bool>, used': seq<bool>, i: nat, found: seq<int>) {
    && |used'| == |used|
    && (forall j :: 0 <= j < |found| ==> i <= found[j] < |used| && !used[found[j]])
    && (forall j, k :: 0 <= j < k < |found| ==> found[j] < found[k])
    && (forall b :: 0 <= b < |used| ==> (used'[b] <==> used[b] || b in found))
    && forall b, j :: 0 <= j < |found| && i <= b < found[j] ==> used'[b]
  }

  /** The search takes the first free blocks, as many as were asked for, unless that many are not
      free. */
  lemma {:induction false} GrabTakes(used: seq<bool>, i: nat, n: nat)
    requires i <= |used|
    ensures var (used', found) := Grab(used, i, n); Taken(used, used', i, found)
    ensures |Grab(used, i, n).1| == if n <= FreeFrom(used, i) then n else FreeFrom(used, i)
    decreases |used| - i
  {
    if i < |used| && n > 0 {
      hide Taken;
      if used[i] {
        GrabTakes(used, i + 1, n);
        TakenLater(used, Grab(used, i + 1, n).0, i, Grab(used, i + 1, n).1);
      } else {
        var (u, r) := Grab(used[i := true], i + 1, n - 1);
        GrabTakes(used[i := true], i + 1, n - 1);
        FreeBehind(used, used[i := true], i + 1);
        TakenHere(used, u, i, r);
      }
    } else {
      assert i == |used| ==> FreeFrom(used, i) == 0;
    }
  }

  lemma TakenLater(used: seq<bool>, used': seq<bool>, i: nat, found: seq<int>)
    requires i < |used| && used[i] && Taken(used, used', i + 1, found)
    ensures Taken(used, used', i, found)
  {
  }

  lemma TakenHere(used: seq<bool>, used': seq<bool>, i: nat, found: seq<int>)
    requires i < |used| && !used[i] && Taken(used[i := true], used', i + 1, found)
    ensures Taken(used, used', i, [i] + found)
  {
    var all := [i] + found;
    forall j | 0 < j < |all| ensures all[j] == found[j - 1] {
    }
  }

  lemma {:induction false} FreeBehind(used: seq<bool>, used': seq<bool>, i: nat)
    requires i <= |used| == |used'| && forall b :: i <= b < |used| ==> used'[b] == used[b]
    ensures FreeFrom(used', i) == FreeFrom(used, i)
    decreases |used| - i
  {
    if i < |used| {
      FreeBehind(used, used', i + 1);
    }
  }

  /** From s to s' only file y's records have changed, and y records blocks that were free. */
  ghost predicate NewBlocks(s: Vol, s': Vol, y: int) {
    && |s'.used| == |s.used| && (forall b :: 0 <= b < |s.used| && s.used[b] ==> s'.used[b])
    && (forall x :: IsFile(s', x) && x != y ==> IsFile(s, x) && s'.fcb[x] == s.fcb[x])
    && (IsFile(s', y) ==> FileOk(s', y) && DistinctFree(s.used, s'.fcb[y].record))
  }

  ghost predicate DistinctFree(used: seq<bool>, r: seq<int>) {
    && (forall i :: 0 <= i < |r| && r[i] != -1 ==> 0 <= r[i] < |used| && !used[r[i]])
    && (forall i, j :: 0 <= i < j < |r| && r[i] != -1 ==> r[i] != r[j])
  }

  lemma RecordedIsUsed(s: Vol, x: int, i: int, b: int)
    requires BlocksOk(s) && Holds(s, x, i, b)
    ensures SYSTEM <= b < |s.used| && s.used[b]
  {
    assert FileOk(s, x);
  }

  lemma NewBlocksOk(s: Vol, s': Vol, y: int)
    requires BlocksOk(s) && NewBlocks(s, s', y)
    ensures BlocksOk(s')
  {
    hide DistinctFree;
    forall x | IsFile(s', x) ensures FileOk(s', x) {
      if x != y {
        FileHere(s, x);
      }
    }
    forall x, i, z, j, b | Holds(s', x, i, b) && Holds(s', z, j, b) ensures x == z && i == j {
      OneHolder(s, s', y, x, i, z, j, b);
    }
  }

  lemma OneHolder(s: Vol, s': Vol, y: int, x: int, i: int, z: int, j: int, b: int)
    requires BlocksOk(s) && NewBlocks(s, s', y) && Holds(s', x, i, b) && Holds(s', z, j, b)
    ensures x == z && i == j
  {
    hide FileOk;
    if x != y {
      assert Holds(s, x, i, b);
      RecordedIsUsed(s, x, i, b);
    }
    if z != y {
      assert Holds(s, z, j, b);
      RecordedIsUsed(s, z, j, b);
    }
  }

  /** A file whose m blocks have just been taken, in the order they were found. */
  lemma TakenFile(used: seq<bool>, used': seq<bool>, found: seq<int>, m: nat, first: int, rest: seq<int>)
    requires Taken(used, used', 0, found) && |found| == m <= RECORDS && rest == Nones(RECORDS - m)
    requires SYSTEM <= |used| && forall b :: 0 <= b < SYSTEM ==> used[b]
    ensures var r := Padded(found, m, first) + rest;
      && |r| == RECORDS && DistinctFree(used, r)
      && (forall i :: 0 <= i < m ==> SYSTEM <= r[i] < |used'| && used'[r[i]])
      && (forall i :: m <= i < RECORDS ==> r[i] == -1)
  {
    var r := Padded(found, m, first) + rest;
    assert forall i :: 0 <= i < m ==> r[i] == found[i] && found[i] in found;
    assert forall i :: m <= i < RECORDS ==> r[i] == -1;
  }

  /** From s to s' file y has got m blocks, as far as the search found them. */
  ghost predicate GivenBlocks(s: Vol, s': Vol, y: int, m: int, first: int) {
    && 0 <= m <= RECORDS && IsFile(s', y) && s'.used == Grab(s.used, 0, m).0
    && s'.fcb[y].length == m && s'.fcb[y].record == Padded(Grab(s.used, 0, m).1, m, first) + Nones(RECORDS - m)
    && (forall x :: IsFile(s', x) && x != y ==> IsFile(s, x) && s'.fcb[x] == s.fcb[x])
  }

  /** File y has been given the first m free blocks: the blocks stay apart exactly when there
      were as many; otherwise y records block 0, or no block, as one of its own. */
  lemma FileTakesExactly(s: Vol, s': Vol, y: int, m: int, first: int)
    requires BlocksOk(s) && GivenBlocks(s, s', y, m, first) && first <= 0
    ensures BlocksOk(s') <==> m <= FreeFrom(s.used, 0)
  {
    assert 0 <= y < |s'.fcb|;
    hide Grab, FreeFrom, BlocksOk, Taken, DistinctFree, IsFile;
    GrabTakes(s.used, 0, m);
    var (used', found) := Grab(s.used, 0, m);
    SystemUsed(s);
    if |found| == m {
      TakenFile(s.used, used', found, m, first, Nones(RECORDS - m));
      StillUsed(s.used, used', found);
      NewBlocksOk(s, s', y);
    } else {
      assert s'.fcb[y].record[|found|] <= 0;
      NotFileOk(s', y);
    }
  }

  lemma WriteIs(s: Vol, name: string, n: nat) returns (x: int)
    requires Inv(s) && n < RECORDS * BLOCKS && Write(s, name, n).1 == 1
    ensures IsFile(s, x) && GivenBlocks(s, Write(s, name, n).0, x, n / BLOCKS + 1, -1)
  {
    hide Inv, Overwritten, FindName, GivenBlocks;
    CurOk(s);
    FoundKid(s, name, 0);
    x := s.fcb[s.cur].record[FindName(s.fcb, s.fcb[s.cur].record, name, 0)];
    OverwrittenGiven(s, x, n);
  }

  lemma OverwrittenGiven(s: Vol, x: int, n: nat)
    requires IsFile(s, x) && n < RECORDS * BLOCKS
    ensures GivenBlocks(s, Overwritten(s, x, n), x, n / BLOCKS + 1, -1)
  {
    hide Grab, Padded;
  }

  /** As written, a write that finds its file keeps the blocks apart, and off the system's own
      blocks, exactly when enough blocks are free. */
  lemma WriteBlocksExactly(s: Vol, name: string, n: nat)
    requires Inv(s) && BlocksOk(s) && n < RECORDS * BLOCKS && Write(s, name, n).1 == 1
    ensures BlocksOk(Write(s, name, n).0) <==> n / BLOCKS + 1 <= FreeFrom(s.used, 0)
  {
    hide Inv, BlocksOk, Write, FreeFrom;
    var x := WriteIs(s, name, n);
    FileTakesExactly(s, Write(s, name, n).0, x, n / BLOCKS + 1, -1);
  }

  /** The number of blocks of the file that cp finds. */
  function CpNeeds(s: Vol, src: string): int
    requires Inv(s)
  {
    CurOk(s);
    var k := FindName(s.fcb, s.fcb[s.cur].record, src, 0);
    if k < RECORDS then s.fcb[s.fcb[s.cur].record[k]].length else 0
  }

  lemma CpIs(s: Vol, src: string, dst: string) returns (i: int)
    requires Inv(s) && BlocksOk(s) && s.fcb[s.cur].length < RECORDS && Cp(s, src, dst).1 == 1
    ensures GivenBlocks(s, Cp(s, src, dst).0, i, CpNeeds(s, src), 0)
  {
    hide Inv, Grab, Padded, BlocksOk, FindName, FirstFree, GivenBlocks, Added;
    CurOk(s);
    FoundKid(s, src, 0);
    var k := FindName(s.fcb, s.fcb[s.cur].record, src, 0);
    var x := s.fcb[s.cur].record[k];
    FileHere(s, x);
    i := FirstFree(s.fcb, 0);
    FreeHere(s, i);
    CurIsDir(s);
    var m := s.fcb[x].length;
    assert m == CpNeeds(s, src) && s.fcb[i].record[m..] == Nones(RECORDS - m);
    var (used', found) := Grab(s.used, 0, m);
    AddedGiven(s, i, used', m, Fcb(i, dst, false, s.fcb[x].size, Padded(found, m, 0) + s.fcb[i].record[m..], m));
  }

  lemma AddedGiven(s: Vol, i: int, used': seq<bool>, m: int, f: Fcb)
    requires HasRecord(s) && 0 <= i < |s.fcb| && s.cur in s.depth && i != s.cur && s.fcb[s.cur].isdir && !f.isdir
    requires 0 <= m <= RECORDS
    requires used' == Grab(s.used, 0, m).0 && f.length == m
    requires f.record == Padded(Grab(s.used, 0, m).1, m, 0) + Nones(RECORDS - m)
    ensures GivenBlocks(s, Added(s.(used := used'), i, f), i, m, 0)
  {
    hide Grab, Padded;
  }

  /** And so does a cp that makes its copy. */
  lemma CpBlocksExactly(s: Vol, src: string, dst: string)
    requires Inv(s) && BlocksOk(s) && s.fcb[s.cur].length < RECORDS && Cp(s, src, dst).1 == 1
    ensures BlocksOk(Cp(s, src, dst).0) <==> CpNeeds(s, src) <= FreeFrom(s.used, 0)
  {
    hide Inv, BlocksOk, Cp, FreeFrom, CpNeeds;
    var i := CpIs(s, src, dst);
    FileTakesExactly(s, Cp(s, src, dst).0, i, CpNeeds(s, src), 0);
  }

  lemma SystemUsed(s: Vol)
    requires BlocksOk(s)
    ensures SYSTEM <= |s.used| && forall b :: 0 <= b < SYSTEM ==> s.used[b]
  {
  }

  lemma StillUsed(used: seq<bool>, used': seq<bool>, found: seq<int>)
    requires Taken(used, used', 0, found)
    ensures |used'| == |used| && forall b :: 0 <= b < |used| && used[b] ==> used'[b]
  {
  }

  lemma NotFileOk(s: Vol, x: int)
    requires IsFile(s, x) && !FileOk(s, x)
    ensures !BlocksOk(s)
  {
  }

  lemma MkfileBlocks(s: Vol, name: string)
    requires Inv(s) && BlocksOk(s)
    ensures BlocksOk(Mkfile(s, name).0)
  {
    hide Inv, BlocksOk, FirstFree, GivenBlocks, Added;
    CurOk(s);
    if Mkfile(s, name).1 == 1 {
      var i := FirstFree(s.fcb, 0);
      FreeHere(s, i);
      CurIsDir(s);
      assert Grab(s.used, 0, 0) == (s.used, []) && s.(used := s.used) == s;
      assert s.fcb[i].record == Padded([], 0, 0) + Nones(RECORDS);
      AddedGiven(s, i, s.used, 0, Fcb(i, name, false, 0, s.fcb[i].record, 0));
      FileTakesExactly(s, Mkfile(s, name).0, i, 0, 0);
    }
  }

  lemma MkdirBlocks(s: Vol, name: string)
    requires Inv(s) && BlocksOk(s) && Three(s.fcb).2 < |s.fcb|
    ensures BlocksOk(Mkdir(s, name).0)
  {
    hide Inv, BlocksOk;
    if Mkdir(s, name).1 == 1 {
      var (i, a, b) := Three(s.fcb);
      var s' := Mkdir(s, name).0;
      MkdirGrows(s, name);
      assert s'.used == s.used;
      hide Mkdir;
      GrowsApart(s, s', i, {a, b});
      CurIsDir(s);
      assert s'.fcb[s.cur].isdir;
      forall x | IsFile(s', x) ensures x != i && IsFile(s, x) && s'.fcb[x] == s.fcb[x] {
        NodeHere(s, x);
      }
      NewBlocksOk(s, s', i);
    }
  }

  lemma CdBlocks(s: Vol, name: string)
    requires Inv(s) && BlocksOk(s)
    ensures BlocksOk(Cd(s, name).0)
  {
    CdOk(s, name);
    hide Inv, BlocksOk, Cd;
    NewBlocksOk(s, Cd(s, name).0, -1);
  }

  /** From s to s' file or directory x has gone, and its blocks are free. */
  ghost predicate LostBlocks(s: Vol, s': Vol, x: int) {
    && |s'.used| == |s.used| && (forall y :: IsFile(s', y) ==> y != x && IsFile(s, y) && s'.fcb[y] == s.fcb[y])
    && (forall b :: 0 <= b < |s.used| && s.used[b] && !s'.used[b] ==> exists i :: Holds(s, x, i, b))
  }

  lemma LostBlocksOk(s: Vol, s': Vol, x: int)
    requires BlocksOk(s) && LostBlocks(s, s', x)
    ensures BlocksOk(s')
  {
    forall b | 0 <= b < SYSTEM ensures s'.used[b] {
      if !s'.used[b] {
        var i :| Holds(s, x, i, b);
        RecordedIsUsed(s, x, i, b);
      }
    }
    forall y | IsFile(s', y) ensures FileOk(s', y) {
      StaysOk(s, s', x, y);
    }
    forall y, i, z, j, b | Holds(s', y, i, b) && Holds(s', z, j, b) ensures y == z && i == j {
      assert Holds(s, y, i, b) && Holds(s, z, j, b);
    }
  }

  lemma StaysOk(s: Vol, s': Vol, x: int, y: int)
    requires BlocksOk(s) && LostBlocks(s, s', x) && IsFile(s', y)
    ensures FileOk(s', y)
  {
    FileHere(s, y);
    forall j | 0 <= j < s.fcb[y].length ensures s'.used[s.fcb[y].record[j]] {
      var b := s.fcb[y].record[j];
      assert Holds(s, y, j, b);
      forall i ensures !Holds(s, x, i, b) {
      }
    }
  }

  lemma RmBlocks(s: Vol, name: string)
    requires Inv(s) && BlocksOk(s) && name != "." && name != ".."
    ensures BlocksOk(Rm(s, name).0)
  {
    hide Inv, BlocksOk, Shrinks, LostBlocks, FindName;
    CurOk(s);
    FoundKid(s, name, 0);
    if Rm(s, name).1 == 1 {
      RmShrinks(s, name);
      var k := FindName(s.fcb, s.fcb[s.cur].record, name, 0);
      var x := s.fcb[s.cur].record[k];
      var dots := if s.fcb[x].isdir then {s.fcb[x].record[0], s.fcb[x].record[1]} else {};
      var s' := Rm(s, name).0;
      if s.fcb[x].isdir {
        FoundDir(s, k);
        DirHere(s, x);
        assert s'.used == s.used;
      } else {
        assert s'.used == Freed(s.used, s.fcb[x].record);
        FileHere(s, x);
      }
      hide Rm;
      CurIsDir(s);
      ShrinksLoses(s, s', x, k, dots);
      LostBlocksOk(s, s', x);
    }
  }

  lemma ShrinksLoses(s: Vol, s': Vol, x: int, k: nat, dots: set<int>)
    requires Inv(s) && Shrinks(s, s', x, k, dots) && IsDirNode(s, s.cur)
    requires s'.used == s.used || (IsFile(s, x) && s'.used == Freed(s.used, s.fcb[x].record))
    ensures LostBlocks(s, s', x)
  {
    hide Kids, Inv;
    assert s'.fcb[s.cur].isdir;
    forall y | IsFile(s', y) ensures y != x && IsFile(s, y) && s'.fcb[y] == s.fcb[y] {
      NodeHere(s, y);
    }
    forall b | 0 <= b < |s.used| && s.used[b] && !s'.used[b] ensures exists i :: Holds(s, x, i, b) {
      var i :| 0 <= i < |s.fcb[x].record| && s.fcb[x].record[i] == b;
      assert Holds(s, x, i, b);
    }
  }
}
