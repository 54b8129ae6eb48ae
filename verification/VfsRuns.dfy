/** Runs of commands, and what they mean for cd, rm and the records of a directory. */
module VfsRuns {
  import opened Vfs
  import opened VfsTree
  import opened VfsBlocks

  // ---- runs

  datatype Op = MakeDir(name: string) | MakeFile(name: string) | Go(name: string) | Put(name: string, n: nat)
              | Copy(src: string, dst: string) | Delete(name: string)

  /** Names fit a control block's eight characters; mkdir finds three free control blocks;
      write gets at most ten blocks' worth of characters; cp does not meet a full directory;
      write and cp find the blocks they need; "." and ".." are not removed. */
  ghost predicate Called(s: Vol, op: Op)
    requires Inv(s) && BlocksOk(s)
  {
    match op
    case MakeDir(name) => |name| < 8 && Three(s.fcb).2 < |s.fcb|
    case MakeFile(name) => |name| < 8
    case Go(name) => true
    case Put(name, n) => n < RECORDS * BLOCKS && (Write(s, name, n).1 == 1 ==> n / BLOCKS + 1 <= FreeFrom(s.used, 0))
    case Copy(src, dst) => |dst| < 8 && s.fcb[s.cur].length < RECORDS
        && (Cp(s, src, dst).1 == 1 ==> CpNeeds(s, src) <= FreeFrom(s.used, 0))
    case Delete(name) => name != "." && name != ".."
  }

  ghost function Step(s: Vol, op: Op): (Vol, int)
    requires Inv(s) && BlocksOk(s) && Called(s, op)
  {
    match op
    case MakeDir(name) => Mkdir(s, name)
    case MakeFile(name) => Mkfile(s, name)
    case Go(name) => Cd(s, name)
    case Put(name, n) => Write(s, name, n)
    case Copy(src, dst) => Cp(s, src, dst)
    case Delete(name) => Rm(s, name)
  }

  lemma FailsUnchanged(s: Vol, op: Op)
    requires Inv(s) && BlocksOk(s) && Called(s, op) && Step(s, op).1 != 1
    ensures Step(s, op).0 == s
  {
    hide Inv, BlocksOk, FindName, FirstFree, Three, WithDots, Added, Overwritten, FreeFrom, CpNeeds;
  }

  lemma StepOk(s: Vol, op: Op)
    requires Inv(s) && BlocksOk(s) && Called(s, op)
    ensures Inv(Step(s, op).0) && BlocksOk(Step(s, op).0)
  {
    hide Inv, BlocksOk, Mkdir, Mkfile, Cd, Write, Cp, Rm, FreeFrom, CpNeeds, Three;
    if Step(s, op).1 != 1 {
      FailsUnchanged(s, op);
    }
    match op
    case MakeDir(name) =>
      MkdirOk(s, name);
      MkdirBlocks(s, name);
    case MakeFile(name) =>
      MkfileOk(s, name);
      MkfileBlocks(s, name);
    case Go(name) =>
      CdOk(s, name);
      CdBlocks(s, name);
    case Put(name, n) =>
      WriteOk(s, name, n);
      if Write(s, name, n).1 == 1 {
        WriteBlocksExactly(s, name, n);
      }
    case Copy(src, dst) =>
      CpOk(s, src, dst);
      if Cp(s, src, dst).1 == 1 {
        CpBlocksExactly(s, src, dst);
      }
    case Delete(name) =>
      RmOk(s, name);
      RmBlocks(s, name);
  }

  lemma FormattedOk(n: nat)
    requires n >= RECORDS
    ensures Inv(Formatted(n)) && BlocksOk(Formatted(n))
  {
    var s := Formatted(n);
    assert s.fcb[0].record[..2] == [1, 2];
    assert Kids(s, 0) == {};
    assert DirOk(s, 0);
    assert DotOk(s, 1) && DotOk(s, 2);
    forall x | 0 <= x < n ensures LiveOk(s, x) {
      assert x >= 3 ==> s.fcb[x] == FreeFcb(false);
    }
  }

  /** The formatted volume holds nothing: only the root's three control blocks and the system's
      blocks are taken. */
  lemma FormattedHolds(n: nat)
    requires n >= RECORDS
    ensures var s := Formatted(n);
      && |s.fcb| == n && s.cur == 0 && s.parent == map[] && |s.used| == BLOCKS
      && (forall b :: 0 <= b < BLOCKS ==> (s.used[b] <==> b < SYSTEM))
      && (forall x :: 0 <= x < n ==> (s.fcb[x].id == -1 <==> x >= 3))
  {
    var s := Formatted(n);
    assert s.fcb[0].id == 0 && s.fcb[1].id == 1 && s.fcb[2].id == 2;
    forall x | 3 <= x < n ensures s.fcb[x].id == -1 {
      assert s.fcb[x] == FreeFcb(false);
    }
  }

  /** The states of a run, one per command. */
  ghost predicate IsRun(states: seq<Vol>, ops: seq<Op>) {
    && |states| == |ops| + 1 && Inv(states[0]) && BlocksOk(states[0])
    && forall i ::
        0 <= i < |ops| ==> Inv(states[i]) && BlocksOk(states[i]) ==> CalledStep(states[i], ops[i], states[i + 1])
  }

  ghost predicate CalledStep(s: Vol, op: Op, s': Vol) {
    Inv(s) && BlocksOk(s) && Called(s, op) && s' == Step(s, op).0
  }

  /** What holds in plain terms: a directory's length is 2 plus the number of things made under
      it and not removed; no data block is recorded by two files, or twice by one; recorded
      blocks are marked used; the system's blocks stay marked used and unrecorded. */
  ghost predicate Safe(s: Vol) {
    && (forall d :: IsDirNode(s, d) ==> s.fcb[d].length == 2 + |Kids(s, d)|)
    && (forall x, i, y, j, b :: Holds(s, x, i, b) && Holds(s, y, j, b) ==> x == y && i == j)
    && (forall x, i, b :: Holds(s, x, i, b) ==> SYSTEM <= b < |s.used| && s.used[b])
    && SYSTEM <= |s.used| && (forall b :: 0 <= b < SYSTEM ==> s.used[b])
  }

  lemma IsSafe(s: Vol)
    requires Inv(s) && BlocksOk(s)
    ensures Safe(s)
  {
    forall d | IsDirNode(s, d) ensures s.fcb[d].length == 2 + |Kids(s, d)| {
      DirHere(s, d);
    }
    forall x, i, b | Holds(s, x, i, b) ensures SYSTEM <= b < |s.used| && s.used[b] {
      RecordedIsUsed(s, x, i, b);
    }
    hide Inv, FileOk;
  }

  /** On every run from a good state, the formatted volume for instance, every state is safe,
      and as many cd .. as the current directory is deep lead to the root. */
  lemma {:induction false} RunsAreSafe(states: seq<Vol>, ops: seq<Op>, i: nat)
    requires IsRun(states, ops) && i < |states|
    ensures Inv(states[i]) && BlocksOk(states[i]) && Safe(states[i])
    ensures states[i].cur in states[i].depth && Climbed(states[i], states[i].depth[states[i].cur]).cur == 0
    decreases i
  {
    hide Inv, BlocksOk, Safe, Step, Called;
    if i > 0 {
      RunsAreSafe(states, ops, i - 1);
      assert CalledStep(states[i - 1], ops[i - 1], states[i]);
      StepOk(states[i - 1], ops[i - 1]);
    }
    IsSafe(states[i]);
    CurOk(states[i]);
    ClimbReachesRoot(states[i]);
  }

  // ---- cd ..

  /** After n times cd .. */
  function Climbed(s: Vol, n: nat): (s': Vol)
    requires Inv(s)
    ensures Inv(s')
    decreases n
  {
    CdOk(s, "..");
    if n == 0 then s else Climbed(Cd(s, "..").0, n - 1)
  }

  lemma CdUp(s: Vol)
    requires Inv(s)
    ensures Cd(s, "..") == (s.(cur := Up(s, s.cur)), 1)
  {
    CurOk(s);
    CurIsDir(s);
    DirHere(s, s.cur);
    hide Inv;
  }

  /** cd .. leads to the root after exactly as many steps as the directory is deep. */
  lemma {:induction false} ClimbReachesRoot(s: Vol)
    requires Inv(s)
    ensures s.cur in s.depth && (s.depth[s.cur] == 0 <==> s.cur == 0)
    ensures Climbed(s, s.depth[s.cur]).cur == 0
    ensures forall n: nat :: n < s.depth[s.cur] ==> Climbed(s, n).cur != 0
    decreases if s.cur in s.depth then s.depth[s.cur] else 0
  {
    hide Inv, Cd, IsDirNode;
    CurIsDir(s);
    UpIsDir(s, s.cur);
    RootDepth(s);
    if s.cur != 0 {
      CdUp(s);
      CdOk(s, "..");
      var t := Cd(s, "..").0;
      ClimbReachesRoot(t);
      forall n: nat | n < s.depth[s.cur] ensures Climbed(s, n).cur != 0 {
        if n > 0 {
          assert Climbed(s, n) == Climbed(t, n - 1);
        }
      }
    }
  }

  lemma RootDepth(s: Vol)
    requires Inv(s)
    ensures 0 in s.depth && s.depth[0] == 0
  {
  }

  /** cd to a name other than the three special ones leads to a directory of that name made
      under the current one, and fails exactly when the first record with the name is no
      directory or there is none. */
  lemma CdLeads(s: Vol, name: string)
    requires Inv(s) && name != "\\" && name != "." && name != ".." && 0 <= s.cur < |s.fcb|
    requires |s.fcb[s.cur].record| == RECORDS
    ensures var r, (s', res) := s.fcb[s.cur].record, Cd(s, name);
      && (res == 1 ==>
          IsDirNode(s, s'.cur) && Carries(s.fcb, s'.cur, name) && s'.cur in s.parent && s.parent[s'.cur] == s.cur)
      && (res == 1 <==> exists k :: 2 <= k < RECORDS && Carries(s.fcb, r[k], name) && s.fcb[r[k]].isdir
                                    && forall j :: 2 <= j < k ==> !Carries(s.fcb, r[j], name))
      && (res != 1 ==> s' == s)
  {
    CurOk(s);
    FoundKid(s, name, 2);
    hide Inv;
    var r := s.fcb[s.cur].record;
    var k := FindName(s.fcb, r, name, 2);
    forall j | 2 <= j < RECORDS && Carries(s.fcb, r[j], name) && forall l :: 2 <= l < j ==> !Carries(s.fcb, r[l], name)
      ensures j == k
    {
    }
  }

  /** cd to a directory and cd .. is back where it was. */
  lemma CdAndBack(s: Vol, name: string)
    requires Inv(s) && name != "\\" && name != "." && name != ".." && Cd(s, name).1 == 1
    ensures Inv(Cd(s, name).0) && Cd(Cd(s, name).0, "..") == (s, 1)
  {
    CurOk(s);
    CdLeads(s, name);
    CdOk(s, name);
    hide Inv, FindName;
    CdUp(Cd(s, name).0);
  }

  /** The control block a name in the current directory leads to, or -1. */
  function FoundAt(s: Vol, name: string): int
    requires Inv(s)
  {
    CurOk(s);
    var k := FindName(s.fcb, s.fcb[s.cur].record, name, 0);
    if k < RECORDS then s.fcb[s.cur].record[k] else -1
  }

  // ---- what mkdir, mkfile, write and cp make

  /** One new node under the current directory, which records it, in the first free control
      block; everything else that was live is as it was. */
  ghost predicate Makes(s: Vol, s': Vol, i: int, name: string, isdir: bool, size: nat, length: int) {
    && 0 <= i < |s.fcb| == |s'.fcb| && s.fcb[i].id == -1 && (forall j :: 0 <= j < i ==> s.fcb[j].id != -1)
    && s'.parent == s.parent[i := s.cur] && s'.cur == s.cur
    && 0 <= s.cur < |s.fcb|
    && s'.fcb[i].filename == name && s'.fcb[i].isdir == isdir && s'.fcb[i].size == size && s'.fcb[i].length == length
    && (forall x :: 0 <= x < |s.fcb| && s.fcb[x].id != -1 && x != s.cur ==> s'.fcb[x] == s.fcb[x])
    && var f := s.fcb[s.cur];
       0 <= f.length < |f.record| && s'.fcb[s.cur] == f.(record := f.record[f.length := i], length := f.length + 1)
  }

  lemma GrowsMakes(s: Vol, s': Vol, i: int, dots: set<int>)
    requires Inv(s) && Grows(s, s', i, dots) && forall j :: 0 <= j < i ==> s.fcb[j].id != -1
    ensures Makes(s, s', i, s'.fcb[i].filename, s'.fcb[i].isdir, s'.fcb[i].size, s'.fcb[i].length)
  {
    GrowsApart(s, s', i, dots);
    CurOk(s);
    hide Inv;
  }

  /** mkfile makes an empty file of the name exactly when the directory has a record left and
      a control block is free. */
  lemma MkfileMakes(s: Vol, name: string) returns (i: int)
    requires Inv(s) && 0 <= s.cur < |s.fcb|
    ensures Mkfile(s, name).1 == 1 ==> Makes(s, Mkfile(s, name).0, i, name, false, 0, 0)
    ensures Mkfile(s, name).1 == 1
        <==> s.fcb[s.cur].length < RECORDS && exists x :: 0 <= x < |s.fcb| && s.fcb[x].id == -1
    ensures Mkfile(s, name).1 != 1 ==> Mkfile(s, name).0 == s
  {
    hide Inv, Grows, Makes, Added;
    CurOk(s);
    i := FirstFree(s.fcb, 0);
    if Mkfile(s, name).1 == 1 {
      FreeHere(s, i);
      AddedGrows(s, s, i, Fcb(i, name, false, 0, s.fcb[i].record, 0), {});
      GrowsMakes(s, Mkfile(s, name).0, i, {});
    }
  }

  /** mkdir makes an empty directory of the name, unless the directory is full or the control
      block whose number is its length carries the name. */
  lemma MkdirMakes(s: Vol, name: string) returns (i: int)
    requires Inv(s) && Three(s.fcb).2 < |s.fcb| && 0 <= s.cur < |s.fcb|
    ensures Mkdir(s, name).1 == 1 ==> Makes(s, Mkdir(s, name).0, i, name, true, 0, 2)
    ensures Mkdir(s, name).1 == 1 <==> s.fcb[s.cur].length < RECORDS && !Carries(s.fcb, s.fcb[s.cur].length, name)
    ensures Mkdir(s, name).1 != 1 ==> Mkdir(s, name).0 == s
  {
    hide Inv, Grows, Makes, Three, Added;
    CurOk(s);
    i := Three(s.fcb).0;
    if Mkdir(s, name).1 == 1 {
      MkdirGrows(s, name);
      GrowsMakes(s, Mkdir(s, name).0, i, {Three(s.fcb).1, Three(s.fcb).2});
    }
  }

  /** cp makes a file of the new name with the source's size and number of blocks, exactly when
      the source is a file, the new name is not there and a control block is free. */
  lemma CpMakes(s: Vol, src: string, dst: string) returns (i: int)
    requires Inv(s) && BlocksOk(s) && 0 <= s.cur < |s.fcb| && s.fcb[s.cur].length < RECORDS
    ensures Cp(s, src, dst).1 == 1 ==>
      FoundAt(s, src) in s.parent && 0 <= FoundAt(s, src) < |s.fcb|
      && Makes(s, Cp(s, src, dst).0, i, dst, false, s.fcb[FoundAt(s, src)].size, s.fcb[FoundAt(s, src)].length)
    ensures Cp(s, src, dst).1 == 1 <==>
      IsFile(s, FoundAt(s, src)) && FoundAt(s, dst) == -1 && exists x :: 0 <= x < |s.fcb| && s.fcb[x].id == -1
    ensures Cp(s, src, dst).1 != 1 ==> Cp(s, src, dst).0 == s
  {
    hide Inv, BlocksOk, Grows, Makes, Grab, Padded, FindName, Added;
    CurOk(s);
    FoundKid(s, src, 0);
    i := FirstFree(s.fcb, 0);
    if Cp(s, src, dst).1 == 1 {
      var x := FoundAt(s, src);
      FileHere(s, x);
      FreeHere(s, i);
      var m := s.fcb[x].length;
      var (used', found) := Grab(s.used, 0, m);
      var t := s.(used := used');
      var f := Fcb(i, dst, false, s.fcb[x].size, Padded(found, m, 0) + s.fcb[i].record[m..], m);
      CurIsDir(s);
      SameTreeOk(s, t);
      AddedGrows(t, t, i, f, {});
      GrowsMakes(t, Cp(s, src, dst).0, i, {});
      MakesUsed(s, used', Cp(s, src, dst).0, i, dst, s.fcb[x].size, m);
    }
  }

  lemma MakesUsed(s: Vol, used': seq<bool>, s': Vol, i: int, name: string, size: nat, length: int)
    requires Makes(s.(used := used'), s', i, name, false, size, length)
    ensures Makes(s, s', i, name, false, size, length)
  {
  }

  /** As written, the size recorded by a write is the number of characters written exactly when
      they fill no block; the number of blocks is always one more than the full ones. */
  lemma WriteSizesExactly(s: Vol, name: string, n: nat)
    requires Inv(s) && n < RECORDS * BLOCKS && Write(s, name, n).1 == 1
    ensures var x, s' := FoundAt(s, name), Write(s, name, n).0;
      && IsFile(s, x) && s' == s.(used := s'.used, fcb := s.fcb[x := s'.fcb[x]])
      && s'.fcb[x].filename == s.fcb[x].filename
      && (s'.fcb[x].size == n <==> n < BLOCKS)
      && BLOCKS * (s'.fcb[x].length - 1) <= n < BLOCKS * s'.fcb[x].length
      && s'.fcb[x].size == n - BLOCKS * (s'.fcb[x].length - 1)
  {
    CurOk(s);
    FoundKid(s, name, 0);
    hide Inv, FindName, Grab, Padded;
  }

  // ---- rm

  /** Node x has gone, with its "." and ".."; every other control block that was live is live,
      and but for the current directory's own is as it was. */
  ghost predicate Frees(s: Vol, s': Vol, x: int) {
    && x in s.parent && s'.parent == s.parent - {x} && |s'.fcb| == |s.fcb|
    && (forall y :: 0 <= y < |s.fcb| ==>
          (s'.fcb[y].id == -1 <==> s.fcb[y].id == -1 || y == x || (y in s.owner && s.owner[y] == x)))
    && forall y :: 0 <= y < |s.fcb| && s'.fcb[y].id != -1 && y != s.cur ==> s'.fcb[y] == s.fcb[y]
  }

  /** The first record of the name is emptied and the current directory one shorter. */
  ghost predicate Drops(s: Vol, s': Vol, name: string) {
    && 0 <= s.cur < |s.fcb| == |s'.fcb| && s'.cur == s.cur
    && var f := s.fcb[s.cur];
       exists k :: 0 <= k < |f.record| && s'.fcb[s.cur] == f.(record := f.record[k := -1], length := f.length - 1)
         && Carries(s.fcb, f.record[k], name) && forall j :: 0 <= j < k ==> !Carries(s.fcb, f.record[j], name)
  }

  /** rm of a name that is found is refused exactly for a directory that something was made
      under; otherwise that one node goes. */
  lemma RmFreesChildless(s: Vol, name: string)
    requires Inv(s) && name != "." && name != ".." && FoundAt(s, name) != -1
    ensures Rm(s, name).1 == 1 <==> Kids(s, FoundAt(s, name)) == {}
    ensures Rm(s, name).1 == 1 ==> Frees(s, Rm(s, name).0, FoundAt(s, name)) && Drops(s, Rm(s, name).0, name)
    ensures Rm(s, name).1 != 1 ==> Rm(s, name).0 == s
  {
    hide Inv, RecordsOk, WithoutDir, WithoutFile, FindName, Shrinks, Frees, Kids, Drops;
    CurOk(s);
    FoundKid(s, name, 0);
    var x, k := FoundAt(s, name), FindName(s.fcb, s.fcb[s.cur].record, name, 0);
    if s.fcb[x].isdir {
      DirHere(s, x);
    } else {
      FileHasNone(s, x);
    }
    if Rm(s, name).1 == 1 {
      RmShrinks(s, name);
      var dots := if s.fcb[x].isdir then {s.fcb[x].record[0], s.fcb[x].record[1]} else {};
      ShrinksFrees(s, Rm(s, name).0, x, k, dots);
      ShrinksDrops(s, Rm(s, name).0, x, k, dots, name);
    } else {
      SomeKid(s, x);
    }
  }

  lemma SomeKid(s: Vol, x: int)
    requires |Kids(s, x)| > 0
    ensures Kids(s, x) != {}
  {
  }

  lemma ShrinksDrops(s: Vol, s': Vol, x: int, k: nat, dots: set<int>, name: string)
    requires Shrinks(s, s', x, k, dots) && Carries(s.fcb, s.fcb[s.cur].record[k], name)
    requires forall j :: 0 <= j < k ==> !Carries(s.fcb, s.fcb[s.cur].record[j], name)
    ensures Drops(s, s', name)
  {
  }

  lemma ShrinksFrees(s: Vol, s': Vol, x: int, k: nat, dots: set<int>)
    requires Inv(s) && Shrinks(s, s', x, k, dots)
    ensures Kids(s, x) == {} && Frees(s, s', x)
  {
    hide Inv, Kids, Shrinks, IsDirNode;
    CurOk(s);
    CurIsDir(s);
    NodeHere(s, s.cur);
    ShrinksKeeps(s, s', x, k, dots);
  }

  lemma ShrinksKeeps(s: Vol, s': Vol, x: int, k: nat, dots: set<int>)
    requires Shrinks(s, s', x, k, dots) && 0 <= s.cur < |s.fcb| && s.fcb[s.cur].id == s.cur && s.cur !in s.owner
    ensures Kids(s, x) == {} && Frees(s, s', x)
  {
    hide Kids;
    forall y | 0 <= y < |s.fcb| ensures y in dots <==> y in s.owner && s.owner[y] == x {
    }
  }

  // ---- which children the records show

  /** The records of d show everything made under it. */
  ghost predicate Listed(s: Vol, d: int)
    requires 0 <= d < |s.fcb| && |s.fcb[d].record| == RECORDS
  {
    forall x :: x in Kids(s, d) ==> x in s.fcb[d].record[2..]
  }

  /** As written, making something in a directory whose records show everything keeps it so
      exactly when the record behind the length is empty; after a removal further up it need
      not be, and then the entry it held is lost. */
  lemma MakeListsExactly(s: Vol, s': Vol, i: int, dots: set<int>)
    requires Inv(s) && Inv(s') && Grows(s, s', i, dots) && 0 <= s.cur < |s.fcb| && |s.fcb[s.cur].record| == RECORDS
    requires Listed(s, s.cur)
    ensures s'.cur == s.cur && |s'.fcb| == |s.fcb| && |s'.fcb[s.cur].record| == RECORDS
    ensures 0 <= s.fcb[s.cur].length < RECORDS
    ensures Listed(s', s.cur) <==> s.fcb[s.cur].record[s.fcb[s.cur].length] == -1
  {
    hide Inv, Kids;
    CurOk(s);
    CurOk(s');
    CurIsDir(s);
    DirHere(s, s.cur);
    GrowsApart(s, s', i, dots);
    GrowsKids(s, s', i, dots, s.cur);
    KidsNotEmpty(s, s.cur);
    RecordsAreKids(s, s.cur);
    ListsExactly(Kids(s, s.cur), s.fcb[s.cur].record, s.fcb[s.cur].length, i);
  }

  lemma KidsNotEmpty(s: Vol, d: int)
    requires Inv(s)
    ensures -1 !in Kids(s, d)
  {
    NodeHere(s, -1);
    hide Inv;
  }

  lemma RecordsAreKids(s: Vol, d: int)
    requires Inv(s) && IsDirNode(s, d)
    ensures var r := s.fcb[d].record;
      && |r| == RECORDS && (forall j :: 2 <= j < RECORDS && r[j] != -1 ==> r[j] in Kids(s, d))
      && (forall i, j :: 2 <= i < j < RECORDS && r[i] != -1 ==> r[i] != r[j])
  {
    DirHere(s, d);
    hide Inv;
  }

  lemma ListsExactly(kids: set<int>, r: seq<int>, n: nat, i: int)
    requires 2 <= n < |r| && -1 !in kids && i !in kids && (forall x :: x in kids ==> x in r[2..])
    requires forall j :: 2 <= j < |r| && r[j] != -1 ==> r[j] in kids
    requires forall j, k :: 2 <= j < k < |r| && r[j] != -1 ==> r[j] != r[k]
    ensures (forall x :: x in kids + {i} ==> x in r[n := i][2..]) <==> r[n] == -1
  {
    var r' := r[n := i];
    assert r'[2..][n - 2] == i;
    if r[n] == -1 {
      forall x | x in kids ensures x in r'[2..] {
        var j :| 0 <= j < |r[2..]| && r[2..][j] == x;
        assert r'[2..][j] == x;
      }
    } else {
      assert forall j :: 0 <= j < |r'[2..]| ==> r'[2..][j] == r'[j + 2] != r[n];
      assert r[n] in kids + {i} && r[n] !in r'[2..];
    }
  }

  /** For mkfile, in terms of the directory alone. */
  lemma MkfileListsExactly(s: Vol, name: string)
    requires Inv(s) && Mkfile(s, name).1 == 1 && 0 <= s.cur < |s.fcb| && |s.fcb[s.cur].record| == RECORDS
    requires Listed(s, s.cur)
    ensures var s', f := Mkfile(s, name).0, s.fcb[s.cur];
      && 0 <= f.length < RECORDS && s'.cur == s.cur && |s'.fcb| == |s.fcb| && |s'.fcb[s.cur].record| == RECORDS
      && (Listed(s', s.cur) <==> f.record[f.length] == -1)
  {
    hide Inv, FirstFree, Grows, Added, Listed;
    MkfileOk(s, name);
    CurOk(s);
    var i := FirstFree(s.fcb, 0);
    FreeHere(s, i);
    AddedGrows(s, s, i, Fcb(i, name, false, 0, s.fcb[i].record, 0), {});
    MakeListsExactly(s, Mkfile(s, name).0, i, {});
  }
}
