/** What each command answers and changes, told from the table of control blocks: when a name is
    found, which blocks rm gives back, where cd leads. */
module VfsAnswers {
  import opened Vfs
  import opened VfsTree
  import opened VfsBlocks
  import opened VfsRuns

  // ---- names

  /** Record k of the current directory is the first one, from record `from` on, whose control
      block carries the name. */
  ghost predicate FirstWith(s: Vol, name: string, from: nat, k: int) {
    && 0 <= s.cur < |s.fcb| && |s.fcb[s.cur].record| == RECORDS && from <= k < RECORDS
    && Carries(s.fcb, s.fcb[s.cur].record[k], name)
    && forall j :: from <= j < k ==> !Carries(s.fcb, s.fcb[s.cur].record[j], name)
  }

  /** The control block found for a name is that of the first record that carries it; -1 stands
      for none. */
  lemma FoundMeans(s: Vol, name: string)
    requires Inv(s) && 0 <= s.cur < |s.fcb| && |s.fcb[s.cur].record| == RECORDS
    ensures FoundAt(s, name) == -1 <==> forall k :: 0 <= k < RECORDS ==> !Carries(s.fcb, s.fcb[s.cur].record[k], name)
    ensures FoundAt(s, name) != -1 ==>
        exists k :: FirstWith(s, name, 0, k) && FoundAt(s, name) == s.fcb[s.cur].record[k]
  {
    hide Inv;
    CurOk(s);
    var k := FindName(s.fcb, s.fcb[s.cur].record, name, 0);
    if k < RECORDS {
      assert FirstWith(s, name, 0, k);
    }
  }

  /** write takes place exactly when the first record of the name, whichever of the ten it is, is
      a file's; otherwise it answers 110 and changes nothing. */
  lemma WriteFinds(s: Vol, name: string, n: nat)
    requires Inv(s) && n < RECORDS * BLOCKS
    ensures Write(s, name, n).1 == if IsFile(s, FoundAt(s, name)) then 1 else WRITE_FILE_NOT_FOUND
    ensures Write(s, name, n).1 != 1 ==> Write(s, name, n).0 == s
  {
    CurOk(s);
    FoundKid(s, name, 0);
    hide Inv, FindName, Overwritten;
  }

  // ---- the blocks that write and cp take

  /** mkfile, mkdir and cd mark no block and give none back. */
  lemma MakeTakesNone(s: Vol, name: string)
    requires Inv(s)
    ensures Mkfile(s, name).0.used == s.used && Cd(s, name).0.used == s.used
    ensures Three(s.fcb).2 < |s.fcb| ==> Mkdir(s, name).0.used == s.used
  {
    hide Inv, Three, FirstFree, FindName, Nones;
    CurOk(s);
  }

  /** The records of a file that has asked for m blocks and found these: the blocks, in order, and
      behind them what the search's array was filled with. */
  ghost predicate Records(r: seq<int>, found: seq<int>, m: nat, first: int) {
    && |r| == RECORDS && |found| <= m <= RECORDS && r[..|found|] == found
    && (forall i :: |found| <= i < m ==> r[i] == if i == 0 then first else 0)
    && forall i :: m <= i < RECORDS ==> r[i] == -1
  }

  lemma PaddedRecords(found: seq<int>, m: nat, first: int)
    requires |found| <= m <= RECORDS
    ensures Records(Padded(found, m, first) + Nones(RECORDS - m), found, m, first)
  {
  }

  /** write marks the first free blocks and records them in order, one more than the characters fill;
      where there are too few it records block 0 in place of those missing, or no block in place of
      the first. */
  lemma WriteTakes(s: Vol, name: string, n: nat) returns (found: seq<int>)
    requires Inv(s) && n < RECORDS * BLOCKS && Write(s, name, n).1 == 1
    ensures var x, m, s' := FoundAt(s, name), n / BLOCKS + 1, Write(s, name, n).0;
      && 0 <= x < |s'.fcb| && Taken(s.used, s'.used, 0, found)
      && |found| == (if m <= FreeFrom(s.used, 0) then m else FreeFrom(s.used, 0))
      && Records(s'.fcb[x].record, found, m, -1)
  {
    hide Inv, FindName, Grab, Padded, Overwritten, FreeFrom, Records, Taken;
    CurOk(s);
    FoundKid(s, name, 0);
    var m := n / BLOCKS + 1;
    OverwrittenIs(s, FoundAt(s, name), n);
    GrabTakes(s.used, 0, m);
    found := Grab(s.used, 0, m).1;
    PaddedRecords(found, m, -1);
  }

  /** So does cp, for as many blocks as its source has. */
  lemma CpTakes(s: Vol, src: string, dst: string) returns (i: int, found: seq<int>)
    requires Inv(s) && BlocksOk(s) && 0 <= s.cur < |s.fcb| && s.fcb[s.cur].length < RECORDS && Cp(s, src, dst).1 == 1
    ensures var x, s' := FoundAt(s, src), Cp(s, src, dst).0;
      && 0 <= x < |s.fcb| && 0 <= i < |s'.fcb| && s'.fcb[i].filename == dst && s.fcb[i].id == -1
      && 0 <= s.fcb[x].length <= RECORDS && Taken(s.used, s'.used, 0, found)
      && |found| == (if s.fcb[x].length <= FreeFrom(s.used, 0) then s.fcb[x].length else FreeFrom(s.used, 0))
      && Records(s'.fcb[i].record, found, s.fcb[x].length, 0)
  {
    hide Inv, BlocksOk, FindName, Grab, Padded, FreeFrom, Records, Taken, FirstFree;
    CurOk(s);
    FoundKid(s, src, 0);
    FileHere(s, FoundAt(s, src));
    var m := s.fcb[FoundAt(s, src)].length;
    i := FirstFree(s.fcb, 0);
    FreeHere(s, i);
    GrabTakes(s.used, 0, m);
    found := Grab(s.used, 0, m).1;
    assert s.fcb[i].record[m..] == Nones(RECORDS - m);
    PaddedRecords(found, m, 0);
  }

  // ---- rm and the blocks

  /** rm of a file gives back the blocks it records, all of them and no others; rm of a directory
      none. */
  lemma RmGivesBack(s: Vol, name: string)
    requires Inv(s) && BlocksOk(s) && name != "." && name != ".." && Rm(s, name).1 == 1
    ensures var x, used' := FoundAt(s, name), Rm(s, name).0.used;
      && |used'| == |s.used|
      && forall b :: 0 <= b < |s.used| ==> (used'[b] <==> s.used[b] && !exists i :: Holds(s, x, i, b))
  {
    hide Inv, BlocksOk, FindName;
    CurOk(s);
    FoundKid(s, name, 0);
    var x, used' := FoundAt(s, name), Rm(s, name).0.used;
    if !s.fcb[x].isdir {
      forall b | 0 <= b < |s.used| ensures b in s.fcb[x].record <==> exists i :: Holds(s, x, i, b) {
        if i :| 0 <= i < |s.fcb[x].record| && s.fcb[x].record[i] == b {
          assert Holds(s, x, i, b);
        }
      }
    } else {
      DirLength(s, FindName(s.fcb, s.fcb[s.cur].record, name, 0));
    }
  }

  lemma DirLength(s: Vol, k: nat)
    requires Inv(s) && 2 <= k < RECORDS && 0 <= s.cur < |s.fcb| && |s.fcb[s.cur].record| == RECORDS
    requires 0 <= s.fcb[s.cur].record[k] < |s.fcb| && s.fcb[s.fcb[s.cur].record[k]].isdir
    ensures s.fcb[s.fcb[s.cur].record[k]].length >= 2
  {
    FoundDir(s, k);
    DirHere(s, s.fcb[s.cur].record[k]);
    hide Inv, Kids;
  }

  lemma {:induction false} FreeOne(used: seq<bool>, b: nat, i: nat)
    requires i <= |used| && b < |used| && used[b]
    ensures FreeFrom(used[b := false], i) == FreeFrom(used, i) + if i <= b then 1 else 0
    decreases |used| - i
  {
    if i < |used| {
      FreeOne(used, b, i + 1);
    }
  }

  /** Different used blocks, given back. */
  lemma {:induction false} FreedCount(used: seq<bool>, r: seq<int>)
    requires forall i :: 0 <= i < |r| ==> 0 <= r[i] < |used| && used[r[i]]
    requires forall i, j :: 0 <= i < j < |r| ==> r[i] != r[j]
    ensures FreeFrom(Freed(used, r), 0) == FreeFrom(used, 0) + |r|
    decreases |r|
  {
    if r == [] {
      assert Freed(used, r) == used;
    } else {
      var one := used[r[0] := false];
      FreeOne(used, r[0], 0);
      forall i | 0 <= i < |r[1..]| ensures 0 <= r[1..][i] < |one| && one[r[1..][i]] {
        assert r[0] != r[i + 1];
      }
      FreedCount(one, r[1..]);
      assert r == [r[0]] + r[1..];
      assert Freed(used, r) == Freed(one, r[1..]);
    }
  }

  /** So the free blocks grow by the file's length. */
  lemma RmFreesLength(s: Vol, name: string)
    requires Inv(s) && BlocksOk(s) && name != "." && name != ".." && Rm(s, name).1 == 1
    ensures var x := FoundAt(s, name);
      && 0 <= x < |s.fcb|
      && FreeFrom(Rm(s, name).0.used, 0) == FreeFrom(s.used, 0) + if s.fcb[x].isdir then 0 else s.fcb[x].length
  {
    hide Inv, BlocksOk, FindName, Rm, FreeFrom, FileOk, Holds;
    RmGivesBack(s, name);
    CurOk(s);
    FoundKid(s, name, 0);
    var x, used' := FoundAt(s, name), Rm(s, name).0.used;
    RmFound(s, name);
    if s.fcb[x].isdir {
      HoldsNothing(s, x);
      assert used' == s.used;
    } else {
      HeldApart(s, x);
      var r := s.fcb[x].record[..s.fcb[x].length];
      FreedCount(s.used, r);
      forall b | 0 <= b < |s.used| ensures b in r <==> exists i :: Holds(s, x, i, b) {
        HeldIs(s, x, b);
      }
      assert used' == Freed(s.used, r);
    }
  }

  lemma RmFound(s: Vol, name: string)
    requires Inv(s) && name != "." && name != ".." && Rm(s, name).1 == 1
    ensures 0 <= FoundAt(s, name) < |s.fcb| && FoundAt(s, name) in s.parent
  {
    hide Inv, FindName, WithoutDir, WithoutFile;
    CurOk(s);
    FoundKid(s, name, 0);
  }

  lemma HoldsNothing(s: Vol, x: int)
    requires 0 <= x < |s.fcb| && s.fcb[x].isdir
    ensures forall i, b :: !Holds(s, x, i, b)
  {
  }

  lemma HeldIs(s: Vol, x: int, b: int)
    requires BlocksOk(s) && IsFile(s, x) && 0 <= b && 0 <= s.fcb[x].length <= |s.fcb[x].record|
    ensures b in s.fcb[x].record[..s.fcb[x].length] <==> exists i :: Holds(s, x, i, b)
  {
    hide BlocksOk;
    HeldApart(s, x);
    var r := s.fcb[x].record[..s.fcb[x].length];
    if b in r {
      var i :| 0 <= i < |r| && r[i] == b;
      assert Holds(s, x, i, b);
    }
    if i :| Holds(s, x, i, b) {
      assert r[i] == b;
    }
  }

  /** The blocks a file holds are its first records, different, and used. */
  lemma HeldApart(s: Vol, x: int)
    requires BlocksOk(s) && IsFile(s, x)
    ensures var f := s.fcb[x];
      && 0 <= f.length <= RECORDS == |f.record|
      && (forall i :: 0 <= i < f.length ==> 0 <= f.record[i] < |s.used| && s.used[f.record[i]])
      && (forall i, j :: 0 <= i < j < f.length ==> f.record[i] != f.record[j])
      && (forall i, b :: Holds(s, x, i, b) ==> i < f.length)
  {
    FileHere(s, x);
    var f := s.fcb[x];
    forall i, j | 0 <= i < j < f.length ensures f.record[i] != f.record[j] {
      assert Holds(s, x, i, f.record[i]) && Holds(s, x, j, f.record[j]);
    }
  }

  /** A write and rm of the file: the blocks marked are those marked before the write, exactly when
      there were enough free ones, or none at all and one was asked for. The blocks that a file
      held before it was written stay marked. */
  lemma WriteThenRm(s: Vol, name: string, n: nat)
    requires Inv(s) && BlocksOk(s) && n < RECORDS * BLOCKS && name != "." && name != ".." && Write(s, name, n).1 == 1
    ensures var s1 := Write(s, name, n).0;
      && Inv(s1) && Rm(s1, name).1 == 1
      && (Rm(s1, name).0.used == s.used
          <==> n / BLOCKS + 1 <= FreeFrom(s.used, 0) || (n < BLOCKS && FreeFrom(s.used, 0) == 0))
  {
    hide Inv, BlocksOk, FindName, FreeFrom, Grab, Padded, Overwritten;
    CurOk(s);
    FoundKid(s, name, 0);
    WriteOk(s, name, n);
    var x, m := FoundAt(s, name), n / BLOCKS + 1;
    var s1, k := Write(s, name, n).0, FindName(s.fcb, s.fcb[s.cur].record, name, 0);
    OverwrittenIs(s, x, n);
    SameFound(s, s1, name, x);
    assert Rm(s1, name) == (WithoutFile(s1, k, x), 1);
    GrabTakes(s.used, 0, m);
    SystemUsed(s);
    TakenBack(s.used, s1.used, Grab(s.used, 0, m).1, m, s1.fcb[x].record);
  }

  lemma OverwrittenIs(s: Vol, x: int, n: nat)
    requires 0 <= x < |s.fcb| && n < RECORDS * BLOCKS
    ensures var s1, m := Overwritten(s, x, n), n / BLOCKS + 1;
      && |s1.fcb| == |s.fcb| && s1.cur == s.cur && (forall y :: 0 <= y < |s.fcb| && y != x ==> s1.fcb[y] == s.fcb[y])
      && s1.fcb[x].filename == s.fcb[x].filename && s1.fcb[x].isdir == s.fcb[x].isdir
      && s1.used == Grab(s.used, 0, m).0
      && s1.fcb[x].record == Padded(Grab(s.used, 0, m).1, m, -1) + Nones(RECORDS - m)
  {
    hide Grab, Padded;
  }

  lemma {:induction false} SameNames(fcb: seq<Fcb>, fcb': seq<Fcb>, record: seq<int>, name: string, i: nat)
    requires i <= |record| && |fcb'| == |fcb| && forall y :: 0 <= y < |fcb| ==> fcb'[y].filename == fcb[y].filename
    ensures FindName(fcb', record, name, i) == FindName(fcb, record, name, i)
    decreases |record| - i
  {
    if i < |record| {
      SameNames(fcb, fcb', record, name, i + 1);
    }
  }

  lemma SameFound(s: Vol, s1: Vol, name: string, x: int)
    requires 0 <= s.cur < |s.fcb| == |s1.fcb| && s1.cur == s.cur && 0 <= x < |s.fcb| && x != s.cur
    requires forall y :: 0 <= y < |s.fcb| && y != x ==> s1.fcb[y] == s.fcb[y]
    requires s1.fcb[x].filename == s.fcb[x].filename
    ensures s1.fcb[s.cur].record == s.fcb[s.cur].record
    ensures var r := s.fcb[s.cur].record; FindName(s1.fcb, r, name, 0) == FindName(s.fcb, r, name, 0)
  {
    forall y | 0 <= y < |s.fcb| ensures s1.fcb[y].filename == s.fcb[y].filename {
      assert y != x ==> s1.fcb[y] == s.fcb[y];
    }
    SameNames(s.fcb, s1.fcb, s.fcb[s.cur].record, name, 0);
  }

  lemma TakenBack(used: seq<bool>, used': seq<bool>, found: seq<int>, m: nat, r: seq<int>)
    requires Taken(used, used', 0, found) && |found| <= m <= RECORDS && r == Padded(found, m, -1) + Nones(RECORDS - m)
    requires m > 0 && |used| > 0 && used[0]
    ensures Freed(used', r) == used <==> |found| == m || (m == 1 && found == [])
  {
    assert forall i :: 0 <= i < |found| ==> r[i] == found[i] && found[i] in found;
    if |found| == m || (m == 1 && found == []) {
      forall b | 0 <= b < |used| ensures b in r <==> b in found {
        if b in found {
          var i :| 0 <= i < |found| && found[i] == b;
          assert r[i] == b;
        }
      }
      assert Freed(used', r) == used;
    } else {
      assert r[m - 1] == 0;
      assert !Freed(used', r)[0];
    }
  }

  /** rm of "." or "..", whose control block goes the way of a file's: the block whose number is
      the directory's that the entry leads to is marked free. */
  lemma RmDotFrees(s: Vol, name: string)
    requires Inv(s) && (name == "." || name == "..")
    ensures var d, used' := if name == "." then s.cur else Up(s, s.cur), Rm(s, name).0.used;
      && Rm(s, name).1 == 1 && |used'| == |s.used|
      && forall b :: 0 <= b < |s.used| ==> (used'[b] <==> s.used[b] && b != d)
  {
    hide Inv, Rm, Kids, RecordsOk, IsDirNode;
    RmDot(s, name);
    CurIsDir(s);
    DirHere(s, s.cur);
    var k, d := if name == "." then 0 else 1, if name == "." then s.cur else Up(s, s.cur);
    var r := s.fcb[s.fcb[s.cur].record[k]].record;
    assert r == Nones(RECORDS)[0 := d] && r[0] == d;
  }

  // ---- cd

  lemma {:induction false} ClimbedOnly(s: Vol, n: nat)
    requires Inv(s)
    ensures Climbed(s, n) == s.(cur := Climbed(s, n).cur)
    decreases n
  {
    hide Inv, Cd;
    if n > 0 {
      CdOk(s, "..");
      ClimbedOnly(Cd(s, "..").0, n - 1);
    }
  }

  /** cd to the root leads, from everywhere, where cd .. leads when it has been repeated until the
      top is reached; cd to "." leads nowhere else. Both succeed. */
  lemma CdRoot(s: Vol)
    requires Inv(s)
    ensures s.cur in s.depth && Cd(s, "\\") == (Climbed(s, s.depth[s.cur]), 1) && Cd(s, "\\").0.cur == 0
    ensures Cd(s, ".") == (s, 1)
  {
    CurOk(s);
    ClimbReachesRoot(s);
    ClimbedOnly(s, s.depth[s.cur]);
    hide Inv, Climbed;
  }

  // ---- answers

  /** The answers of the other commands, told from the table. */
  lemma Answers(s: Vol, name: string)
    requires Inv(s) && 0 <= s.cur < |s.fcb|
    ensures Mkfile(s, name).1 ==
      if s.fcb[s.cur].length == RECORDS then MKFILE_IS_FULL
      else if exists x :: 0 <= x < |s.fcb| && s.fcb[x].id == -1 then 1 else NO_SPACE
    ensures Three(s.fcb).2 < |s.fcb| ==>
        Mkdir(s, name).1 == (if s.fcb[s.cur].length == RECORDS then MKDIR_IS_FULL
                             else if Carries(s.fcb, s.fcb[s.cur].length, name) then MKDIR_CONFLICT_NAME else 1)
    ensures Cd(s, name).1 in {1, PATH_NOT_FOUND}
    ensures Rm(s, name).1 ==
      if FoundAt(s, name) == -1 then PATH_NOT_FOUND
      else if name != "." && name != ".." && Kids(s, FoundAt(s, name)) != {} then DIR_IS_NOT_EMPTY else 1
  {
    hide Inv, Three, Added, FindName, Rm, Kids, WithDots, Nones;
    CurOk(s);
    RmAnswers(s, name);
  }

  lemma RmAnswers(s: Vol, name: string)
    requires Inv(s)
    ensures Rm(s, name).1 ==
      if FoundAt(s, name) == -1 then PATH_NOT_FOUND
      else if name != "." && name != ".." && Kids(s, FoundAt(s, name)) != {} then DIR_IS_NOT_EMPTY else 1
  {
    hide Inv, WithoutDir, WithoutFile, Kids, FindName;
    CurOk(s);
    if name == "." || name == ".." {
      RmDot(s, name);
    } else if FoundAt(s, name) != -1 {
      RmFreesChildless(s, name);
      hide FoundAt;
      RmCodes(s, name);
    }
  }

  lemma RmCodes(s: Vol, name: string)
    requires Inv(s)
    ensures Rm(s, name).1 in {1, PATH_NOT_FOUND, DIR_IS_NOT_EMPTY}
    ensures Rm(s, name).1 == PATH_NOT_FOUND <==> FoundAt(s, name) == -1
  {
    CurOk(s);
    hide Inv, WithoutDir, WithoutFile, FindName;
  }

  /** cp, when it makes nothing: no such file, or the new name is taken, or no control block is
      free. */
  lemma CpAnswers(s: Vol, src: string, dst: string)
    requires Inv(s) && BlocksOk(s) && 0 <= s.cur < |s.fcb| && s.fcb[s.cur].length < RECORDS
    ensures Cp(s, src, dst).1 ==
      if !IsFile(s, FoundAt(s, src)) then SRCFILE_NOT_FOUND
      else if FoundAt(s, dst) != -1 then DSTFILE_IS_EXIST
      else if exists x :: 0 <= x < |s.fcb| && s.fcb[x].id == -1 then 1 else NO_SPACE
  {
    CurOk(s);
    FoundKid(s, src, 0);
    hide Inv, BlocksOk, FindName, Added, Grab, Padded;
  }
}
