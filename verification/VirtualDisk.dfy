/** The program: the control blocks, the table of free blocks and the current directory,
    changed in place. */
module VirtualDisks {
  import opened Vfs
  import opened VfsTree
  import opened VfsBlocks
  import opened VfsRuns


  class VirtualDisk {
    const fcb: array<Fcb>
    const used: array<bool>
    var cur: int
    ghost var parent: map<int, int>
    ghost var depth: map<int, nat>
    ghost var owner: map<int, int>

    constructor (fcb: array<Fcb>, used: array<bool>)
      requires RECORDS <= fcb.Length <= used.Length == BLOCKS
      modifies fcb, used
      ensures this.fcb == fcb && this.used == used && Valid() && Now() == Formatted(fcb.Length)
    {
      this.fcb, this.used := fcb, used;
      new;
      MFormat();
    }

    ghost function Now(): Vol
      reads this, fcb, used
    {
      Vol(fcb[..], used[..], cur, parent, depth, owner)
    }

    ghost predicate Valid()
      reads this, fcb, used
    {
      Inv(Now()) && BlocksOk(Now()) && fcb.Length <= used.Length
    }

    method MFormat()
      requires RECORDS <= fcb.Length <= used.Length == BLOCKS
      modifies this, fcb, used
      ensures Valid() && Now() == Formatted(fcb.Length)
    {
      hide Inv, BlocksOk;
      for i := 0 to BLOCKS
        invariant forall b :: 0 <= b < i ==> (used[b] <==> b < SYSTEM)
      {
        used[i] := i < SYSTEM;
      }
      for i := 0 to fcb.Length
        invariant forall x :: 0 <= x < i ==> fcb[x] == FreeFcb(false)
        invariant forall b :: 0 <= b < BLOCKS ==> (used[b] <==> b < SYSTEM)
      {
        fcb[i] := FreeFcb(false);
      }
      fcb[0] := Fcb(0, "\\", true, 0, Nones(RECORDS)[0 := 1][1 := 2], 2);
      fcb[1] := Fcb(1, ".", true, 0, Nones(RECORDS)[0 := 0], 1);
      fcb[2] := Fcb(2, "..", true, 0, Nones(RECORDS)[0 := 0], 1);
      cur := 0;
      parent, depth, owner := map[], map[0 := 0], map[1 := 0, 2 := 0];
      FormattedOk(fcb.Length);
      assert fcb[..] == Formatted(fcb.Length).fcb;
      assert used[..] == Formatted(fcb.Length).used;
    }

    method FindFree(start: nat) returns (i: nat)
      requires start <= fcb.Length
      ensures i == FirstFree(fcb[..], start)
    {
      i := start;
      while i < fcb.Length
        invariant start <= i <= fcb.Length && FirstFree(fcb[..], start) == FirstFree(fcb[..], i)
      {
        if fcb[i].id == -1 {
          break;
        }
        i := i + 1;
      }
    }

    method FindRecord(record: seq<int>, name: string, start: nat) returns (k: nat)
      requires start <= |record| && forall i :: 0 <= i < |record| ==> record[i] == -1 || 0 <= record[i] < fcb.Length
      ensures k == FindName(fcb[..], record, name, start)
    {
      k := start;
      while k < |record|
        invariant start <= k <= |record| && FindName(fcb[..], record, name, start) == FindName(fcb[..], record, name, k)
      {
        if record[k] != -1 && fcb[record[k]].filename == name {
          break;
        }
        k := k + 1;
      }
    }

    /** The search for n free blocks, marking each as it is found. */
    method TakeBlocks(n: nat, first: int) returns (block: seq<int>)
      requires 0 < n <= RECORDS
      modifies used
      ensures used[..] == Grab(old(used[..]), 0, n).0 && block == Padded(Grab(old(used[..]), 0, n).1, n, first)
    {
      hide Grab;
      var taken := new int[n](j => if j == 0 then first else 0);
      var findnum, i := 0, 0;
      while i < used.Length
        invariant 0 <= i <= used.Length && 0 <= findnum < n
        invariant Grab(old(used[..]), 0, n).0 == Grab(used[..], i, n - findnum).0
        invariant Grab(old(used[..]), 0, n).1 == taken[..findnum] + Grab(used[..], i, n - findnum).1
        invariant forall j :: findnum <= j < n ==> taken[j] == if j == 0 then first else 0
      {
        GrabStep(used[..], i, n - findnum);
        if !used[i] {
          used[i] := true;
          taken[findnum] := i;
          findnum := findnum + 1;
          GrabStops(used[..], i + 1, 0);
          if findnum == n {
            break;
          }
        }
        i := i + 1;
      }
      GrabStops(used[..], i, n - findnum);
      assert Grab(old(used[..]), 0, n).1 == taken[..findnum];
      block := taken[..];
    }

    static lemma GrabStep(used: seq<bool>, i: nat, n: nat)
      requires i < |used| && n > 0
      ensures used[i] ==> Grab(used, i, n) == Grab(used, i + 1, n)
      ensures !used[i] ==>
          var q := Grab(used[i := true], i + 1, n - 1); Grab(used, i, n).0 == q.0 && Grab(used, i, n).1 == [i] + q.1
    {
    }

    static lemma GrabStops(used: seq<bool>, i: nat, n: nat)
      requires i <= |used|
      ensures i == |used| || n == 0 ==> Grab(used, i, n) == (used, [])
    {
    }

    method MMkfile(filename: string) returns (res: int)
      requires Valid()
      modifies this, fcb
      ensures Valid() && (Now(), res) == Mkfile(old(Now()), filename)
    {
      ghost var s := Now();
      hide Inv, BlocksOk, FirstFree, Added, Linked;
      MkfileOk(s, filename);
      MkfileBlocks(s, filename);
      CurOk(s);
      if fcb[cur].length == RECORDS {
        return MKFILE_IS_FULL;
      }
      var i := FindFree(0);
      if i == fcb.Length {
        return NO_SPACE;
      }
      FreeHere(s, i);
      fcb[i] := Fcb(i, filename, false, 0, fcb[i].record, 0);
      AddedIsLinked(s, i, fcb[i]);
      Record(i);
      return 1;
    }

    static lemma AddedIsLinked(s: Vol, i: int, f: Fcb)
      requires HasRecord(s) && 0 <= i < |s.fcb| && s.cur in s.depth && i != s.cur
      ensures HasRecord(s.(fcb := s.fcb[i := f])) && Added(s, i, f) == Linked(s.(fcb := s.fcb[i := f]), i)
    {
      assert s.fcb[i := f][s.cur] == s.fcb[s.cur];
    }

    /** The end of mkdir, mkfile and cp: the new number goes behind the directory's length. */
    method Record(i: int)
      requires HasRecord(Now()) && cur in depth
      modifies this, fcb
      ensures Now() == Linked(old(Now()), i)
    {
      fcb[cur] := fcb[cur].(record := fcb[cur].record[fcb[cur].length := i], length := fcb[cur].length + 1);
      parent, depth := parent[i := cur], depth[i := depth[cur] + 1];
    }

    method MMkdir(dirname: string) returns (res: int)
      requires Valid() && Three(fcb[..]).2 < fcb.Length
      modifies this, fcb
      ensures Valid() && (Now(), res) == Mkdir(old(Now()), dirname)
    {
      ghost var s := Now();
      hide Inv, BlocksOk, FirstFree, Three, Added;
      MkdirOk(s, dirname);
      MkdirBlocks(s, dirname);
      CurOk(s);
      if fcb[cur].length == RECORDS {
        return MKDIR_IS_FULL;
      }
      for i := 0 to fcb[cur].length
        invariant i > 0 ==> fcb[fcb[cur].length].filename != dirname
      {
        if fcb[fcb[cur].length].filename == dirname {
          return MKDIR_CONFLICT_NAME;
        }
      }
      MakeDir(dirname);
      return 1;
    }

    /** A directory made under the current one, with its dot entries. */
    static function NewDir(s: Vol, name: string): Vol
      requires Three(s.fcb).2 < |s.fcb| && HasRecord(s) && s.cur in s.depth
      requires var (i, a, b) := Three(s.fcb); HasRecord(WithDots(s, i, a, b))
    {
      var (i, a, b) := Three(s.fcb);
      Added(WithDots(s, i, a, b), i, Fcb(i, name, true, 0, Nones(RECORDS)[0 := a][1 := b], 2))
    }

    static lemma {:induction false} FreeBehindUpdate(fcb: seq<Fcb>, i: nat, f: Fcb, start: nat)
      requires i < start <= |fcb|
      ensures FirstFree(fcb[i := f], start) == FirstFree(fcb, start)
      decreases |fcb| - start
    {
      if start < |fcb| {
        FreeBehindUpdate(fcb, i, f, start + 1);
      }
    }

    /** Looking on from a control block just filled finds the next free one. */
    static lemma NextFree(fcb: seq<Fcb>, i: nat, f: Fcb)
      requires i < |fcb| && f.id != -1
      ensures FirstFree(fcb[i := f], i) == FirstFree(fcb, i + 1)
    {
      FreeBehindUpdate(fcb, i, f, i + 1);
    }

    static lemma MkdirCases(s: Vol, name: string)
      requires Inv(s) && Three(s.fcb).2 < |s.fcb|
      ensures 0 <= s.cur < |s.fcb| && s.cur in s.depth && s.fcb[s.cur].id == s.cur
      ensures var (i, a, b) := Three(s.fcb);
        i != s.cur && a != s.cur && b != s.cur && (HasRecord(s) ==> HasRecord(WithDots(s, i, a, b)))
    {
      var (i, a, b) := Three(s.fcb);
      CurOk(s);
      FreeHere(s, i);
      FreeHere(s, a);
      FreeHere(s, b);
      hide Inv, Three;
      DotsMade(s, i, a, b);
    }

    method MakeDir(dirname: string)
      requires Valid() && Three(fcb[..]).2 < fcb.Length && HasRecord(Now())
      modifies this, fcb
      ensures var (i, a, b) := Three(old(fcb[..]));
        cur == old(cur) && HasRecord(WithDots(old(Now()), i, a, b)) && old(cur) in old(depth)
          && Now() == NewDir(old(Now()), dirname)
    {
      ghost var s := Now();
      hide Inv, BlocksOk, Linked, Three;
      MkdirCases(s, dirname);
      var i, a, b := FillThree(dirname);
      owner := owner[a := i][b := i];
      AddedIsLinked(WithDots(s, i, a, b), i, fcb[i]);
      Record(i);
    }

    /** Fills the three control blocks of a new directory. */
    method FillThree(dirname: string) returns (i: nat, a: nat, b: nat)
      requires 0 <= cur < fcb.Length && Three(fcb[..]).2 < fcb.Length && Three(fcb[..]).0 != cur
      requires Three(fcb[..]).1 != cur
      modifies fcb
      ensures (i, a, b) == Three(old(fcb[..]))
      ensures fcb[..] == old(fcb[..])[a := Fcb(a, ".", true, 0, Nones(RECORDS)[0 := i], 1)]
                                     [b := Fcb(b, "..", true, 0, Nones(RECORDS)[0 := old(fcb[cur].id)], 1)]
                                     [i := Fcb(i, dirname, true, 0, Nones(RECORDS)[0 := a][1 := b], 2)]
    {
      hide FirstFree, Nones;
      ghost var f := fcb[..];
      i := FindFree(0);
      ghost var x := Fcb(i, dirname, true, 0, Nones(RECORDS), 2);
      fcb[i] := Fcb(i, dirname, true, 0, Nones(RECORDS), 2);
      assert fcb[..] == f[i := x];
      NextFree(f, i, x);
      a := FindFree(i);
      ghost var y := Fcb(a, ".", true, 0, Nones(RECORDS)[0 := i], 1);
      fcb[a] := Fcb(a, ".", true, 0, Nones(RECORDS)[0 := i], 1);
      assert fcb[..] == f[i := x][a := y];
      NextFree(f[i := x], a, y);
      FreeBehindUpdate(f, i, x, a + 1);
      b := FindFree(a);
      fcb[b] := Fcb(b, "..", true, 0, Nones(RECORDS)[0 := fcb[cur].id], 1);
      fcb[i] := fcb[i].(record := fcb[i].record[0 := a][1 := b]);
    }

    method MCd(dir: string) returns (res: int)
      requires Valid()
      modifies `cur
      ensures Valid() && (Now(), res) == Cd(old(Now()), dir)
    {
      ghost var s := Now();
      hide Inv, BlocksOk, FindName;
      CdOk(s, dir);
      CdBlocks(s, dir);
      CurOk(s);
      if dir == "\\" {
        cur := 0;
        return 1;
      }
      if dir == "." {
        return 1;
      } else if dir == ".." {
        cur := fcb[fcb[cur].record[1]].record[0];
        return 1;
      }
      var i := FindRecord(fcb[cur].record, dir, 2);
      if i == RECORDS || !fcb[fcb[cur].record[i]].isdir {
        return PATH_NOT_FOUND;
      }
      cur := fcb[cur].record[i];
      return 1;
    }

    /** write of n characters; which characters they are is left out. */
    method MWrite(filename: string, n: nat) returns (res: int)
      requires Valid() && n < RECORDS * BLOCKS
      modifies fcb, used
      ensures Inv(Now()) && (Now(), res) == Write(old(Now()), filename, n)
      ensures res == 1 ==> (Valid() <==> n / BLOCKS + 1 <= FreeFrom(old(used[..]), 0))
      ensures res != 1 ==> Valid()
    {
      ghost var s := Now();
      hide Inv, BlocksOk, FindName, Grab, FreeFrom, Padded;
      WriteOk(s, filename, n);
      CurOk(s);
      if Write(s, filename, n).1 == 1 {
        WriteBlocksExactly(s, filename, n);
      }
      var i := FindRecord(fcb[cur].record, filename, 0);
      if i == RECORDS || fcb[fcb[cur].record[i]].isdir {
        return WRITE_FILE_NOT_FOUND;
      }
      var blocknum, x := n / BLOCKS + 1, fcb[cur].record[i];
      var block := TakeBlocks(blocknum, -1);
      fcb[x] := fcb[x].(size := n % BLOCKS, record := block + Nones(RECORDS - blocknum), length := blocknum);
      return 1;
    }

    method MCp(srcfile: string, dstfile: string) returns (res: int)
      requires Valid() && fcb[cur].length < RECORDS
      modifies this, fcb, used
      ensures Inv(Now()) && (Now(), res) == Cp(old(Now()), srcfile, dstfile)
      ensures res == 1 ==> (Valid() <==> old(CpNeeds(Now(), srcfile)) <= FreeFrom(old(used[..]), 0))
      ensures res != 1 ==> Valid()
    {
      ghost var s := Now();
      hide Inv, BlocksOk, FindName, FirstFree, Grab, FreeFrom, Padded, CpNeeds, Added, Linked;
      CurOk(s);
      CpOk(s, srcfile, dstfile);
      if Cp(s, srcfile, dstfile).1 == 1 {
        CpBlocksExactly(s, srcfile, dstfile);
      }
      var k := FindRecord(fcb[cur].record, srcfile, 0);
      if k == RECORDS || fcb[fcb[cur].record[k]].isdir {
        return SRCFILE_NOT_FOUND;
      }
      var l := FindRecord(fcb[cur].record, dstfile, 0);
      if l != RECORDS {
        return DSTFILE_IS_EXIST;
      }
      var i := FindFree(0);
      if i == fcb.Length {
        return NO_SPACE;
      }
      FoundKid(s, srcfile, 0);
      FreeHere(s, i);
      FileHere(s, fcb[cur].record[k]);
      CopyTo(i, dstfile, fcb[cur].record[k]);
      return 1;
    }

    /** cp's copy: a new control block, with as many new blocks as the source has. */
    method CopyTo(i: nat, dstfile: string, x: int)
      requires HasRecord(Now()) && cur in depth && i < fcb.Length && i != cur && 0 <= x < fcb.Length && x != i
      requires fcb[i].record == Nones(RECORDS) && 0 <= fcb[x].length <= RECORDS
      modifies this, fcb, used
      ensures var s := old(Now()); var m := s.fcb[x].length; var (used', found) := Grab(s.used, 0, m);
        Now() == Added(s.(used := used'), i,
          Fcb(i, dstfile, false, s.fcb[x].size, Padded(found, m, 0) + s.fcb[i].record[m..], m))
    {
      ghost var s := Now();
      hide Grab, Padded, Added, Linked;
      var blocknum := fcb[x].length;
      if blocknum == 0 {
        NothingTaken(s.used);
        fcb[i] := Fcb(i, dstfile, false, fcb[x].size, fcb[i].record, 0);
        AddedIsLinked(s, i, fcb[i]);
        Record(i);
        return;
      }
      var block := TakeBlocks(blocknum, 0);
      fcb[i] := Fcb(i, dstfile, false, fcb[x].size, block + fcb[i].record[blocknum..], blocknum);
      AddedIsLinked(s.(used := used[..]), i, fcb[i]);
      Record(i);
    }

    static lemma NothingTaken(used: seq<bool>)
      ensures Grab(used, 0, 0) == (used, []) && Padded([], 0, 0) == []
      ensures Padded([], 0, 0) + Nones(RECORDS)[0..] == Nones(RECORDS)
    {
    }

    method FreeFCB(i: int)
      requires 0 <= i < fcb.Length
      modifies fcb
      ensures fcb[..] == old(fcb[..])[i := FreeFcb(old(fcb[i].isdir))]
    {
      fcb[i] := fcb[i].(id := -1, filename := "", size := 0, length := 0, record := Nones(RECORDS));
    }

    method MRm(filename: string) returns (res: int)
      requires Valid()
      modifies this, fcb, used
      ensures (Now(), res) == Rm(old(Now()), filename)
      ensures filename != "." && filename != ".." ==> Valid()
    {
      ghost var s := Now();
      RmStaysOk(s, filename);
      CurOk(s);
      hide Inv, BlocksOk, FindName, WithoutDir, WithoutFile;
      var i := FindRecord(fcb[cur].record, filename, 0);
      if i == RECORDS {
        return PATH_NOT_FOUND;
      }
      var x := fcb[cur].record[i];
      RecordOf(s, i);
      if fcb[x].isdir && fcb[x].length > 2 {
        return DIR_IS_NOT_EMPTY;
      } else if fcb[x].isdir && fcb[x].length == 2 {
        DirHere(s, x);
        CurIsDir(s);
        NodeHere(s, cur);
        NodeHere(s, x);
        RemoveDir(i, x);
        return 1;
      } else {
        RemoveFile(i, x);
        return 1;
      }
    }

    static lemma RmStaysOk(s: Vol, name: string)
      requires Inv(s) && BlocksOk(s)
      ensures name != "." && name != ".." ==> Inv(Rm(s, name).0) && BlocksOk(Rm(s, name).0)
    {
      hide Inv, BlocksOk, Rm;
      if name != "." && name != ".." {
        RmOk(s, name);
        RmBlocks(s, name);
      }
    }

    /** What record i of the current directory leads to. */
    static lemma RecordOf(s: Vol, i: nat)
      requires Inv(s) && BlocksOk(s) && |s.fcb| <= |s.used| && i < RECORDS && 0 <= s.cur < |s.fcb|
      requires |s.fcb[s.cur].record| == RECORDS
      requires 0 <= s.fcb[s.cur].record[i] < |s.fcb|
      ensures var x := s.fcb[s.cur].record[i];
        && x != s.cur && |s.fcb[x].record| == RECORDS
        && (s.fcb[x].isdir && s.fcb[x].length == 2 ==> i >= 2 && IsDirNode(s, x))
        && (!s.fcb[x].isdir || s.fcb[x].length < 2 ==>
              forall j :: 0 <= j < RECORDS ==> s.fcb[x].record[j] == -1 || 0 <= s.fcb[x].record[j] < |s.used|)
    {
      hide Inv, BlocksOk, DirOk;
      var x := s.fcb[s.cur].record[i];
      FoundDir(s, i);
      if i < 2 {
        DotRecord(s, i);
      } else {
        RecordIsNode(s, i);
        if s.fcb[x].isdir {
          DirHere(s, x);
        } else {
          FileHere(s, x);
        }
      }
    }

    static lemma DotRecord(s: Vol, i: nat)
      requires Inv(s) && i < 2 && 0 <= s.cur < |s.fcb| && |s.fcb[s.cur].record| == RECORDS
      ensures var x := s.fcb[s.cur].record[i];
        && x != s.cur && 0 <= x < |s.fcb| && |s.fcb[x].record| == RECORDS && s.fcb[x].isdir && s.fcb[x].length == 1
        && 0 <= s.fcb[x].record[0] < |s.fcb| && forall j :: 0 < j < RECORDS ==> s.fcb[x].record[j] == -1
    {
      CurIsDir(s);
      UpIsDir(s, s.cur);
      DirHere(s, s.cur);
      CurNoDot(s);
      hide Inv, RecordsOk, Kids;
    }

    static lemma CurNoDot(s: Vol)
      requires Inv(s)
      ensures s.cur !in s.owner
    {
      assert s.cur != 0 ==> NodeOk(s, s.cur);
    }

    static lemma RecordIsNode(s: Vol, i: nat)
      requires Inv(s) && 2 <= i < RECORDS && 0 <= s.cur < |s.fcb| && |s.fcb[s.cur].record| == RECORDS
      requires 0 <= s.fcb[s.cur].record[i] < |s.fcb|
      ensures var x := s.fcb[s.cur].record[i]; x in s.parent && x != s.cur && |s.fcb[x].record| == RECORDS
    {
      assert DirOk(s, s.cur);
      assert NodeOk(s, s.fcb[s.cur].record[i]) && LiveOk(s, s.fcb[s.cur].record[i]);
    }

    method DropRecord(k: nat)
      requires 0 <= cur < fcb.Length && k < |fcb[cur].record|
      modifies fcb
      ensures fcb[..] == old(fcb[..])[cur := Dropped(old(fcb[cur]), k)]
    {
      fcb[cur] := fcb[cur].(length := fcb[cur].length - 1);
      fcb[cur] := fcb[cur].(record := fcb[cur].record[k := -1]);
    }

    method RemoveDir(k: nat, x: int)
      requires 0 <= cur < fcb.Length && k < |fcb[cur].record| && 0 <= x < fcb.Length && x != cur
      requires |fcb[x].record| == RECORDS
      requires var r := fcb[x].record; 0 <= r[0] < fcb.Length && 0 <= r[1] < fcb.Length && r[0] != r[1]
      requires var r := fcb[x].record; r[0] != x && r[1] != x && r[0] != cur && r[1] != cur
      modifies this, fcb
      ensures Now() == WithoutDir(old(Now()), k, x, old(fcb[x].record[0]), old(fcb[x].record[1]))
    {
      var a, b := fcb[x].record[0], fcb[x].record[1];
      FreeFCB(fcb[x].record[0]);
      FreeFCB(fcb[x].record[1]);
      FreeFCB(x);
      DropRecord(k);
      parent, depth, owner := parent - {x}, depth - {x}, owner - {a, b};
    }

    method RemoveFile(k: nat, x: int)
      requires 0 <= cur < fcb.Length && k < |fcb[cur].record| && 0 <= x < fcb.Length && x != cur
      requires |fcb[x].record| == RECORDS
      requires forall j :: 0 <= j < RECORDS ==> fcb[x].record[j] == -1 || 0 <= fcb[x].record[j] < used.Length
      modifies this, fcb, used
      ensures Now() == WithoutFile(old(Now()), k, x)
    {
      for j := 0 to RECORDS
        modifies used
        invariant forall b :: 0 <= b < used.Length ==> (used[b] <==> old(used[b]) && b !in fcb[x].record[..j])
      {
        var blocknum := fcb[x].record[j];
        if blocknum != -1 {
          used[blocknum] := false;
        }
        assert fcb[x].record[..j + 1] == fcb[x].record[..j] + [fcb[x].record[j]];
      }
      assert fcb[x].record[..RECORDS] == fcb[x].record;
      assert used[..] == Freed(old(used[..]), old(fcb[x].record));
      FreeFCB(x);
      DropRecord(k);
      parent, depth := parent - {x}, depth - {x};
    }
  }
}
