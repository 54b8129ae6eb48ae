/** Inputs on which the commands of the control-block tree do not do what is expected of them,
    reached from the formatted volume. */
module VfsInputs {
  import opened Vfs
  import opened VfsTree
  import opened VfsBlocks
  import opened VfsRuns

  // ---- writing again takes new blocks

  lemma {:induction false} GrabLeaves(used: seq<bool>, i: nat, n: nat)
    requires i <= |used|
    ensures FreeFrom(Grab(used, i, n).0, i) == FreeFrom(used, i) - |Grab(used, i, n).1|
    decreases |used| - i
  {
    if i < |used| && n > 0 {
      if used[i] {
        GrabLeaves(used, i + 1, n);
        GrabBefore(used, i + 1, n, i);
      } else {
        GrabLeaves(used[i := true], i + 1, n - 1);
        GrabBefore(used[i := true], i + 1, n - 1, i);
        FreeBehind(used, used[i := true], i + 1);
      }
    }
  }

  lemma GrabBefore(used: seq<bool>, i: nat, n: nat, b: nat)
    requires b < i <= |used|
    ensures Grab(used, i, n).0[b] == used[b]
  {
    GrabTakes(used, i, n);
  }

  /** A write that succeeds never gives a block back: it takes n / BLOCKS + 1 free ones, or all
      there are. */
  lemma WriteLeaks(s: Vol, name: string, n: nat)
    requires Inv(s) && n < RECORDS * BLOCKS && Write(s, name, n).1 == 1
    ensures var m, free := n / BLOCKS + 1, FreeFrom(s.used, 0);
      FreeFrom(Write(s, name, n).0.used, 0) == if m <= free then free - m else 0
    ensures forall b :: 0 <= b < |s.used| && s.used[b] ==> Write(s, name, n).0.used[b]
  {
    hide Inv, Write, Grab, FreeFrom;
    var x := WriteIs(s, name, n);
    GrabLeaves(s.used, 0, n / BLOCKS + 1);
    GrabTakes(s.used, 0, n / BLOCKS + 1);
  }

  // ---- one file, written again and again

  /** The volume holds the file "a" in the root directory, and nothing else. */
  ghost predicate Alone(s: Vol) {
    && Inv(s) && BlocksOk(s) && s.cur == 0 && IsFile(s, 3) && s.fcb[0].length == 3
    && s.fcb[0].record == [1, 2, 3] + Nones(7) && s.fcb[1].filename == "." && s.fcb[2].filename == ".."
    && s.fcb[3].filename == "a" && s.fcb[4].id == -1
  }

  lemma AloneFinds(s: Vol)
    requires Alone(s)
    ensures FindName(s.fcb, s.fcb[0].record, "a", 0) == 2 && s.fcb[0].record[2] == 3
    ensures FindName(s.fcb, s.fcb[0].record, "b", 0) == RECORDS == |s.fcb[0].record|
    ensures FirstFree(s.fcb, 0) < |s.fcb| && FoundAt(s, "a") == 3
  {
    var r := s.fcb[0].record;
    assert r[0] == 1 && r[1] == 2 && r[2] == 3 && forall i :: 3 <= i < RECORDS ==> r[i] == -1;
    CurOk(s);
    hide Inv, BlocksOk;
    assert Carries(s.fcb, r[2], "a");
  }

  lemma FormattedFree(n: nat)
    requires n >= RECORDS
    ensures var s := Formatted(n);
      && s.fcb[0] == Fcb(0, "\\", true, 0, Nones(RECORDS)[0 := 1][1 := 2], 2) && s.cur == 0 && |s.fcb| == n
      && s.fcb[1].filename == "." && s.fcb[2].filename == ".." && s.fcb[3] == FreeFcb(false) == s.fcb[4]
      && FirstFree(s.fcb, 0) == 3 && FreeFrom(s.used, 0) == BLOCKS - SYSTEM
  {
    var s := Formatted(n);
    assert s.fcb[3] == FreeFcb(false) == s.fcb[4];
    assert s.fcb[0].id == 0 && s.fcb[1].id == 1 && s.fcb[2].id == 2 && s.fcb[3].id == -1;
    FreeBehindSystem(s.used, 0);
  }

  lemma MadeAlone(n: nat)
    requires n >= RECORDS
    ensures Inv(Formatted(n)) && BlocksOk(Formatted(n)) && Mkfile(Formatted(n), "a").1 == 1
    ensures Alone(Mkfile(Formatted(n), "a").0)
    ensures FreeFrom(Mkfile(Formatted(n), "a").0.used, 0) == BLOCKS - SYSTEM
    ensures Mkfile(Formatted(n), "a").0.parent == map[3 := 0] && Mkfile(Formatted(n), "a").0.fcb[4] == FreeFcb(false)
  {
    FormattedOk(n);
    FormattedFree(n);
    var s := Formatted(n);
    MkfileOk(s, "a");
    MkfileBlocks(s, "a");
    hide Inv, BlocksOk, Kids, Formatted, FirstFree, FreeFrom;
    assert s.fcb[0].record[2 := 3] == [1, 2, 3] + Nones(7);
  }

  lemma {:induction false} FreeBehindSystem(used: seq<bool>, i: nat)
    requires i <= |used| == BLOCKS && forall b :: 0 <= b < BLOCKS ==> (used[b] <==> b < SYSTEM)
    ensures FreeFrom(used, i) == if i < SYSTEM then BLOCKS - SYSTEM else BLOCKS - i
    decreases |used| - i
  {
    if i < BLOCKS {
      FreeBehindSystem(used, i + 1);
    }
  }

  /** Ten blocks' worth of characters. */
  const MUCH: nat := 9216

  lemma WrittenAlone(s: Vol, n: nat)
    requires Alone(s) && n < RECORDS * BLOCKS && n / BLOCKS + 1 <= FreeFrom(s.used, 0)
    ensures Write(s, "a", n).1 == 1 && Alone(Write(s, "a", n).0) && Write(s, "a", n).0.fcb[3].length == n / BLOCKS + 1
    ensures FreeFrom(Write(s, "a", n).0.used, 0) == FreeFrom(s.used, 0) - (n / BLOCKS + 1)
  {
    AloneFinds(s);
    hide Inv, BlocksOk, FreeFrom, Grab, Padded, FindName, FirstFree;
    WriteOk(s, "a", n);
    WriteBlocksExactly(s, "a", n);
    WriteLeaks(s, "a", n);
  }

  /** mkfile a, then k times write to a. */
  function Rewrites(k: nat): seq<Op> {
    [MakeFile("a")] + seq(k, i => Put("a", MUCH))
  }

  lemma {:induction false} RewriteRun(n: nat, k: nat) returns (states: seq<Vol>)
    requires n >= RECORDS && 10 * k <= BLOCKS - SYSTEM
    ensures IsRun(states, Rewrites(k)) && states[0] == Formatted(n) && |states| == k + 2
    ensures var s := states[k + 1];
      Alone(s) && FreeFrom(s.used, 0) == BLOCKS - SYSTEM - 10 * k && (k > 0 ==> s.fcb[3].length == 10)
    decreases k
  {
    hide Inv, BlocksOk, Alone, Formatted, Write, Mkfile, FreeFrom;
    if k == 0 {
      MadeAlone(n);
      states := [Formatted(n), Mkfile(Formatted(n), "a").0];
    } else {
      var before := RewriteRun(n, k - 1);
      var s := before[k];
      AloneOk(s);
      WrittenAlone(s, MUCH);
      assert MUCH / BLOCKS + 1 == 10;
      states := before + [Write(s, "a", MUCH).0];
      RunOn(before, Rewrites(k - 1), Put("a", MUCH), Write(s, "a", MUCH).0);
      assert Rewrites(k - 1) + [Put("a", MUCH)] == Rewrites(k);
    }
  }

  lemma AloneOk(s: Vol)
    requires Alone(s)
    ensures Inv(s) && BlocksOk(s) && s.cur == 0 && s.fcb[0].length == 3 && s.fcb[4].id == -1
  {
  }

  lemma RunOn(states: seq<Vol>, ops: seq<Op>, op: Op, s': Vol)
    requires IsRun(states, ops) && Inv(states[|ops|]) && BlocksOk(states[|ops|]) && CalledStep(states[|ops|], op, s')
    ensures IsRun(states + [s'], ops + [op])
  {
    hide Inv, BlocksOk, CalledStep;
    var all, more := ops + [op], states + [s'];
    forall i | 0 <= i < |all| && Inv(more[i]) && BlocksOk(more[i]) ensures CalledStep(more[i], all[i], more[i + 1]) {
      if i < |ops| {
        assert CalledStep(states[i], ops[i], states[i + 1]);
      }
    }
  }

  /** The size of a file of one whole block is recorded as 0. */
  lemma SizeForgotten(n: nat) returns (states: seq<Vol>)
    requires n >= RECORDS
    ensures IsRun(states, [MakeFile("a")]) && states[0] == Formatted(n)
    ensures var s := states[1];
      Inv(s) && FoundAt(s, "a") == 3 && 3 < |s.fcb| && Write(s, "a", BLOCKS).1 == 1
        && Write(s, "a", BLOCKS).0.fcb[3].size == 0
  {
    hide Inv, BlocksOk, FreeFrom, Write, Alone, Formatted, FindName, FirstFree;
    states := RewriteRun(n, 0);
    assert Rewrites(0) == [MakeFile("a")];
    var s := states[1];
    AloneOk(s);
    AloneFinds(s);
    WrittenAlone(s, BLOCKS);
    WriteSizesExactly(s, "a", BLOCKS);
  }

  /** After a file has been written 92 times, two blocks are free: it cannot be written once
      more, or copied, without recording blocks that it does not have. */
  lemma BlocksRunOut(n: nat) returns (states: seq<Vol>)
    requires n >= RECORDS
    ensures IsRun(states, Rewrites(92)) && states[0] == Formatted(n)
    ensures var s := states[93];
      && Inv(s) && BlocksOk(s) && FreeFrom(s.used, 0) == 2
      && Write(s, "a", MUCH).1 == 1 && !BlocksOk(Write(s, "a", MUCH).0)
      && s.fcb[s.cur].length < RECORDS && Cp(s, "a", "b").1 == 1 && !BlocksOk(Cp(s, "a", "b").0)
  {
    hide Inv, BlocksOk, FreeFrom, Write, Cp, Alone, CpNeeds;
    states := RewriteRun(n, 92);
    var s := states[93];
    AloneOk(s);
    AloneFits(s);
    WriteBlocksExactly(s, "a", MUCH);
    CpBlocksExactly(s, "a", "b");
  }

  lemma AloneFits(s: Vol)
    requires Alone(s)
    ensures Write(s, "a", MUCH).1 == 1 && Cp(s, "a", "b").1 == 1 && CpNeeds(s, "a") == s.fcb[3].length
  {
    AloneFinds(s);
    CurOk(s);
    hide Inv, BlocksOk, FindName, FirstFree, Overwritten, Grab, Added;
  }

  // ---- a hole in the root directory

  function HoleOps(): seq<Op> {
    [MakeFile("a"), MakeFile("b"), Delete("a")]
  }

  /** Two files, a and b, in the records 2 and 3 of the root directory. */
  ghost predicate Both(s: Vol) {
    && Inv(s) && BlocksOk(s) && s.cur == 0 && |s.fcb| >= RECORDS && s.parent == map[3 := 0, 4 := 0]
    && s.fcb[0].length == 4 && s.fcb[0].record == [1, 2, 3, 4] + Nones(6)
    && s.fcb[1].filename == "." && s.fcb[2].filename == ".." && s.fcb[3].filename == "a" && !s.fcb[3].isdir
  }

  lemma SecondMade(s: Vol)
    requires Alone(s) && s.parent == map[3 := 0] && s.fcb[4] == FreeFcb(false)
    ensures Mkfile(s, "b").1 == 1 && Both(Mkfile(s, "b").0)
  {
    AloneFinds(s);
    FourthFree(s);
    MkfileOk(s, "b");
    MkfileBlocks(s, "b");
    AloneOk(s);
    hide Inv, BlocksOk, FirstFree, FindName;
    assert s.fcb[0].record[3 := 4] == [1, 2, 3, 4] + Nones(6);
  }

  lemma FourthFree(s: Vol)
    requires Alone(s) && s.parent == map[3 := 0]
    ensures FirstFree(s.fcb, 0) == 4 && s.fcb[0].isdir
  {
    assert DirOk(s, 0);
    assert s.fcb[0].record[0] == 1 && s.fcb[0].record[1] == 2;
    assert LiveOk(s, 0) && LiveOk(s, 1) && LiveOk(s, 2) && LiveOk(s, 3);
  }

  /** One file, b, in record 3; record 2 is empty, and the length is 3. */
  ghost predicate Hole(s: Vol) {
    && Inv(s) && s.cur == 0 && |s.fcb| >= RECORDS && s.parent == map[4 := 0]
    && s.fcb[0].length == 3 && s.fcb[0].record == [1, 2, -1, 4] + Nones(6) && s.fcb[3].id == -1
  }

  lemma FirstRemoved(s: Vol)
    requires Both(s)
    ensures Rm(s, "a").1 == 1 && Hole(Rm(s, "a").0) && BlocksOk(Rm(s, "a").0)
  {
    RmOk(s, "a");
    RmBlocks(s, "a");
    CurOk(s);
    var r := s.fcb[0].record;
    assert r[0] == 1 && r[1] == 2 && r[2] == 3;
    assert FindName(s.fcb, r, "a", 0) == FindName(s.fcb, r, "a", 1) == FindName(s.fcb, r, "a", 2) == 2;
    hide Inv, BlocksOk, FindName;
    assert r[2 := -1] == [1, 2, -1, 4] + Nones(6);
    assert map[3 := 0, 4 := 0] - {3} == map[4 := 0];
  }

  /** A third file then takes the record of the second: it is there, but nothing leads to it. */
  lemma HoleFilled(s: Vol)
    requires Hole(s)
    ensures |s.fcb[0].record| == RECORDS && Listed(s, 0) && Mkfile(s, "c").1 == 1
    ensures var t := Mkfile(s, "c").0; Inv(t) && |t.fcb| == |s.fcb| && |t.fcb[0].record| == RECORDS
    ensures var t := Mkfile(s, "c").0; 4 in Kids(t, 0) && !Listed(t, 0)
  {
    assert s.fcb[0].record[2..][1] == 4;
    assert Kids(s, 0) == {4};
    assert FirstFree(s.fcb, 0) <= 3;
    CurOk(s);
    MkfileOk(s, "c");
    hide Inv, Listed, FirstFree;
    MkfileListsExactly(s, "c");
  }

  lemma HoleRun(n: nat) returns (states: seq<Vol>)
    requires n >= RECORDS
    ensures IsRun(states, HoleOps()) && states[0] == Formatted(n) && |states| == 4 && Hole(states[3])
  {
    hide Inv, BlocksOk, Alone, Both, Hole, Formatted, Mkfile, Rm;
    MadeAlone(n);
    var a := Mkfile(Formatted(n), "a").0;
    AloneOk(a);
    SecondMade(a);
    var b := Mkfile(a, "b").0;
    BothOk(b);
    FirstRemoved(b);
    HoleOk(Rm(b, "a").0);
    RunOn([Formatted(n)], [], MakeFile("a"), a);
    RunOn([Formatted(n)] + [a], [] + [MakeFile("a")], MakeFile("b"), b);
    RunOn([Formatted(n)] + [a] + [b], [] + [MakeFile("a")] + [MakeFile("b")], Delete("a"), Rm(b, "a").0);
    states := [Formatted(n)] + [a] + [b] + [Rm(b, "a").0];
    assert [] + [MakeFile("a")] + [MakeFile("b")] + [Delete("a")] == HoleOps();
  }

  lemma BothOk(s: Vol)
    requires Both(s)
    ensures Inv(s) && BlocksOk(s)
  {
  }

  lemma HoleOk(s: Vol)
    requires Hole(s)
    ensures Inv(s) && s.cur == 0
  {
  }

  /** After a and b have been made and a removed, a file made takes b's record. */
  lemma EntryOverwritten(n: nat) returns (states: seq<Vol>)
    requires n >= RECORDS
    ensures IsRun(states, HoleOps()) && states[0] == Formatted(n)
    ensures var s := states[3];
      && Inv(s) && 0 < |s.fcb| && |s.fcb[0].record| == RECORDS && Listed(s, 0) && Mkfile(s, "c").1 == 1
      && var t := Mkfile(s, "c").0;
         Inv(t) && 0 < |t.fcb| && |t.fcb[0].record| == RECORDS && 4 in Kids(t, 0) && !Listed(t, 0)
  {
    hide Inv, BlocksOk, Formatted, Mkfile, Listed, Kids;
    states := HoleRun(n);
    HoleFilled(states[3]);
  }
}
