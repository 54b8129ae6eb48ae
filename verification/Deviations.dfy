/** Inputs on which the code as written does not do what the tree operations do. Each is
    reached from the formatted disk by a list of operations, and shows one side of a lemma that
    says exactly when the code does. */
module Deviations {
  import opened Paths
  import opened Runs
  import opened Disk
  import opened Tree
  import opened FileData
  import opened Creating
  import opened Removing
  import opened Writing
  import opened Splicing
  import opened Appending
  import opened HalfGrowing
  import opened ShortRuns
  import opened LaterRuns
  import opened History
  import opened Reaching

  /** A disk image with room for a file system of max blocks. */
  ghost predicate Image(image: seq<Block>, max: nat) {
    ROOT < max && max + 8 <= |image| && forall b :: 0 <= b < |image| ==> WfBlock(image[b])
  }

  function EmptyRoot(max: nat, size: nat): Picture {
    Picture(Fresh().slots, map[], Blocks(0, 8), max, size)
  }

  lemma Start(image: seq<Block>, max: nat) returns (s: Fs)
    requires Image(image, max)
    ensures s == Formatted(image, max) && Depicts(EmptyRoot(max, |image|), s) && Leads(s, [], s)
  {
    FormattedDepicts(image, max);
    s := Formatted(image, max);
    hide Ok, Formatted;
    LeadsNowhere(s);
  }

  // ---- one file of two blocks

  /** Make a, then write buf, which takes a second block. */
  function TwoBlocks(buf: seq<byte>): seq<Op> {
    [Make(["a"], 1), Put(["a"], buf, 0)]
  }

  /** The root directory holds the file a of n bytes in the blocks c, and nothing else. */
  ghost predicate OneFile(p: Picture, n: nat, c: seq<int>, max: nat, size: nat) {
    && p.slots == Fresh().slots[0 := Dirent("a", n, 9, 1)] && p.chains == map[9 := c]
    && p.max == max && p.size == size
  }

  lemma AFile(image: seq<Block>, max: nat) returns (s: Fs, p: Picture)
    requires Image(image, max) && 13 <= max
    ensures Leads(Formatted(image, max), [Make(["a"], 1)], s) && Depicts(p, s)
    ensures OneFile(p, 0, [9], max, |image|) && p.used == Blocks(0, 8) + {9}
  {
    var s0 := Start(image, max);
    var p0 := EmptyRoot(max, |image|);
    FirstSlot();
    hide Ok, Depicts, Step, Plain, Called, Formatted, Leads;
    MakeDepicts(p0, s0, "a", 9);
    DepictsOk(p0, s0);
    LeadsMore(s0, [], s0, Make(["a"], 1));
    s, p := Step(s0, Make(["a"], 1)).0, Entered(p0, "a", 9);
    assert [] + [Make(["a"], 1)] == [Make(["a"], 1)];
  }

  lemma FirstSlot()
    ensures FreeSlot(Fresh().slots, 0) == 0 && forall name :: !Seen(Fresh().slots, name)
  {
  }

  lemma DepictsOk(p: Picture, s: Fs)
    requires Depicts(p, s)
    ensures Ok(s)
  {
  }

  lemma TwoBlockFile(image: seq<Block>, max: nat, buf: seq<byte>) returns (s: Fs, p: Picture)
    requires Image(image, max) && 13 <= max && CAP < |buf| <= 2 * CAP
    ensures Leads(Formatted(image, max), TwoBlocks(buf), s) && Depicts(p, s)
    ensures OneFile(p, |buf|, [9, 10], max, |image|)
  {
    hide Ok, Depicts, Step, Plain, Called, Formatted, Leads, OneFile, Puts, Fresh, Blocks;
    var s1, p1 := AFile(image, max);
    var r := Run(Asked(|buf| - CAP), 10);
    PutsToA(p1, buf, r, max, |image|);
    PutDepicts(p1, s1, "a", 0, buf, r);
    DepictsOk(p1, s1);
    LeadsMore(Formatted(image, max), [Make(["a"], 1)], s1, Put(["a"], buf, 0));
    s, p := Step(s1, Put(["a"], buf, 0)).0, Stretched(p1, 0, |buf|, r);
    assert [Make(["a"], 1)] + [Put(["a"], buf, 0)] == TwoBlocks(buf);
  }

  /** Its second block will be block 10. */
  lemma PutsToA(p: Picture, buf: seq<byte>, r: Run, max: nat, size: nat)
    requires OneFile(p, 0, [9], max, size) && p.used == Blocks(0, 8) + {9} && 13 <= max && max + 8 <= size
    requires CAP < |buf| <= 2 * CAP && r == Run(Asked(|buf| - CAP), 10)
    ensures Puts(p, "a", 0, buf, r) && |p.slots| > 0 && p.slots[0].start in p.chains && p.chains[p.slots[0].start] != []
    ensures OneFile(Stretched(p, 0, |buf|, r), |buf|, [9, 10], max, size)
  {
    hide Best, IsBest, Blocks;
    AFound();
    RunAtTen(max, Asked(|buf| - CAP));
    CeilStep(|buf| - CAP);
    assert RunSeq(10, 1) == [10];
    assert [9][..1] + [10] == [9, 10];
  }

  lemma AFound()
    ensures FindSlot(Fresh().slots[0 := Dirent("a", 0, 9, 1)], "a", 0) == 0
  {
  }

  /** With blocks 0 to 7 and 9 in use, a run starts at block 10. */
  lemma RunAtTen(max: nat, n: nat)
    requires 13 <= max && 1 <= n <= 2
    ensures Best(Blocks(0, 8) + {9}, FIRST, max - 1, n) == Run(n, 10)
  {
    var used := Blocks(0, 8) + {9};
    RunLenUnique(used, 10, n, n);
    RunLenUnique(used, 9, n, 0);
    forall b | FIRST <= b < 10 ensures RunLen(used, b, n) < n {
      assert b == 9;
    }
    BestUnique(used, FIRST, max - 1, n, Run(n, 10));
  }

  /** A byte written at the start of one of the file's two blocks goes well. */
  lemma ByteWritten(p: Picture, s: Fs, n: nat, offset: nat)
    requires Depicts(p, s) && OneFile(p, n, [9, 10], p.max, p.size) && p.max + 8 <= p.size
    requires CAP < n <= 2 * CAP && (offset == 0 || offset == CAP)
    ensures var e, buf: seq<byte> := Dirent("a", n, 9, 1), [1];
      && Resolve(s, ["a"]) == Some(e) && Complete(s, e) && |Chain(s, 9)| == 2 && Wrote(s, ["a"], buf, offset)
      && |BytesOf(s, e)| == n
  {
    hide Ok, IsChain, AppendRuns, Content, Best;
    var e, buf: seq<byte> := Dirent("a", n, 9, 1), [1];
    assert FindSlot(p.slots, "a", 0) == 0;
    PictureResolves(p, s, "a");
    ResolveMeans(s, ["a"]);
    CeilStep(n);
    CeilStep(n - CAP);
    CompleteBytes(s, e);
    assert Surplus(0, buf) == [] && Covers(s, 0, buf) && Room(s, buf);
    hide Resolve;
    assert WriteDisk(s, 9, buf, offset).2 == 0;
  }

  /** One byte written at the start of a file of 497 bytes cuts its second block off. */
  lemma TailDropped(image: seq<Block>, max: nat, buf: seq<byte>) returns (s: Fs)
    requires Image(image, max) && 13 <= max && |buf| == 497
    ensures Leads(Formatted(image, max), TwoBlocks(buf), s) && Wrote(s, ["a"], [1], 0)
    ensures var e := Dirent("a", 497, 9, 1);
      && Resolve(s, ["a"]) == Some(e) && |BytesOf(s, e)| == 497
      && TreeOf(Write(s, ["a"], [1], 0).0) != TreeOf(s)[["a"] := FileNode(497, Splice(BytesOf(s, e), 0, [1]))]
  {
    hide Ok, Depicts, TreeOf, Resolve, BytesOf, Splice, Wrote, Write, Complete, Leads, Formatted;
    var p;
    s, p := TwoBlockFile(image, max, buf);
    DepictsOk(p, s);
    ByteWritten(p, s, 497, 0);
    WroteRoom(s, ["a"], [1], 0);
    WriteSplicesExactly(s, ["a"], [1], 0);
  }

  lemma WroteRoom(s: Fs, path: seq<string>, buf: seq<byte>, offset: nat)
    requires Wrote(s, path, buf, offset)
    ensures Ok(s) && Room(s, buf)
  {
  }

  /** The same byte written into the second block replaces one byte of the file. */
  lemma LastBlockWritten(image: seq<Block>, max: nat, buf: seq<byte>) returns (s: Fs)
    requires Image(image, max) && 13 <= max && |buf| == 497
    ensures Leads(Formatted(image, max), TwoBlocks(buf), s) && Wrote(s, ["a"], [1], 496)
    ensures var e := Dirent("a", 497, 9, 1);
      && Resolve(s, ["a"]) == Some(e) && |BytesOf(s, e)| == 497
      && TreeOf(Write(s, ["a"], [1], 496).0) == TreeOf(s)[["a"] := FileNode(497, BytesOf(s, e)[..496] + [1])]
  {
    hide Ok, Depicts, TreeOf, Resolve, BytesOf, Wrote, Write, Complete, Leads, Formatted;
    var p;
    s, p := TwoBlockFile(image, max, buf);
    DepictsOk(p, s);
    ByteWritten(p, s, 497, 496);
    WroteRoom(s, ["a"], [1], 496);
    WriteSplicesExactly(s, ["a"], [1], 496);
    var e, one: seq<byte> := Dirent("a", 497, 9, 1), [1];
    assert Splice(BytesOf(s, e), 496, one) == BytesOf(s, e)[..496] + one;
  }

  /** An append to a file of 992 bytes, two full blocks, fails and changes nothing. */
  lemma AppendFails(image: seq<Block>, max: nat, buf: seq<byte>, more: seq<byte>) returns (s: Fs)
    requires Image(image, max) && 13 <= max && |buf| == 992 && |more| < CAP
    ensures Leads(Formatted(image, max), TwoBlocks(buf), s) && Ok(s) && Room(s, more)
    ensures Write(s, ["a"], more, 992) == (s, -1)
  {
    hide Ok, Depicts, Resolve, Wrote, Write, Complete, Leads, Formatted;
    var p;
    s, p := TwoBlockFile(image, max, buf);
    DepictsOk(p, s);
    ByteWritten(p, s, 992, 0);
    DepictsRoom(p, s, more);
    BoundaryFails(s, ["a"], more, 992);
  }

  lemma DepictsRoom(p: Picture, s: Fs, buf: seq<byte>)
    requires Depicts(p, s) && p.max + 8 <= p.size && |buf| < 7 * CAP
    ensures Room(s, buf)
  {
  }

  // ---- several empty files

  /** a, b, c and so on. */
  function NameOf(i: nat): (name: string)
    requires i < 26
    ensures |name| == 1
  {
    [('a' as int + i) as char]
  }

  lemma NamesDiffer(i: nat, j: nat)
    requires i < j < 26
    ensures NameOf(i) != NameOf(j)
  {
    assert NameOf(i)[0] != NameOf(j)[0];
  }

  function Makes(k: nat): seq<Op>
    requires k <= 26
  {
    seq(k, i requires 0 <= i < k => Make([NameOf(i)], 1))
  }

  /** The root directory after k files have been made: entry i in slot i, its block 9 + i. */
  function Full(k: nat, max: nat, size: nat): Picture
    requires k <= SLOTS
  {
    Picture(seq(SLOTS, i requires 0 <= i < SLOTS => if i < k then Dirent(NameOf(i), 0, 9 + i, 1) else FREE_ENTRY),
            map o | 9 <= o < 9 + k :: [o], Blocks(0, 8) + Blocks(9, k), max, size)
  }

  lemma FullStep(k: nat, max: nat, size: nat)
    requires k < SLOTS && 9 + k < max - 1
    ensures var p := Full(k, max, size);
      && FreeSlot(p.slots, 0) == k && !Seen(p.slots, NameOf(k)) && NextFree(p.used, max, 9 + k)
      && Entered(p, NameOf(k), 9 + k) == Full(k + 1, max, size)
    ensures Makes(k) + [Make([NameOf(k)], 1)] == Makes(k + 1)
  {
    hide NameOf;
    var p, q := Full(k, max, size), Full(k + 1, max, size);
    assert FreeSlot(p.slots, 0) == k by {
      assert !Live(p.slots[k]);
      assert forall i :: 0 <= i < k ==> Live(p.slots[i]);
    }
    forall i | 0 <= i < k ensures !Named(p.slots[i], NameOf(k)) {
      NamesDiffer(i, k);
    }
    assert Entered(p, NameOf(k), 9 + k).slots == q.slots;
    assert Entered(p, NameOf(k), 9 + k).chains == q.chains;
    assert p.used + {9 + k} == q.used;
  }

  lemma {:induction false} FillTo(image: seq<Block>, max: nat, k: nat) returns (s: Fs)
    requires Image(image, max) && k <= SLOTS && 9 + k < max
    ensures Leads(Formatted(image, max), Makes(k), s) && Depicts(Full(k, max, |image|), s)
    ensures |s.blk| == |image| && forall x :: 9 + k <= x < |image| ==> s.blk[x] == image[x]
    decreases k
  {
    hide Ok, Depicts, Step, Plain, Called, Leads, Full, Makes, Entered;
    if k == 0 {
      s := Start(image, max);
      NoneMade(max, |image|);
    } else {
      var t := FillTo(image, max, k - 1);
      var p, name := Full(k - 1, max, |image|), NameOf(k - 1);
      FullStep(k - 1, max, |image|);
      FullSize(k - 1, max, |image|);
      MakeDepicts(p, t, name, 8 + k);
      DepictsOk(p, t);
      LeadsMore(Formatted(image, max), Makes(k - 1), t, Make([name], 1));
      s := Step(t, Make([name], 1)).0;
      DepictsSize(Full(k, max, |image|), s);
      FullSize(k, max, |image|);
    }
  }

  lemma NoneMade(max: nat, size: nat)
    ensures Full(0, max, size) == EmptyRoot(max, size) && Makes(0) == []
  {
    assert Full(0, max, size).slots == Fresh().slots;
    assert Blocks(0, 8) + Blocks(9, 0) == Blocks(0, 8);
  }

  lemma FullSize(k: nat, max: nat, size: nat)
    requires k <= SLOTS
    ensures Full(k, max, size).size == size && Full(k, max, size).max == max
    ensures Full(k, max, size).used == Blocks(0, 8) + Blocks(9, k)
  {
  }

  lemma DepictsSize(p: Picture, s: Fs)
    requires Depicts(p, s)
    ensures |s.blk| == p.size
  {
  }

  /** Different names in the picture are unique names on the disk. */
  lemma PictureUnique(p: Picture, s: Fs)
    requires Depicts(p, s)
    requires forall i, j ::
        0 <= i < SLOTS && 0 <= j < SLOTS && Live(p.slots[i]) && Named(p.slots[j], p.slots[i].fname) ==> i == j
    ensures UniqueNames(s)
  {
    hide Ok;
    forall o | IsDir(s, o) ensures UniqueIn(s.blk, Chain(s, o)) {
      assert o == ROOT;
    }
  }

  /** After a and b have been made and a removed, the existence test does not see b behind the
      free slot: it is made a second time. */
  lemma NameTwice(image: seq<Block>, max: nat) returns (s: Fs)
    requires Image(image, max) && 13 <= max
    ensures Leads(Formatted(image, max), Makes(2) + [Unmake(["a"], 1)], s)
    ensures Ok(s) && UniqueNames(s) && Create(s, ["b"], 1).1 == 0 && !UniqueNames(Create(s, ["b"], 1).0)
  {
    hide Ok, Depicts, Step, Plain, Called, Leads, Formatted, UniqueNames, Create;
    var t := FillTo(image, max, 2);
    var p := Full(2, max, |image|);
    var q := HoleBeforeB(image, max, t);
    s := Step(t, Unmake(["a"], 1)).0;
    DepictsOk(q, s);
    PictureUnique(q, s);
    MakeDepicts(q, s, "b", 9);
    MakeIsCreate(s, "b");
    PictureResolves(q, s, "b");
    CreateUniqueExactly(s, ["b"], 1);
    HoleEntry(q, s);
  }

  lemma MakeIsCreate(s: Fs, name: string)
    requires Ok(s) && Called(s, Make([name], 1))
    ensures Step(s, Make([name], 1)) == Create(s, [name], 1)
  {
    hide Ok, Create;
  }

  lemma HoleBeforeB(image: seq<Block>, max: nat, t: Fs) returns (q: Picture)
    requires Image(image, max) && 13 <= max && Depicts(Full(2, max, |image|), t)
    requires Leads(Formatted(image, max), Makes(2), t)
    ensures Called(t, Unmake(["a"], 1)) && Ok(t)
    ensures Leads(Formatted(image, max), Makes(2) + [Unmake(["a"], 1)], Step(t, Unmake(["a"], 1)).0)
    ensures Depicts(q, Step(t, Unmake(["a"], 1)).0) && NextFree(q.used, q.max, 9)
    ensures |q.slots| == SLOTS && FreeSlot(q.slots, 0) == 0 && q.slots[1] == Dirent("b", 0, 10, 1)
    ensures forall i :: 0 <= i < SLOTS && i != 1 ==> !Live(q.slots[i])
  {
    hide Ok, Depicts, Step, Plain, Called, Leads, Formatted;
    var p := Full(2, max, |image|);
    assert NameOf(0) == "a" && NameOf(1) == "b";
    assert p.slots[0] == Dirent("a", 0, 9, 1) && FindSlot(p.slots, "a", 0) == 0 && p.chains[9] == [9];
    UnmakeDepicts(p, t, "a", 0);
    DepictsOk(p, t);
    LeadsMore(Formatted(image, max), Makes(2), t, Unmake(["a"], 1));
    q := Without(p, 0);
  }

  lemma HoleEntry(q: Picture, s: Fs)
    requires Depicts(q, s) && |q.slots| == SLOTS && q.slots[1] == Dirent("b", 0, 10, 1)
    ensures EntryIn(s.blk, [LastBlock(s, ROOT)], "b") != None
  {
    hide Ok;
    LookupInOne(s.blk, ROOT, "b");
    assert Named(q.slots[1], "b");
  }

  // ---- a full root directory

  /** Twelve files fill the root directory's block; a thirteenth is to be made. */
  ghost predicate Dozen(s: Fs, max: nat) {
    && Ok(s) && UniqueNames(s) && IsDir(s, ROOT) && Chain(s, ROOT) == [ROOT] && ROOT < |s.blk|
    && s.used == Blocks(0, 8) + Blocks(9, 12) && s.max == max
    && LastBlock(s, ROOT) == ROOT && |LastSlots(s, ROOT)| == SLOTS == FreeSlot(LastSlots(s, ROOT), 0)
    && FindSlot(LastSlots(s, ROOT), "a", 0) == 0 && FindSlot(LastSlots(s, ROOT), "n", 0) == SLOTS
    && Called(s, Make(["m"], 1)) && Asks(s, ["m"]) && EntryIn(s.blk, [ROOT], "m") == None
  }

  lemma TwelveFiles(image: seq<Block>, max: nat) returns (s: Fs)
    requires Image(image, max) && 23 <= max
    ensures Leads(Formatted(image, max), Makes(12), s) && Dozen(s, max)
    ensures |s.blk| == |image| && s.blk[21] == image[21] && 9 in s.objs && Chain(s, 9) == [9]
  {
    hide Ok, Depicts, Leads, Formatted, Full, Blocks, Makes, Dozen, UniqueNames;
    s := FillTo(image, max, 12);
    TwelveNames(max, |image|);
    PictureUnique(Full(12, max, |image|), s);
    IsDozen(Full(12, max, |image|), s);
  }

  lemma TwelveNames(max: nat, size: nat)
    ensures var p := Full(12, max, size);
      && p.used == Blocks(0, 8) + Blocks(9, 12) && p.max == max && 9 in p.chains && p.chains[9] == [9]
      && |p.slots| == SLOTS == FreeSlot(p.slots, 0) && FindSlot(p.slots, "a", 0) == 0
      && FindSlot(p.slots, "m", 0) == SLOTS == FindSlot(p.slots, "n", 0)
      && forall i, j ::
          0 <= i < SLOTS && 0 <= j < SLOTS && Live(p.slots[i]) && Named(p.slots[j], p.slots[i].fname) ==> i == j
  {
    hide NameOf, FindSlot, FreeSlot, Blocks;
    var p := Full(12, max, size);
    SomeNames();
    forall i | 0 <= i < SLOTS
      ensures !Named(p.slots[i], "m") && !Named(p.slots[i], "n") && Live(p.slots[i])
      ensures forall j :: 0 <= j < i ==> NameOf(j) != NameOf(i)
    {
      NamesDiffer(i, 12);
      NamesDiffer(i, 13);
      forall j | 0 <= j < i ensures NameOf(j) != NameOf(i) {
        NamesDiffer(j, i);
      }
    }
    assert Named(p.slots[0], "a");
    hide Full, Named, Live;
    Scanned(p.slots);
  }

  lemma SomeNames()
    ensures NameOf(0) == "a" && NameOf(12) == "m" && NameOf(13) == "n"
  {
  }

  lemma Scanned(slots: seq<Dirent>)
    requires |slots| == SLOTS && Named(slots[0], "a")
    requires forall i :: 0 <= i < SLOTS ==> !Named(slots[i], "m") && !Named(slots[i], "n") && Live(slots[i])
    ensures FreeSlot(slots, 0) == SLOTS && FindSlot(slots, "a", 0) == 0
    ensures FindSlot(slots, "m", 0) == SLOTS == FindSlot(slots, "n", 0)
  {
    hide Named, Live;
  }

  lemma IsDozen(p: Picture, s: Fs)
    requires Depicts(p, s) && UniqueNames(s) && p.used == Blocks(0, 8) + Blocks(9, 12) && 9 in p.chains
    requires p.chains[9] == [9]
    requires |p.slots| == SLOTS == FreeSlot(p.slots, 0) && FindSlot(p.slots, "a", 0) == 0
    requires FindSlot(p.slots, "m", 0) == SLOTS == FindSlot(p.slots, "n", 0)
    ensures Dozen(s, p.max) && 9 in s.objs && Chain(s, 9) == [9]
  {
    PictureResolves(p, s, "m");
    LookupInOne(s.blk, ROOT, "m");
    RootIsDir(s);
    hide Ok, FindSlot, FreeSlot, Visible, EntryIn, UniqueNames;
  }

  lemma FreeAfter(max: nat, k: nat)
    requires 9 + k < max - 1
    ensures FreeBlk(Blocks(0, 8) + Blocks(9, k), max) == Some(9 + k)
    ensures Blocks(0, 8) + Blocks(9, k) + {9 + k} == Blocks(0, 8) + Blocks(9, k + 1)
  {
    NextFreeIs(Blocks(0, 8) + Blocks(9, k), max, 9 + k);
  }

  /** The thirteenth file gets the root directory a second block. */
  lemma Thirteenth(s: Fs, max: nat)
    requires Dozen(s, max) && 24 <= max
    ensures max <= |s.blk| && !LeavesHalf(s, ["m"]) && Create(s, ["m"], 1) == (Grow(s, ROOT, "m", 1, 21, 22), 0)
  {
    MaxOk(s);
    hide Ok, Called, FreeSlot, FindSlot, EntryIn, Grow, Fill, HalfGrown, Visible, UniqueNames, Insert, Blocks, FreeBlk;
    FreeAfter(max, 12);
    FreeAfter(max, 13);
    ResolveInRoot(s, "m");
    InsertsInRoot(s, "m");
    GrowsRoot(s, "m", 21, 22);
  }

  lemma GrowsRoot(s: Fs, name: string, m: int, n: int)
    requires Ok(s) && IsDir(s, ROOT) && FreeSlot(LastSlots(s, ROOT), 0) == SLOTS && FreeBlk(s.used, s.max) == Some(m)
    requires FreeBlk(s.used + {m}, s.max) == Some(n) && 0 <= LastBlock(s, ROOT) < |s.blk| && ROOT < |s.blk|
    requires 0 <= m < |s.blk| && 0 <= n < |s.blk|
    ensures Insert(s, ROOT, name, 1) == (Grow(s, ROOT, name, 1, m, n), 0)
  {
    hide Ok, Grow, Fill, HalfGrown, FreeSlot;
  }

  /** A directory of two blocks: twelve entries in the first, one in the second. */
  ghost predicate Thirteen(s: Fs, max: nat) {
    && Ok(s) && UniqueNames(s) && IsDir(s, ROOT) && Chain(s, ROOT) == [ROOT, 21] && 21 < |s.blk|
    && s.used == Blocks(0, 8) + Blocks(9, 14) && s.max == max
    && |SlotsAt(s.blk, ROOT)| == SLOTS && Live(SlotsAt(s.blk, ROOT)[0])
    && FindSlot(SlotsAt(s.blk, ROOT), "a", 0) == 0 && FindSlot(SlotsAt(s.blk, ROOT), "n", 0) == SLOTS
    && FreeSlot(SlotsAt(s.blk, ROOT), 0) == SLOTS && SlotsAt(s.blk, 21) == Fresh().slots[0 := Dirent("m", 0, 22, 1)]
  }

  lemma IsThirteen(s: Fs, s': Fs, max: nat)
    requires Dozen(s, max) && 24 <= max <= |s.blk| && Ok(s') && UniqueNames(s') && s' == Grow(s, ROOT, "m", 1, 21, 22)
    ensures Thirteen(s', max)
  {
    hide Ok, Called, FreeSlot, FindSlot, EntryIn, UniqueNames, Asks, Moved, Fresh, WithNumbers, WithName, WfBlock;
    assert Live(LastSlots(s, ROOT)[0]);
    assert Blocks(0, 8) + Blocks(9, 12) + {21} + {22} == Blocks(0, 8) + Blocks(9, 14);
  }

  lemma ResolveInRoot(s: Fs, name: string)
    ensures Resolve(s, [name]) == Entry(s, ROOT, name) && Resolve(s, []) == Some(ROOT_ENTRY)
    ensures Front([name]) == [] && Last([name]) == name
  {
    assert Front([name]) == [] && Last([name]) == name;
  }

  lemma ThirteenLookups(s: Fs, max: nat)
    requires Thirteen(s, max)
    ensures Resolve(s, ["a"]).Some? && Resolve(s, ["n"]) == None && !Visible(s.blk, Chain(s, ROOT), "n")
    ensures EntryIn(s.blk, [21], "a") == None && !OnlyLastHolds(s, ROOT) && FreeSlot(SlotsAt(s.blk, 21), 0) < SLOTS
  {
    hide Ok, UniqueNames, Blocks;
    ResolveInRoot(s, "a");
    ResolveInRoot(s, "n");
    OnlyM("a");
    OnlyM("n");
    forall x
      ensures EntryIn(s.blk, Chain(s, ROOT), x) == if EntryIn(s.blk, [ROOT], x).Some? then EntryIn(s.blk, [ROOT], x)
          else EntryIn(s.blk, [21], x)
    {
      LookupInTwo(s.blk, ROOT, 21, x);
    }
    LookupInOne(s.blk, ROOT, "a");
    LookupInOne(s.blk, ROOT, "n");
    LookupInOne(s.blk, 21, "a");
    LookupInOne(s.blk, 21, "n");
    assert Live(SlotsAt(s.blk, Chain(s, ROOT)[0])[0]);
  }

  lemma OnlyM(name: string)
    requires name != "m"
    ensures var slots := Fresh().slots[0 := Dirent("m", 0, 22, 1)];
      FindSlot(slots, name, 0) == SLOTS == |slots| && FreeSlot(slots, 0) == 1
  {
    var slots := Fresh().slots[0 := Dirent("m", 0, 22, 1)];
    assert !Live(slots[1]);
    assert forall k :: 0 <= k < SLOTS ==> !Named(slots[k], name);
  }

  lemma InsertsInRoot(s: Fs, name: string)
    requires Ok(s) && |name| <= NAME_MAX && IsDir(s, ROOT) && !Visible(s.blk, Chain(s, ROOT), name)
    ensures Create(s, [name], 1) == Insert(s, ROOT, name, 1)
  {
    hide Ok, Visible, Insert;
    ResolveInRoot(s, name);
    ResolveMeans(s, []);
  }

  lemma FourteenthFits(s: Fs, max: nat)
    requires Thirteen(s, max) && 26 <= max
    ensures IsDir(s, ROOT) && LastBlock(s, ROOT) == 21 && FreeSlot(LastSlots(s, ROOT), 0) < SLOTS
    ensures FreeBlk(s.used, s.max) == Some(23)
  {
    ThirteenLookups(s, max);
    hide Ok, UniqueNames, FreeSlot, FindSlot, Visible, EntryIn, OnlyLastHolds, Fresh, Blocks, FreeBlk;
    FreeAfter(max, 14);
  }

  lemma FillsSecond(s: Fs, name: string)
    requires Ok(s) && IsDir(s, ROOT) && FreeSlot(LastSlots(s, ROOT), 0) < SLOTS && FreeBlk(s.used, s.max).Some?
    ensures Insert(s, ROOT, name, 1).1 == 0
  {
    hide Ok, Fill, FreeSlot;
  }

  /** The fourteenth file has the second block written over the first: the entries of the first
      twelve are lost. */
  lemma Fourteenth(s: Fs, max: nat)
    requires Thirteen(s, max) && 26 <= max
    ensures Create(s, ["n"], 1).1 == 0 && Resolve(Create(s, ["n"], 1).0, ["a"]) == None
  {
    hide Ok, UniqueNames, Blocks, FreeSlot, FindSlot, Visible, Insert, Create, EntryIn, OnlyLastHolds, Inserted;
    hide Thirteen;
    ThirteenLookups(s, max);
    ThirteenOk(s, max);
    FourteenthFits(s, max);
    InsertsInRoot(s, "n");
    FillsSecond(s, "n");
    var s' := Create(s, ["n"], 1).0;
    var n := InsertEffect(s, ROOT, "n", 1);
    InsertedLookup(s, s', ROOT, "n", n, "a");
    ResolveInRoot(s', "a");
  }

  lemma ThirteenOk(s: Fs, max: nat)
    requires Thirteen(s, max)
    ensures Ok(s) && IsDir(s, ROOT)
  {
  }

  lemma InsertedLookup(s: Fs, s': Fs, d: int, name: string, n: int, x: string)
    requires Inserted(s, s', d, name, 1, n) && x != name
    ensures Entry(s', d, x) == EntryIn(s.blk, [LastBlock(s, d)], x)
  {
  }

  /** So after thirteen files the next creation succeeds and is not the tree's: the first file's
      path leads nowhere. */
  lemma EntryLost(image: seq<Block>, max: nat) returns (s: Fs)
    requires Image(image, max) && 26 <= max
    ensures Leads(Formatted(image, max), Makes(13), s) && Ok(s) && UniqueNames(s)
    ensures Resolve(s, ["a"]).Some? && Resolve(s, ["n"]) == None && Create(s, ["n"], 1).1 == 0
    ensures Resolve(Create(s, ["n"], 1).0, ["a"]) == None
    ensures TreeOf(Create(s, ["n"], 1).0) != TreeOf(s)[["n"] := EmptyNode(1)]
  {
    hide Ok, Leads, Formatted, UniqueNames, Makes, Resolve, Create, TreeOf, Grow, Dozen, LeavesHalf, Called;
    hide OnlyLastHolds, EntryIn, Thirteen, Visible;
    var t := TwelveFiles(image, max);
    DozenFacts(t, max);
    Thirteenth(t, max);
    LeadsMore(Formatted(image, max), Makes(12), t, Make(["m"], 1));
    s := Grow(t, ROOT, "m", 1, 21, 22);
    CreateUniqueExactly(t, ["m"], 1);
    IsThirteen(t, s, max);
    ThirteenLookups(s, max);
    ResolveInRoot(s, "n");
    Fourteenth(s, max);
    CreateAddsExactly(s, ["n"], 1);
    MakesOne(12, "m");
  }

  lemma DozenFacts(s: Fs, max: nat)
    requires Dozen(s, max)
    ensures Ok(s) && UniqueNames(s) && IsDir(s, ROOT) && s.max == max <= |s.blk| && ROOT < |s.blk|
    ensures LastBlock(s, ROOT) == ROOT && EntryIn(s.blk, [ROOT], "m") == None
    ensures Called(s, Make(["m"], 1)) && Front(["m"]) == [] && Last(["m"]) == "m" && Resolve(s, []) == Some(ROOT_ENTRY)
  {
    MaxOk(s);
    hide Ok, UniqueNames, Called, EntryIn;
  }

  lemma MakesOne(k: nat, name: string)
    requires k < 26 && NameOf(k) == name
    ensures Makes(k) + [Make([name], 1)] == Makes(k + 1)
  {
  }

  /** With one start left, the thirteenth file leaves the root directory half-grown. That mends
      itself if the block it now leads to is clean, and cannot when the block's stale pointer
      leads into a file. */
  lemma HalfGrowth(image: seq<Block>) returns (s: Fs)
    requires Image(image, 23)
    ensures Leads(Formatted(image, 23), Makes(12), s) && Ok(s) && Called(s, Make(["m"], 1)) && LeavesHalf(s, ["m"])
    ensures Clean(image[21]) ==> Ok(Next(s, Make(["m"], 1)))
    ensures image[21].next == 9 ==> !exists r :: Ok(r) && Relisted(s, Create(s, ["m"], 1).0, r, ROOT)
  {
    hide Ok, Leads, Formatted, UniqueNames, Makes, Resolve, Create, Dozen, LeavesHalf, Called, EntryIn, HalfGrows;
    hide Mends, Clean, Relisted, Created;
    s := TwelveFiles(image, 23);
    DozenFacts(s, 23);
    OneStartLeft(s);
    CreateOkExactly(s, ["m"], 1);
    CleanMends(s, ROOT);
    assert 9 in Chain(s, 9);
  }

  lemma NoneAfter()
    ensures FreeBlk(Blocks(0, 8) + Blocks(9, 13), 23) == None
  {
    assert forall b :: FIRST <= b < 22 ==> b in Blocks(9, 13);
  }

  lemma OneStartLeft(s: Fs)
    requires Dozen(s, 23)
    ensures LeavesHalf(s, ["m"]) && HalfGrows(s, ROOT) && FreeBlk(s.used, s.max) == Some(21)
  {
    hide Ok, Called, FreeSlot, FindSlot, EntryIn, Visible, UniqueNames, Blocks, FreeBlk;
    FreeAfter(23, 12);
    NoneAfter();
    ResolveInRoot(s, "m");
  }

  // ---- a first run too short

  /** a, b, c and d in blocks 9 to 12, d with a second block 13, the last one a search may start
      at; then a and c removed. */
  function Fragments(buf: seq<byte>): seq<Op> {
    Makes(4) + [Put(["d"], buf, 0)] + [Unmake(["a"], 1)] + [Unmake(["c"], 1)]
  }

  /** An append of more than one block's worth then takes the one-block runs 9 and 11, and
      leaves the second out of the file's chain: no good disk is left. */
  lemma RunUnlinked(image: seq<Block>, buf: seq<byte>, more: seq<byte>) returns (s: Fs)
    requires Image(image, 15) && |buf| == 497 && 1000 <= |more| < 1400
    ensures Leads(Formatted(image, 15), Fragments(buf), s) && Ok(s) && Room(s, more)
    ensures Resolve(s, ["b"]) == Some(Dirent("b", 0, 10, 1)) && 10 in s.objs && Chain(s, 10) == [10]
    ensures WriteDisk(s, 10, more, 0).2 == 0 && !LinkedToNew(WriteDisk(s, 10, more, 0).0, s.used, 10, [10])
    ensures Called(s, Put(["b"], more, 0)) && !LeavesGood(s, Put(["b"], more, 0))
  {
    hide Ok, Depicts, Leads, Formatted, WriteDisk, LinkedToNew, Resolve, Fragments, LeavesGood;
    var q;
    s, q := Fragmented(image, buf);
    DepictsOk(q, s);
    DepictsRoom(q, s, more);
    FragmentFacts(q, s);
    assert Surplus(0, more) == more[CAP..];
    FirstIsNine(s, more[CAP..]);
    assert FirstRun(s, 0, more) == Run(1, 9) && !Covers(s, 0, more);
    LinksExactly(s, 10, more, 0);
    assert [10][..1] == [10];
    UnlinkedStores(s, more);
    UnlinkedBreaks(s, more);
  }

  lemma UnlinkedStores(s: Fs, more: seq<byte>)
    requires Ok(s) && Room(s, more) && 10 in s.objs && Chain(s, 10) == [10] && s.used == BUSY && s.max == 15
    requires 1000 <= |more| < 1400 && FirstRun(s, 0, more) == Run(1, 9) && Surplus(0, more) == more[CAP..]
    ensures WriteDisk(s, 10, more, 0).2 == 0
  {
    hide Ok, AppendRuns, WriteDisk, FirstRun, Surplus;
    WriteDiskRuns(s, 10, more, 0);
    var b := Patched(s.blk[10], 0, more).(next := 9);
    NotEleven(s.used);
    TwoRuns(s.blk[10 := b], s.used + Blocks(9, 1), s.max, b, more[CAP..], Run(1, 9), 11);
  }

  /** For three blocks' worth and more the two runs do not suffice and nothing else is free: the
      write fails with both runs marked and written, and the file's entry as it was. */
  lemma RunsTooLittle(image: seq<Block>, buf: seq<byte>, more: seq<byte>) returns (s: Fs)
    requires Image(image, 15) && |buf| == 497 && |more| > 3 * CAP && 15 + Asked(|more|) <= |image|
    ensures Leads(Formatted(image, 15), Fragments(buf), s) && Ok(s) && Room(s, more)
    ensures Resolve(s, ["b"]) == Some(Dirent("b", 0, 10, 1)) && ROOT < |s.blk|
    ensures var (s', r) := Write(s, ["b"], more, 0);
      r == -1 && s'.used == s.used + {9, 11} && ROOT < |s'.blk| && s'.blk[ROOT] == s.blk[ROOT]
  {
    hide Ok, Depicts, Leads, Formatted, WriteDisk, Resolve, Fragments, Write, Surplus, FirstRun;
    var q;
    s, q := Fragmented(image, buf);
    DepictsOk(q, s);
    DepictsSize(q, s);
    FragmentFacts(q, s);
    MoreThanFits(more);
    FirstOf(s.used, Asked(|more| - CAP), 9);
    FirstRunIs(s, more);
    TwoTooLittle(s, more);
    FailedWrite(s, more);
    RootIsDir(s);
    RootStays(s, more);
  }

  lemma RootStays(s: Fs, more: seq<byte>)
    requires Ok(s) && Room(s, more) && 10 in s.objs && !s.objs[10].isDir
    ensures ROOT < |s.blk| && WriteDisk(s, 10, more, 0).0[ROOT] == s.blk[ROOT]
  {
    RootIn(s);
    hide Ok, WriteDisk;
    WriteKeepsDirs(s, 10, more, 0, ROOT, ROOT);
  }

  lemma RootIn(s: Fs)
    requires Ok(s)
    ensures IsDir(s, ROOT) && ROOT in Chain(s, ROOT)
  {
    assert ObjOk(s, ROOT);
  }

  lemma MoreThanFits(more: seq<byte>)
    requires |more| > 3 * CAP
    ensures Surplus(0, more) == more[CAP..]
  {
  }

  lemma FirstRunIs(s: Fs, more: seq<byte>)
    requires |more| > 3 * CAP && Surplus(0, more) == more[CAP..] && s.max == 15
    requires Best(s.used, FIRST, 14, Asked(|more| - CAP)) == Run(1, 9)
    ensures FirstRun(s, 0, more) == Run(1, 9)
  {
  }

  lemma FailedWrite(s: Fs, more: seq<byte>)
    requires Ok(s) && Room(s, more) && Resolve(s, ["b"]) == Some(Dirent("b", 0, 10, 1)) && 10 in s.objs
    requires WriteDisk(s, 10, more, 0).2 == -1
    ensures var q := WriteDisk(s, 10, more, 0); Write(s, ["b"], more, 0) == (s.(blk := q.0, used := q.1), -1)
  {
    hide Ok, WriteDisk, Resolve;
  }

  /** The first free block, when the one behind it is in use. */
  lemma FirstOf(used: set<int>, n: nat, x: int)
    requires n > 1 && ((used == BUSY && x == 9) || (used == BUSY + {9} && x == 11))
    ensures Best(used, FIRST, 14, n) == Run(1, x)
  {
    forall b | FIRST <= b < 14 ensures RunLen(used, b, n) == if b == x || b == 11 then 1 else 0 {
      RunLenUnique(used, b, n, if b == x || b == 11 then 1 else 0);
    }
    BestUnique(used, FIRST, 14, n, Run(1, x));
  }

  lemma TwoTooLittle(s: Fs, more: seq<byte>)
    requires Ok(s) && Room(s, more) && 10 in s.objs && Chain(s, 10) == [10] && s.used == BUSY && s.max == 15
    requires |more| > 3 * CAP && FirstRun(s, 0, more) == Run(1, 9) && Surplus(0, more) == more[CAP..]
    ensures var q := WriteDisk(s, 10, more, 0); q.2 == -1 && q.1 == BUSY + {9, 11}
  {
    hide Ok, AppendRuns, WriteDisk, FirstRun, Surplus, FillRun, Best, IsBest, Patched;
    WriteDiskRuns(s, 10, more, 0);
    OneBlockRun(9);
    OneBlockRun(11);
    var b, rest := Patched(s.blk[10], 0, more).(next := 9), more[CAP..];
    var blk1 := s.blk[10 := b];
    AppendUnfold(blk1, BUSY + {9}, 15, b, rest, Run(1, 9));
    FirstOf(BUSY + {9}, Asked(|rest| - CAP), 11);
    var (blk2, content, rest2) := FillRun(blk1, b, rest, 9, 1);
    AppendUnfold(blk2, BUSY + {9} + {11}, 15, content, rest2, Run(1, 11));
    NothingElse(Asked(|rest2| - CAP));
    assert BUSY + {9} + {11} == BUSY + {9, 11};
  }

  lemma OneBlockRun(x: int)
    ensures Blocks(x, 1) == {x}
  {
  }

  lemma NothingElse(n: nat)
    requires n > 0
    ensures Best(BUSY + {9} + {11}, FIRST, 14, n).len < 1
  {
    BestMeans(BUSY + {9} + {11}, FIRST, 14, n);
  }

  /** Behind the run comes block 10, the file's own first block: its blocks run in a circle. */
  lemma UnlinkedBreaks(s: Fs, more: seq<byte>)
    requires Ok(s) && Room(s, more) && 10 in s.objs && !s.objs[10].isDir && Chain(s, 10) == [10]
    requires Resolve(s, ["b"]) == Some(Dirent("b", 0, 10, 1))
    requires FirstRun(s, 0, more) == Run(1, 9) && !Covers(s, 0, more)
    ensures Called(s, Put(["b"], more, 0)) && !LeavesGood(s, Put(["b"], more, 0))
  {
    hide Ok, WriteDisk, Resolve, LeavesGood, RunLinked, Room, Covers, FirstRun;
    var q := WriteDisk(s, 10, more, 0);
    ShortLinked(s, 10, more, 0);
    ShortOwns(s, 10, more, 0);
    forall d | IsChain(q.0, 10, d) ensures false {
      ShortRunPath(q.0, 10, [10], 0, Run(1, 9), d);
    }
    LuckyExactly(s, Put(["b"], more, 0));
  }

  const BUSY: set<int> := {0, 1, 2, 3, 4, 5, 6, 7, 10, 12, 13}

  lemma FragmentFacts(q: Picture, s: Fs)
    requires Depicts(q, s) && q.used == BUSY && q.max == 15 && |q.slots| == SLOTS
    requires q.chains == map[10 := [10], 12 := [12, 13]]
    requires FindSlot(q.slots, "b", 0) == 1 && q.slots[1] == Dirent("b", 0, 10, 1)
    ensures Resolve(s, ["b"]) == Some(Dirent("b", 0, 10, 1)) && 10 in s.objs && !s.objs[10].isDir
    ensures Chain(s, 10) == [10]
    ensures s.used == BUSY && s.max == 15 && 10 < |s.blk|
  {
    PictureResolves(q, s, "b");
    InChain(s, 10, 10);
    hide Ok, FindSlot;
    assert !IsDir(s, 10);
  }

  lemma Fragmented(image: seq<Block>, buf: seq<byte>) returns (s: Fs, q: Picture)
    requires Image(image, 15) && |buf| == 497
    ensures Leads(Formatted(image, 15), Fragments(buf), s) && Depicts(q, s)
    ensures q.used == BUSY && q.max == 15 && q.size == |image| && |q.slots| == SLOTS
    ensures q.chains == map[10 := [10], 12 := [12, 13]]
    ensures FindSlot(q.slots, "b", 0) == 1 && q.slots[1] == Dirent("b", 0, 10, 1)
  {
    hide Ok, Depicts, Leads, Formatted, Full, Makes, Step, Plain, Called, Stretched, Without, FindSlot, Blocks, SetOf;
    var t := FillTo(image, 15, 4);
    var p := Full(4, 15, |image|);
    FourFiles(|image|);
    LastIsThirteen();
    PutDepicts(p, t, "d", 3, buf, Run(1, 13));
    DepictsOk(p, t);
    var op1, op2, op3 := Put(["d"], buf, 0), Unmake(["a"], 1), Unmake(["c"], 1);
    LeadsMore(Formatted(image, 15), Makes(4), t, op1);
    var t1, p1 := Step(t, op1).0, Stretched(p, 3, 497, Run(1, 13));
    DStretched(p);
    UnmakeDepicts(p1, t1, "a", 0);
    LeadsMore(Formatted(image, 15), Makes(4) + [op1], t1, op2);
    var t2, p2 := Step(t1, op2).0, Without(p1, 0);
    ADropped(p1);
    UnmakeDepicts(p2, t2, "c", 2);
    DepictsOk(p2, t2);
    LeadsMore(Formatted(image, 15), Makes(4) + [op1] + [op2], t2, op3);
    s, q := Step(t2, op3).0, Without(p2, 2);
    CDropped(p2);
  }

  lemma FourFiles(size: nat)
    ensures var p := Full(4, 15, size);
      && |p.slots| == SLOTS && p.max == 15 && p.size == size && p.used == Blocks(0, 8) + Blocks(9, 4)
      && p.chains == map[9 := [9], 10 := [10], 11 := [11], 12 := [12]]
      && p.slots[0] == Dirent("a", 0, 9, 1) && p.slots[1] == Dirent("b", 0, 10, 1)
      && p.slots[2] == Dirent("c", 0, 11, 1) && p.slots[3] == Dirent("d", 0, 12, 1)
    ensures FindSlot(Full(4, 15, size).slots, "d", 0) == 3
  {
    FourSlots(size);
    hide NameOf;
    FoundFourth(Full(4, 15, size).slots);
  }

  lemma FourSlots(size: nat)
    ensures var s := Full(4, 15, size).slots;
      && |s| == SLOTS && s[0] == Dirent("a", 0, 9, 1) && s[1] == Dirent("b", 0, 10, 1)
      && s[2] == Dirent("c", 0, 11, 1) && s[3] == Dirent("d", 0, 12, 1)
  {
    assert NameOf(0) == "a" && NameOf(1) == "b" && NameOf(2) == "c" && NameOf(3) == "d";
  }

  lemma FoundFourth(slots: seq<Dirent>)
    requires |slots| == SLOTS && slots[3].fname == "d" && slots[3].flag == 1
    requires slots[0].fname != "d" && slots[1].fname != "d" && slots[2].fname != "d"
    ensures FindSlot(slots, "d", 0) == 3
  {
    assert Named(slots[3], "d");
  }

  lemma LastIsThirteen()
    ensures Best(Blocks(0, 8) + Blocks(9, 4), FIRST, 14, 1) == Run(1, 13)
  {
    var used := Blocks(0, 8) + Blocks(9, 4);
    RunLenUnique(used, 13, 1, 1);
    forall b | FIRST <= b < 13 ensures RunLen(used, b, 1) == 0 {
      RunLenUnique(used, b, 1, 0);
    }
    BestUnique(used, FIRST, 14, 1, Run(1, 13));
  }

  lemma DStretched(p: Picture)
    requires |p.slots| == SLOTS && p.used == Blocks(0, 8) + Blocks(9, 4)
    requires p.chains == map[9 := [9], 10 := [10], 11 := [11], 12 := [12]]
    requires p.slots[0] == Dirent("a", 0, 9, 1) && p.slots[3] == Dirent("d", 0, 12, 1)
    ensures var q := Stretched(p, 3, 497, Run(1, 13));
      && q.slots == p.slots[3 := Dirent("d", 497, 12, 1)] && q.max == p.max && q.size == p.size
      && q.used == Blocks(0, 8) + Blocks(9, 5)
      && q.chains == map[9 := [9], 10 := [10], 11 := [11], 12 := [12, 13]]
    ensures FindSlot(p.slots[3 := Dirent("d", 497, 12, 1)], "a", 0) == 0
  {
    CeilStep(1);
    assert RunSeq(13, 1) == [13] && [12][..1] + [13] == [12, 13];
    assert Blocks(0, 8) + Blocks(9, 4) + Blocks(13, 1) == Blocks(0, 8) + Blocks(9, 5);
  }

  lemma ADropped(p: Picture)
    requires |p.slots| == SLOTS && p.used == Blocks(0, 8) + Blocks(9, 5)
    requires p.chains == map[9 := [9], 10 := [10], 11 := [11], 12 := [12, 13]]
    requires p.slots[0] == Dirent("a", 0, 9, 1) && p.slots[1] == Dirent("b", 0, 10, 1)
    requires p.slots[2] == Dirent("c", 0, 11, 1)
    ensures var q := Without(p, 0);
      && q.slots == p.slots[0 := Cleared(p.slots[0])] && q.max == p.max && q.size == p.size
      && q.used == Blocks(0, 8) + Blocks(10, 4)
      && q.chains == map[10 := [10], 11 := [11], 12 := [12, 13]] && FindSlot(q.slots, "c", 0) == 2
  {
    hide Blocks;
    var q := Without(p, 0);
    assert FindSlot(q.slots, "c", 0) == FindSlot(q.slots, "c", 1) == FindSlot(q.slots, "c", 2) == 2;
    BlocksWithout(9, 5);
  }

  lemma BlocksWithout(b: int, n: nat)
    requires b >= 8 && n > 0
    ensures Blocks(0, 8) + Blocks(b, n) - SetOf([b]) == Blocks(0, 8) + Blocks(b + 1, n - 1)
  {
    hide Blocks;
  }

  lemma CDropped(p: Picture)
    requires |p.slots| == SLOTS && p.used == Blocks(0, 8) + Blocks(10, 4)
    requires p.chains == map[10 := [10], 11 := [11], 12 := [12, 13]]
    requires !Live(p.slots[0]) && p.slots[1] == Dirent("b", 0, 10, 1) && p.slots[2] == Dirent("c", 0, 11, 1)
    ensures var q := Without(p, 2);
      && q.slots == p.slots[2 := Cleared(p.slots[2])] && q.max == p.max && q.size == p.size && q.used == BUSY
      && q.chains == map[10 := [10], 12 := [12, 13]] && FindSlot(q.slots, "b", 0) == 1
  {
    hide FindSlot;
    FoundSecond(Without(p, 2).slots);
    BusyWithout();
  }

  lemma FoundSecond(slots: seq<Dirent>)
    requires |slots| == SLOTS && !Live(slots[0]) && slots[1] == Dirent("b", 0, 10, 1)
    ensures FindSlot(slots, "b", 0) == 1
  {
    assert Named(slots[1], "b");
  }

  lemma BusyWithout()
    ensures Blocks(0, 8) + Blocks(10, 4) - SetOf([11]) == BUSY
  {
  }

  lemma NotEleven(used: set<int>)
    requires used == BUSY
    ensures 11 !in used + Blocks(9, 1)
  {
  }

  /** Two runs suffice for less than two blocks' worth of bytes, if block x is left for the
      second. */
  lemma TwoRuns(blk: seq<Block>, used: set<int>, max: nat, content: Block, buf: seq<byte>, r: Run, x: int)
    requires WfBlock(content) && r.len == 1 && 0 <= r.start && r.start + r.len <= |blk|
    requires max + Asked(|buf|) <= |blk| && CAP < |buf| < 2 * CAP && FIRST <= x < max - 1 && x !in used
    ensures AppendRuns(blk, used, max, content, buf, r).2 == 0
  {
    FillRunRest(blk, content, buf, r.start, r.len);
    var (blk1, content1, rest) := FillRun(blk, content, buf, r.start, r.len);
    BestMeans(used, FIRST, max - 1, Asked(|rest|));
    hide FillRun, Best, IsBest;
    var r1 := Best(used, FIRST, max - 1, Asked(|rest|));
    OnDisk(used, max, Asked(|rest|));
    OneRun(blk1, used + Blocks(r1.start, r1.len), max, content1, rest, r1);
  }

  lemma FirstIsNine(s: Fs, rest: seq<byte>)
    requires s.used == BUSY && s.max == 15 && 500 < |rest| < 992
    ensures Best(s.used, FIRST, s.max - 1, Asked(|rest|)) == Run(1, 9)
  {
    var n := Asked(|rest|);
    assert n == 2;
    forall b | 9 <= b < 14 ensures RunLen(s.used, b, n) == if b == 9 || b == 11 then 1 else 0 {
    }
    BestUnique(s.used, FIRST, s.max - 1, n, Run(1, 9));
  }
}
