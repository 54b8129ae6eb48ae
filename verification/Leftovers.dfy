/** What a file leaves in a block that a half-grown directory then leads to: bytes that are read
    as entries. */
module Leftovers {
  import opened Paths
  import opened Runs
  import opened Disk
  import opened Tree
  import opened FileData
  import opened Creating
  import opened HalfGrowing
  import opened Writing
  import opened Splicing
  import opened Appending
  import opened History
  import opened Reaching
  import opened Deviations
  import opened Layout

  // ---- a write that cuts its file off

  function Cut(p: Picture, k: nat): Picture
    requires k < |p.slots| && p.slots[k].start in p.chains && p.chains[p.slots[k].start] != []
  {
    var o := p.slots[k].start;
    p.(chains := p.chains[o := p.chains[o][..1]], used := p.used - SetOf(p.chains[o][1..]))
  }

  /** A file of the root directory, and a buffer no longer than it that fits its first block. */
  ghost predicate Cuts(p: Picture, name: string, k: nat, buf: seq<byte>) {
    && k == FindSlot(p.slots, name, 0) < SLOTS <= |p.slots| && p.slots[k].flag == 1 && p.slots[k].start in p.chains
    && p.chains[p.slots[k].start] != [] && |buf| <= p.slots[k].fsize && |buf| < CAP && p.max + 1 <= p.size
  }

  lemma CutGoes(p: Picture, s: Fs, name: string, k: nat, buf: seq<byte>)
    requires Depicts(p, s) && Cuts(p, name, k, buf)
    ensures Called(s, Put([name], buf, 0)) && Plain(s, Put([name], buf, 0)) && Room(s, buf)
    ensures var o, c := p.slots[k].start, p.chains[p.slots[k].start];
      && o in s.objs && !s.objs[o].isDir && Chain(s, o) == c && 0 <= c[0] < |s.blk| && WfBlock(s.blk[c[0]]) && c[0] == o
      && Resolve(s, [name]) == Some(p.slots[k])
      && WriteDisk(s, o, buf, 0) == (s.blk[o := Patched(s.blk[o], 0, buf).(next := -1)], s.used - SetOf(c[1..]), 0)
  {
    PictureResolves(p, s, name);
    ResolveMeans(s, [name]);
    var o := p.slots[k].start;
    ObjHere(s, o);
    InChain(s, o, o);
    assert Surplus(0, buf) == [] && Covers(s, 0, buf);
    hide FindSlot, Resolve, FirstRun, IsChain;
  }

  lemma CutWrites(p: Picture, s: Fs, name: string, k: nat, buf: seq<byte>)
    requires Depicts(p, s) && Cuts(p, name, k, buf) && Room(s, buf)
    ensures var o := p.slots[k].start;
      && o in s.objs && Chain(s, o) != [] && 0 <= o < |s.blk| && WfBlock(s.blk[o])
      && Write(s, [name], buf, 0)
      == (Relink(s, o, 0, Added(s, 0, buf).0, 0, s.blk[o := Patched(s.blk[o], 0, buf).(next := -1)],
                 s.used - SetOf(Chain(s, o)[1..])), |buf|)
  {
    CutGoes(p, s, name, k, buf);
    hide Ok, FindSlot, Resolve, FirstRun, Relink, SetSize, WriteDisk, Cuts;
    assert Surplus(0, buf) == [];
    CutKeepsSize(p, name, k, buf);
  }

  lemma CutKeepsSize(p: Picture, name: string, k: nat, buf: seq<byte>)
    requires Cuts(p, name, k, buf)
    ensures k < |p.slots| && |buf| <= p.slots[k].fsize && Ceil(0) == 0
  {
  }

  lemma CutDepicts(p: Picture, s: Fs, name: string, k: nat, buf: seq<byte>)
    requires Depicts(p, s) && Cuts(p, name, k, buf)
    ensures var op, s' := Put([name], buf, 0), Step(s, Put([name], buf, 0)).0;
      && Called(s, op) && Plain(s, op) && Depicts(Cut(p, k), s')
      && |s'.blk| == |s.blk| && forall x :: 0 <= x < |s.blk| && x != p.slots[k].start ==> s'.blk[x] == s.blk[x]
  {
    hide Ok, Write, Plain, Called, Relink, Looks, Patched, Cuts, Cut, Room, FirstRun;
    CutGoes(p, s, name, k, buf);
    CutWrites(p, s, name, k, buf);
    CutStart(p, s, name, k, buf);
    PutIsWrite(s, name, buf);
    PlainOk(s, Put([name], buf, 0));
    var o := p.slots[k].start;
    CutLooks(p, s, name, k, s.blk[o := Patched(s.blk[o], 0, buf).(next := -1)], Added(s, 0, buf).0);
  }

  lemma CutStart(p: Picture, s: Fs, name: string, k: nat, buf: seq<byte>)
    requires Depicts(p, s) && Cuts(p, name, k, buf)
    ensures k < |p.slots| && p.slots[k].start in p.chains && p.chains[p.slots[k].start] != []
    ensures p.slots[k].start != ROOT && ROOT < |s.blk| && Chain(s, p.slots[k].start) == p.chains[p.slots[k].start]
    ensures Depicts(p, s) && Ok(s)
  {
  }

  lemma CutLooks(p: Picture, s: Fs, name: string, k: nat, blk': seq<Block>, start: int)
    requires Looks(p, s) && k < |p.slots| && p.slots[k].start in p.chains && p.chains[p.slots[k].start] != []
    requires p.slots[k].start in s.objs && p.slots[k].start != ROOT
    requires |blk'| == |s.blk| && ROOT < |s.blk| && blk'[ROOT] == s.blk[ROOT]
    ensures var o := p.slots[k].start; var c := p.chains[o];
      var s' := Relink(s, o, 0, start, 0, blk', s.used - SetOf(c[1..])); s'.blk == blk' && Looks(Cut(p, k), s')
  {
    hide Relink;
    var o := p.slots[k].start;
    RelinkShape(s, o, 0, start, 0, blk', s.used - SetOf(p.chains[o][1..]));
    assert p.chains[o][..1] + RunSeq(start, 0) == p.chains[o][..1];
    OnlyRoot(p, s, Relink(s, o, 0, start, 0, blk', s.used - SetOf(p.chains[o][1..])));
  }

  // ---- the bytes of a file's second block

  /** What the second block of a file holds after a write of between one and two blocks' worth
      from its start: the rest of the buffer, and behind it what the program's buffer still
      holds of the first block. */
  function LeftBehind(buf: seq<byte>): (r: seq<byte>)
    requires CAP < |buf| <= 2 * CAP
    ensures |r| == CAP
  {
    buf[CAP..] + buf[|buf| - CAP..CAP]
  }

  ghost predicate Left(y: Block, buf: seq<byte>) {
    && CAP < |buf| <= 2 * CAP
    && y.data == LeftBehind(buf) && y.slots == Entries(LeftBehind(buf)) && y.next == -1
  }

  lemma SecondBlock(b0: Block, buf: seq<byte>, b: int)
    requires WfBlock(b0) && CAP < |buf| <= 2 * CAP
    ensures WfBlock(Patched(b0, 0, buf).(next := b))
    ensures Left(Filled(Patched(b0, 0, buf).(next := b), buf[CAP..], b), buf)
  {
    hide Entries;
    var first := Patched(b0, 0, buf).(next := b);
    assert first.data == buf[..CAP];
    assert Overlay(buf[..CAP], 0, buf[CAP..]) == LeftBehind(buf);
    assert buf[CAP..][..|buf| - CAP] == buf[CAP..];
  }

  /** The block behind the link holds just that. */
  lemma PutLeaves(p: Picture, s: Fs, name: string, k: nat, buf: seq<byte>, b: int)
    requires Depicts(p, s) && Puts(p, name, k, buf, Run(1, b)) && |buf| <= 2 * CAP && b != ROOT && Room(s, buf)
    ensures 0 <= b < |s.blk| && |Write(s, [name], buf, 0).0.blk| == |s.blk|
    ensures Left(Write(s, [name], buf, 0).0.blk[b], buf)
  {
    hide Ok, FindSlot, IsChain, WriteDisk, Relink, Room, Best, Planned, Wrote, Write, Plain, SetSize, Entries, Called;
    hide FirstRun, Covers, Left;
    PictureResolves(p, s, name);
    EntrySlot(p, s, name);
    PutPlain(p, s, name, k, buf, Run(1, b));
    PutGoes(p, s, name, k, buf, Run(1, b));
    var o, k', off, start, m, blk', used' := WroteParts(s, [name], buf, 0);
    PlannedDisk(s, o, buf, 0, off, start, m, blk', used');
    RelinkShape(s, o, 0, start, m, blk', used');
    DataLeft(s, o, buf, b);
    OneSlot(Relink(s, o, 0, start, m, blk', used'), k, |buf|, b);
  }

  lemma PutIsWrite(s: Fs, name: string, buf: seq<byte>)
    requires Ok(s) && Called(s, Put([name], buf, 0))
    ensures Room(s, buf) && Step(s, Put([name], buf, 0)) == Write(s, [name], buf, 0)
  {
    hide Ok, Write;
  }

  lemma OneSlot(s: Fs, k: int, size: nat, b: int)
    requires b != ROOT && 0 <= b < |s.blk|
    ensures |SetSize(s, ROOT, k, size).blk| == |s.blk| && SetSize(s, ROOT, k, size).blk[b] == s.blk[b]
  {
  }

  lemma DataLeft(s: Fs, o: int, buf: seq<byte>, b: int)
    requires Ok(s) && o in s.objs && Room(s, buf) && Chain(s, o) != [] && CAP < |buf| <= 2 * CAP
    requires FirstRun(s, 0, buf) == Run(1, b) && Surplus(0, buf) == buf[CAP..]
    ensures 0 <= b < |s.blk| && Left(WriteDisk(s, o, buf, 0).0[b], buf)
  {
    hide Ok, WriteDisk, FirstRun, Surplus, Left, Filled, Patched, AppendRuns;
    WriteDiskRuns(s, o, buf, 0);
    var c := Chain(s, o);
    var first := Patched(s.blk[c[0]], 0, buf).(next := b);
    SecondBlock(s.blk[c[0]], buf, b);
    OneRun(s.blk[c[0] := first], s.used + Blocks(b, 1), s.max, first, buf[CAP..], Run(1, b));
    FillOneBlock(s.blk[c[0] := first], first, buf[CAP..], b);
  }

  lemma FillOneBlock(blk: seq<Block>, content: Block, buf: seq<byte>, b: int)
    requires 0 <= b < |blk| && WfBlock(content)
    ensures FillRun(blk, content, buf, b, 1).0 == blk[b := Filled(content, buf, b)]
  {
    hide Filled;
    assert FillRun(blk[b := Filled(content, buf, b)], Filled(content, buf, b), Rest(buf), b + 1, 0).0
        == blk[b := Filled(content, buf, b)];
  }

  // ---- a full root directory, and one free block that a file has used

  /** Twelve files; the first is written beyond its block and then cut off behind its first byte,
      so that its second block is free again. */
  function UsedOnce(buf: seq<byte>, x: byte): seq<Op> {
    Makes(12) + [Put(["a"], buf, 0)] + [Put(["a"], [x], 0)]
  }

  lemma TwelveNamed(max: nat, size: nat, n: nat)
    ensures var p := Full(12, max, size);
      && |p.slots| == SLOTS && p.slots[0] == Dirent("a", 0, 9, 1) && FindSlot(p.slots, "a", 0) == 0
      && p.max == max && p.size == size
      && p.used == Blocks(0, 8) + Blocks(9, 12) && 9 in p.chains && p.chains[9] == [9] && TwelveFull(p.slots)
    ensures Full(12, max, size).slots[1] == Dirent("b", 0, 10, 1)
  {
    hide FindSlot, FreeSlot, TwelveFull;
    TwelveNames(max, size);
    FirstTwo(max, size);
    IsTwelveFull(Full(12, max, size).slots);
  }

  lemma FirstTwo(max: nat, size: nat)
    ensures var s := Full(12, max, size).slots; s[0] == Dirent("a", 0, 9, 1) && s[1] == Dirent("b", 0, 10, 1)
  {
    assert NameOf(0) == "a" && NameOf(1) == "b";
  }

  /** Twelve live entries of different names, none of them m or n. */
  ghost predicate TwelveFull(slots: seq<Dirent>) {
    && |slots| == SLOTS
    && (forall i :: 0 <= i < SLOTS ==> Live(slots[i]) && slots[i].fname != "m" && slots[i].fname != "n")
    && forall i, j :: 0 <= i < SLOTS && 0 <= j < SLOTS && i != j ==> slots[i].fname != slots[j].fname
  }

  lemma IsTwelveFull(slots: seq<Dirent>)
    requires |slots| == SLOTS == FreeSlot(slots, 0) && FindSlot(slots, "m", 0) == SLOTS == FindSlot(slots, "n", 0)
    requires forall i, j ::
        0 <= i < SLOTS && 0 <= j < SLOTS && Live(slots[i]) && Named(slots[j], slots[i].fname) ==> i == j
    ensures TwelveFull(slots)
  {
    forall i | 0 <= i < SLOTS ensures Live(slots[i]) && slots[i].fname != "m" && slots[i].fname != "n" {
      assert !Named(slots[i], "m") && !Named(slots[i], "n");
    }
    forall i, j | 0 <= i < SLOTS && 0 <= j < SLOTS && i != j ensures slots[i].fname != slots[j].fname {
      assert Named(slots[j], slots[i].fname) <==> slots[j].fname == slots[i].fname;
    }
  }

  lemma TwelveFullMeans(slots: seq<Dirent>)
    requires TwelveFull(slots)
    ensures FreeSlot(slots, 0) == SLOTS == FindSlot(slots, "m", 0) == FindSlot(slots, "n", 0)
    ensures FindSlot(slots, slots[0].fname, 0) == 0
    ensures forall i, j ::
        0 <= i < SLOTS && 0 <= j < SLOTS && Live(slots[i]) && Named(slots[j], slots[i].fname) ==> i == j
  {
    assert Named(slots[0], slots[0].fname);
  }

  lemma SizedFull(slots: seq<Dirent>, n: nat)
    requires TwelveFull(slots)
    ensures TwelveFull(slots[0 := slots[0].(fsize := n)])
  {
    var s := slots[0 := slots[0].(fsize := n)];
    assert forall i :: 0 <= i < SLOTS ==> s[i].fname == slots[i].fname && s[i].flag == slots[i].flag;
  }

  /** The first write takes block 21. */
  lemma FirstPut(p: Picture, buf: seq<byte>)
    requires p.max == 23 && 31 <= p.size && p.used == Blocks(0, 8) + Blocks(9, 12) && CAP < |buf| < 2 * CAP
    requires |p.slots| == SLOTS && p.slots[0] == Dirent("a", 0, 9, 1) && 9 in p.chains && p.chains[9] == [9]
    requires TwelveFull(p.slots)
    ensures Puts(p, "a", 0, buf, Run(1, 21))
    ensures var q := Stretched(p, 0, |buf|, Run(1, 21));
      && q.slots == p.slots[0 := Dirent("a", |buf|, 9, 1)] && q.chains == p.chains[9 := [9, 21]]
      && q.used == Blocks(0, 8) + Blocks(9, 13) && q.max == p.max && q.size == p.size
  {
    hide Best, IsBest, Blocks, TwelveFull, FindSlot;
    TwelveFullMeans(p.slots);
    LastIsFree();
    CeilStep(|buf| - CAP);
    assert RunSeq(21, 1) == [21] && [9][..1] + [21] == [9, 21];
    OneMoreBlock();
  }

  lemma LastIsFree()
    ensures Best(Blocks(0, 8) + Blocks(9, 12), FIRST, 22, 1) == Run(1, 21)
  {
    var used := Blocks(0, 8) + Blocks(9, 12);
    RunLenUnique(used, 21, 1, 1);
    forall b | FIRST <= b < 21 ensures RunLen(used, b, 1) == 0 {
      RunLenUnique(used, b, 1, 0);
    }
    BestUnique(used, FIRST, 22, 1, Run(1, 21));
  }

  lemma OneMoreBlock()
    ensures Blocks(0, 8) + Blocks(9, 12) + Blocks(21, 1) == Blocks(0, 8) + Blocks(9, 13)
    ensures Blocks(0, 8) + Blocks(9, 13) - SetOf([21]) == Blocks(0, 8) + Blocks(9, 12)
  {
  }

  /** The second write frees it. */
  lemma SecondPut(q: Picture, slots: seq<Dirent>, n: nat, x: byte)
    requires q.max == 23 && 31 <= q.size && q.used == Blocks(0, 8) + Blocks(9, 13) && CAP < n && TwelveFull(slots)
    requires |slots| == SLOTS && slots[0] == Dirent("a", 0, 9, 1) && q.slots == slots[0 := Dirent("a", n, 9, 1)]
    requires 9 in q.chains && q.chains[9] == [9, 21]
    ensures Cuts(q, "a", 0, [x]) && TwelveFull(q.slots)
    ensures var r := Cut(q, 0);
      r.slots == q.slots && r.used == Blocks(0, 8) + Blocks(9, 12) && r.max == 23 && 9 in r.chains && r.chains[9] == [9]
  {
    hide Blocks, TwelveFull, FindSlot;
    SizedFull(slots, n);
    assert slots[0].(fsize := n) == Dirent("a", n, 9, 1);
    TwelveFullMeans(q.slots);
    assert [9, 21][1..] == [21] && [9, 21][..1] == [9];
    OneMoreBlock();
  }

  lemma ReachUsedOnce(image: seq<Block>, buf: seq<byte>, x: byte) returns (s: Fs)
    requires Image(image, 23) && CAP < |buf| < 2 * CAP
    ensures Leads(Formatted(image, 23), UsedOnce(buf, x), s) && Dozen(s, 23) && 21 < |s.blk| && Left(s.blk[21], buf)
    ensures |LastSlots(s, ROOT)| == SLOTS && LastSlots(s, ROOT)[1] == Dirent("b", 0, 10, 1)
  {
    hide Ok, Depicts, Leads, Formatted, Full, Makes, Step, Plain, Called, Stretched, Cut, Puts, Cuts, Blocks, Left;
    hide Dozen, TwelveFull, UniqueNames, FindSlot, FreeSlot, Write;
    var t := FillTo(image, 23, 12);
    var p := Full(12, 23, |image|);
    TwelveNamed(23, |image|, |buf|);
    FirstPut(p, buf);
    PutDepicts(p, t, "a", 0, buf, Run(1, 21));
    DepictsOk(p, t);
    var op1, op2 := Put(["a"], buf, 0), Put(["a"], [x], 0);
    LeadsMore(Formatted(image, 23), Makes(12), t, op1);
    PutIsWrite(t, "a", buf);
    PutLeaves(p, t, "a", 0, buf, 21);
    var t1, p1 := Step(t, op1).0, Stretched(p, 0, |buf|, Run(1, 21));
    SecondPut(p1, p.slots, |buf|, x);
    CutDepicts(p1, t1, "a", 0, [x]);
    DepictsOk(p1, t1);
    LeadsMore(Formatted(image, 23), Makes(12) + [op1], t1, op2);
    s := Step(t1, op2).0;
    var r := Cut(p1, 0);
    TwelveFullMeans(r.slots);
    PictureUnique(r, s);
    IsDozen(r, s);
    RootSlots(r, s);
  }

  lemma RootSlots(p: Picture, s: Fs)
    requires Depicts(p, s)
    ensures LastSlots(s, ROOT) == p.slots
  {
    hide Ok;
  }

  /** The bytes left behind read as no entry in use. */
  ghost predicate ReadsEmpty(buf: seq<byte>)
    requires CAP < |buf| <= 2 * CAP
  {
    forall k :: 0 <= k < SLOTS ==> !Live(Entries(LeftBehind(buf))[k])
  }

  /** Or one of the entries read leads to block b. */
  ghost predicate ReadsAs(buf: seq<byte>, k: nat, b: int)
    requires CAP < |buf| <= 2 * CAP
  {
    k < SLOTS && Live(Entries(LeftBehind(buf))[k]) && Entries(LeftBehind(buf))[k].start == b
  }

  /** The thirteenth file then leaves the root directory half-grown, and leading to the block the
      first file used. What that file left there is read as entries: if none is in use, the disk
      is still a good one; if one leads to the second file's block, that file belongs to two
      entries, and no lists make the disk a good one. */
  lemma FileReadAsEntries(image: seq<Block>, buf: seq<byte>, x: byte) returns (s: Fs)
    requires Image(image, 23) && CAP < |buf| < 2 * CAP
    ensures Leads(Formatted(image, 23), UsedOnce(buf, x), s) && Ok(s) && Called(s, Make(["m"], 1))
    ensures LeavesHalf(s, ["m"]) && 21 < |s.blk| && s.blk[21].data == LeftBehind(buf)
    ensures ReadsEmpty(buf) ==> Ok(Next(s, Make(["m"], 1)))
    ensures (exists k :: ReadsAs(buf, k, 10)) ==> !LeavesGood(s, Make(["m"], 1))
  {
    hide Ok, Leads, Formatted, UsedOnce, Dozen, LeavesHalf, Called, HalfGrows, Mends, LeavesGood, EntryIn, UniqueNames;
    hide Next, Clean;
    s := ReachUsedOnce(image, buf, x);
    DozenFacts(s, 23);
    OneStartLeft(s);
    CleanMends(s, ROOT);
    if ReadsEmpty(buf) {
      LeftClean(s.blk[21], buf);
      CreateOkExactly(s, ["m"], 1);
      NextOfMake(s);
    }
    if k :| ReadsAs(buf, k, 10) {
      TwoEntries(s, buf, k);
      ParentIsRoot(s);
      LuckyExactly(s, Make(["m"], 1));
    }
  }

  lemma LeftClean(y: Block, buf: seq<byte>)
    requires Left(y, buf) && ReadsEmpty(buf)
    ensures Clean(y)
  {
  }

  lemma NextOfMake(s: Fs)
    requires Ok(s) && Called(s, Make(["m"], 1))
    ensures Next(s, Make(["m"], 1)) == Created(s, ["m"], 1)
  {
    hide Ok, Created;
  }

  lemma ParentIsRoot(s: Fs)
    ensures Parent(s, ["m"]) == ROOT
  {
    ResolveInRoot(s, "m");
  }

  lemma TwoEntries(s: Fs, buf: seq<byte>, k: nat)
    requires Ok(s) && IsDir(s, ROOT) && HalfGrows(s, ROOT) && FreeBlk(s.used, s.max) == Some(21) && 21 < |s.blk|
    requires ROOT < |s.blk| && 0 <= LastBlock(s, ROOT) < |s.blk|
    requires Left(s.blk[21], buf) && ReadsAs(buf, k, 10)
    requires |LastSlots(s, ROOT)| == SLOTS && LastSlots(s, ROOT)[1] == Dirent("b", 0, 10, 1)
    ensures !Mends(s, ROOT)
  {
    hide Ok, HalfGrows, OwnChain, EntryFits, FreeBlk;
    HalfGrowsLinks(s, ROOT);
    var blk' := LinkedTo(s, ROOT, 21);
    SettledBlocks(s, ROOT, 21, ROOT);
    SettledBlocks(s, ROOT, 21, 21);
    forall t ensures !StaleFits(s, ROOT, 21, t) {
      var c := [ROOT, 21] + t;
      assert c[0] == ROOT && c[1] == 21;
      assert LiveIn(blk', c, ROOT, 1) && LiveIn(blk', c, 21, k);
    }
  }

  /** A buffer of 900 bytes that is read so: behind the first block's worth, the 40 bytes of an
      entry of the name x and the start 10. */
  lemma SuchABuffer() returns (buf: seq<byte>)
    ensures |buf| == 900 && ReadsAs(buf, 0, 10)
    ensures forall i :: 0 <= i < 900 ==>
        buf[i] == if i == 496 then 'x' as int as byte else if i == 496 + 24 then 10 else if i == 496 + 32 then 1 else 0
  {
    var e := Dirent("x", 0, 10, 1);
    var b := WithEntry(Fresh(), 0, e);
    assert Power(8) > 20 && Power(4) > 2;
    FreshAgrees();
    WithEntryAgrees(Fresh(), 0, e);
    buf := seq(CAP, i => 0) + b.data[..404];
    ZeroBehind(e);
    assert LeftBehind(buf) == b.data;
    SmallBytes(0, 8);
    SmallBytes(10, 8);
    SmallBytes(1, 4);
    forall i | 0 <= i < ENTRY
      ensures b.data[i] == if i == 0 then 'x' as int as byte else if i == 24 then 10 else if i == 32 then 1 else 0
    {
      EntryByte(e, i);
    }
  }

  lemma EntryByte(e: Dirent, i: nat)
    requires e == Dirent("x", 0, 10, 1) && i < ENTRY
    ensures var t := Bytes(0, 8) + Bytes(10, 8) + Bytes(1, 4);
      WithEntry(Fresh(), 0, e).data[i]
        == if i == 0 then 'x' as int as byte else if NUMBERS <= i < NUMBERS + 20 then t[i - NUMBERS] else 0
  {
    hide Bytes;
    var named := WithName(Fresh().data, 0, "x");
    OverlayAt(Fresh().data, 0, NameBytes("x"), i);
    OverlayAt(named, NUMBERS, Bytes(0, 8) + Bytes(10, 8) + Bytes(1, 4), i);
  }

  lemma {:induction false} SmallBytes(n: nat, w: nat)
    requires n < 256
    ensures forall i :: 0 <= i < w ==> Bytes(n, w)[i] == if i == 0 then n as byte else 0
    decreases w
  {
    if w > 0 {
      SmallBytes(0, w - 1);
    }
  }

  lemma ZeroBehind(e: Dirent)
    ensures forall i :: ENTRY <= i < CAP ==> WithEntry(Fresh(), 0, e).data[i] == 0
  {
    var named := WithName(Fresh().data, 0, e.fname);
    forall i | ENTRY <= i < CAP ensures WithNumbers(named, 0, e)[i] == 0 {
      OverlayAt(Fresh().data, 0, NameBytes(e.fname), i);
      OverlayAt(named, NUMBERS, Bytes(e.fsize, 8) + Bytes(e.start, 8) + Bytes(e.flag, 4), i);
    }
  }
}
