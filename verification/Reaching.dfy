/** Disks reached from the formatted one by a list of operations, while the root directory has
    one block and holds files only: what each operation makes of them, block by block. */
module Reaching {
  import opened Paths
  import opened Runs
  import opened Disk
  import opened Tree
  import opened FileData
  import opened Creating
  import opened Removing
  import opened Writing
  import opened Splicing
  import opened Appending
  import opened History

  /** The root directory's slots, the chains of files, the used blocks. */
  datatype Picture = Picture(slots: seq<Dirent>, chains: map<int, seq<int>>, used: set<int>, max: nat, size: nat)

  ghost predicate Depicts(p: Picture, s: Fs) {
    Ok(s) && Looks(p, s)
  }

  ghost predicate Looks(p: Picture, s: Fs) {
    && Chain(s, ROOT) == [ROOT] && SlotsAt(s.blk, ROOT) == p.slots && |p.slots| == SLOTS
    && s.used == p.used && s.max == p.max && |s.blk| == p.size
    && (forall o :: IsDir(s, o) ==> o == ROOT)
    && (forall o :: o in p.chains ==> o in s.objs && o != ROOT && Chain(s, o) == p.chains[o])
  }

  /** s is the state after a run of the operations from s0. */
  ghost predicate Leads(s0: Fs, ops: seq<Op>, s: Fs) {
    exists states: seq<Fs> :: IsRun(states, ops) && states[0] == s0 && states[|ops|] == s
  }

  lemma LeadsNowhere(s: Fs)
    requires Ok(s)
    ensures Leads(s, [], s)
  {
    hide Ok;
    assert IsRun([s], []);
  }

  lemma LeadsMore(s0: Fs, ops: seq<Op>, s: Fs, op: Op)
    requires Leads(s0, ops, s) && Ok(s) && Called(s, op) && Plain(s, op)
    ensures Leads(s0, ops + [op], Step(s, op).0) && Ok(Step(s, op).0)
  {
    hide Ok, Called, Plain, Step, Next;
    var states :| IsRun(states, ops) && states[0] == s0 && states[|ops|] == s;
    NextOk(s, op);
    PlainOk(s, op);
    var more := states + [Step(s, op).0];
    var all := ops + [op];
    forall i | 0 <= i < |all| && Ok(more[i]) ensures LuckyStep(more[i], all[i], more[i + 1]) {
      if i < |ops| {
        assert Ok(states[i]) ==> LuckyStep(states[i], ops[i], states[i + 1]);
      } else {
        PlainIsLucky(s, op);
      }
    }
    assert IsRun(more, all) && more[|all|] == Step(s, op).0;
  }

  lemma PlainIsLucky(s: Fs, op: Op)
    requires Ok(s) && Called(s, op) && Plain(s, op)
    ensures LuckyStep(s, op, Next(s, op))
  {
    hide Ok, Plain, Next;
  }

  // ---- lookups in the picture

  lemma PictureResolves(p: Picture, s: Fs, name: string)
    requires Depicts(p, s)
    ensures Front([name]) == [] && Last([name]) == name && Resolve(s, []) == Some(ROOT_ENTRY)
    ensures Parent(s, [name]) == ROOT
    ensures var k := FindSlot(p.slots, name, 0); Resolve(s, [name]) == if k < SLOTS then Some(p.slots[k]) else None
    ensures Resolve(s, [name]) == Entry(s, ROOT, name) && LastBlock(s, ROOT) == ROOT && LastSlots(s, ROOT) == p.slots
    ensures Visible(s.blk, Chain(s, ROOT), name) <==> Seen(p.slots, name)
  {
    LookupInOne(s.blk, ROOT, name);
    assert Front([name]) == [] && Last([name]) == name;
    hide Ok, FindSlot, Seen, EntryIn;
    assert Chain(s, ROOT)[0] == ROOT;
  }

  /** The one-block search finds n. */
  ghost predicate NextFree(used: set<int>, max: nat, n: int) {
    FIRST <= n < max - 1 && n !in used && forall b :: FIRST <= b < n ==> b in used
  }

  lemma NextFreeIs(used: set<int>, max: nat, n: int)
    requires NextFree(used, max, n)
    ensures FreeBlk(used, max) == Some(n)
  {
    BestMeans(used, FIRST, max - 1, 1);
    assert RunLen(used, n, 1) == 1;
    assert Best(used, FIRST, max - 1, 1).start !in used;
  }

  lemma FormattedDepicts(image: seq<Block>, max: nat)
    requires ROOT < |image| && max <= |image| && forall b :: 0 <= b < |image| ==> WfBlock(image[b])
    ensures Depicts(Picture(Fresh().slots, map[], Blocks(0, 8), max, |image|), Formatted(image, max))
  {
    FormattedOk(image, max);
    hide Ok, UniqueNames, AllComplete, TreeOf;
  }

  // ---- create

  function Entered(p: Picture, name: string, n: int): Picture
    requires FreeSlot(p.slots, 0) < |p.slots|
  {
    p.(slots := p.slots[FreeSlot(p.slots, 0) := Dirent(name, 0, n, 1)], chains := p.chains[n := [n]],
      used := p.used + {n})
  }

  lemma MakeFills(p: Picture, s: Fs, name: string, n: int)
    requires Depicts(p, s) && |name| <= NAME_MAX && !Seen(p.slots, name) && FreeSlot(p.slots, 0) < SLOTS
    requires NextFree(p.used, p.max, n)
    ensures Called(s, Make([name], 1)) && Plain(s, Make([name], 1))
    ensures 0 <= LastBlock(s, ROOT) < |s.blk| && 0 <= n < |s.blk| && IsDir(s, ROOT)
    ensures FreeSlot(LastSlots(s, ROOT), 0) < |LastSlots(s, ROOT)|
    ensures Create(s, [name], 1) == (Fill(s, ROOT, name, 1, n), 0)
  {
    hide Ok, Seen, Visible, Fill, Grow, FreeSlot, IsChain;
    PictureResolves(p, s, name);
    NextFreeIs(p.used, p.max, n);
    RootIsDir(s);
    ResolveMeans(s, []);
  }

  lemma RootIsDir(s: Fs)
    requires Ok(s)
    ensures IsDir(s, ROOT) && ROOT < |s.blk| && s.max <= |s.blk|
  {
  }

  lemma MakeDepicts(p: Picture, s: Fs, name: string, n: int)
    requires Depicts(p, s) && |name| <= NAME_MAX && !Seen(p.slots, name) && FreeSlot(p.slots, 0) < SLOTS
    requires NextFree(p.used, p.max, n)
    ensures var op := Make([name], 1);
      && Called(s, op) && Plain(s, op) && Step(s, op).1 == 0 && Depicts(Entered(p, name, n), Step(s, op).0)
    ensures n !in p.chains
    ensures forall x :: 0 <= x < |s.blk| && x != ROOT && x != n ==> Step(s, Make([name], 1)).0.blk[x] == s.blk[x]
  {
    hide Ok, Seen, Visible, FreeSlot, IsChain, Create, Plain, LeavesHalf, Fill, Entered;
    MakeFills(p, s, name, n);
    PlainOk(s, Make([name], 1));
    NotRootNumber(p, s, n);
    FillDepicts(p, s, name, n);
  }

  lemma FillDepicts(p: Picture, s: Fs, name: string, n: int)
    requires Depicts(p, s) && FIRST <= n < |s.blk| && n !in s.objs && n !in p.chains && n != ROOT && IsDir(s, ROOT)
    requires 0 <= LastBlock(s, ROOT) < |s.blk| && FreeSlot(LastSlots(s, ROOT), 0) < |LastSlots(s, ROOT)|
    requires FreeSlot(p.slots, 0) < SLOTS
    requires Ok(Fill(s, ROOT, name, 1, n))
    ensures Depicts(Entered(p, name, n), Fill(s, ROOT, name, 1, n))
    ensures forall x :: 0 <= x < |s.blk| && x != ROOT && x != n ==> Fill(s, ROOT, name, 1, n).blk[x] == s.blk[x]
  {
    hide Ok, Fresh, Moved, FreeSlot;
    assert LastBlock(s, ROOT) == ROOT && LastSlots(s, ROOT) == p.slots;
    var s' := Fill(s, ROOT, name, 1, n);
    assert Chain(s', ROOT) == [ROOT] && Chain(s', n) == [n];
    assert s'.used == p.used + {n};
    OnlyRoot(p, s, s');
  }

  /** No operation on files makes a directory. */
  lemma OnlyRoot(p: Picture, s: Fs, s': Fs)
    requires Looks(p, s)
    requires forall o :: o in s'.objs ==> o == ROOT || !s'.objs[o].isDir || (o in s.objs && s.objs[o].isDir)
    ensures forall o :: IsDir(s', o) ==> o == ROOT
  {
    forall o | IsDir(s', o) ensures o == ROOT {
      assert IsDir(s, o) ==> o == ROOT;
    }
  }

  lemma NotRootNumber(p: Picture, s: Fs, n: int)
    requires Depicts(p, s) && FIRST <= n && n !in p.used
    ensures n !in s.objs && n !in p.chains && n != ROOT
  {
    FreeIsNew(s, n);
    hide Ok;
  }

  // ---- remove

  function Without(p: Picture, k: nat): Picture
    requires k < |p.slots| && p.slots[k].start in p.chains
  {
    var o := p.slots[k].start;
    p.(slots := p.slots[k := Cleared(p.slots[k])], chains := p.chains - {o}, used := p.used - SetOf(p.chains[o]))
  }

  lemma UnmakeDepicts(p: Picture, s: Fs, name: string, k: nat)
    requires Depicts(p, s) && k == FindSlot(p.slots, name, 0) < SLOTS && p.slots[k].flag == 1
    requires p.slots[k].start in p.chains
    ensures var op, o := Unmake([name], 1), p.slots[k].start;
      && Called(s, op) && Plain(s, op) && Step(s, op).1 == 0
      && Depicts(Without(p, k), Step(s, op).0)
  {
    hide Ok, FindSlot, IsChain, Erase;
    var op, o := Unmake([name], 1), p.slots[k].start;
    PictureResolves(p, s, name);
    EntrySlot(p, s, name);
    PlainOk(s, op);
    NotRootBlock(s, o);
    RootIsDir(s);
    assert Remove(s, [name], 1) == (Erase(s, o, ROOT, k), 0);
    EraseDepicts(p, s, o, k);
  }

  lemma EraseDepicts(p: Picture, s: Fs, o: int, k: nat)
    requires Depicts(p, s) && k < SLOTS && o == p.slots[k].start && o in p.chains && ROOT !in Chain(s, o)
    requires ROOT < |s.blk| && Ok(Erase(s, o, ROOT, k))
    ensures Depicts(Without(p, k), Erase(s, o, ROOT, k))
  {
    hide Ok, Fresh;
    var s' := Erase(s, o, ROOT, k);
    assert Zeroed(s.blk, SetOf(Chain(s, o)))[ROOT] == s.blk[ROOT];
    assert SlotsAt(s'.blk, ROOT) == p.slots[k := Cleared(p.slots[k])];
    OnlyRoot(p, s, s');
  }

  /** Where the entry of a name is. */
  lemma EntrySlot(p: Picture, s: Fs, name: string)
    requires Depicts(p, s) && FindSlot(p.slots, name, 0) < SLOTS
    ensures var k := FindSlot(p.slots, name, 0); var o := p.slots[k].start; o in s.ref && s.ref[o] == (ROOT, k)
  {
    PictureResolves(p, s, name);
    EntryMeans(s, ROOT, name);
    hide Ok, FindSlot;
    assert FindIn(s.blk, [ROOT], name) == Some((ROOT, FindSlot(p.slots, name, 0)));
  }

  // ---- write

  /** A file of the root directory that has a block, and a buffer that needs blocks behind it
      and finds them in one run. */
  ghost predicate Puts(p: Picture, name: string, k: nat, buf: seq<byte>, r: Run) {
    && k == FindSlot(p.slots, name, 0) < SLOTS <= |p.slots| && p.slots[k].flag == 1 && p.slots[k].start in p.chains
    && p.chains[p.slots[k].start] != [] && p.slots[k].fsize < |buf| && CAP < |buf| && p.max + Asked(|buf|) <= p.size
    && r == Best(p.used, FIRST, p.max - 1, Asked(|buf| - CAP)) && |buf| - CAP <= CAP * r.len
  }

  function Stretched(p: Picture, k: nat, n: nat, r: Run): Picture
    requires k < |p.slots| && p.slots[k].start in p.chains && CAP < n && p.chains[p.slots[k].start] != []
  {
    var o := p.slots[k].start;
    p.(slots := p.slots[k := p.slots[k].(fsize := n)],
      chains := p.chains[o := p.chains[o][..1] + RunSeq(r.start, Ceil(n - CAP))],
       used := p.used + Blocks(r.start, r.len))
  }

  lemma PutDepicts(p: Picture, s: Fs, name: string, k: nat, buf: seq<byte>, r: Run)
    requires Depicts(p, s) && Puts(p, name, k, buf, r)
    ensures var op := Put([name], buf, 0);
      Called(s, op) && Plain(s, op) && Step(s, op).1 == |buf| && Depicts(Stretched(p, k, |buf|, r), Step(s, op).0)
  {
    hide Ok, FindSlot, IsChain, WriteDisk, Relink, Room, Best, Blocks, Ceil, Planned, Wrote, Write, Plain, Stretched;
    hide SetSize, RunSeq;
    var op, o := Put([name], buf, 0), p.slots[k].start;
    PictureResolves(p, s, name);
    EntrySlot(p, s, name);
    PutPlain(p, s, name, k, buf, r);
    PlainOk(s, op);
    PutGoes(p, s, name, k, buf, r);
    var o', k', off, start, m, blk', used' := WroteParts(s, [name], buf, 0);
    assert Write(s, [name], buf, 0) == (SetSize(Relink(s, o, 0, start, m, blk', used'), ROOT, k, |buf|), |buf|);
    PutTo(s, o, buf, off, start, m, blk', used');
    StretchedLooks(p, s, k, |buf|, r, blk', used');
  }

  lemma StretchedLooks(p: Picture, s: Fs, k: nat, n: nat, r: Run, blk': seq<Block>, used': set<int>)
    requires Looks(p, s) && k < |p.slots| && p.slots[k].start in p.chains && p.chains[p.slots[k].start] != [] && CAP < n
    requires |blk'| == |s.blk| && ROOT < |s.blk| && blk'[ROOT] == s.blk[ROOT]
    requires used' == s.used + Blocks(r.start, r.len)
    ensures Looks(Stretched(p, k, n, r),
        SetSize(Relink(s, p.slots[k].start, 0, r.start, Ceil(n - CAP), blk', used'), ROOT, k, n))
  {
    hide Looks, Relink, Blocks, RunSeq, SetSize, Ceil;
    var o := p.slots[k].start;
    KLooks(p, s, o);
    RelinkLooks(p, s, o, r, Ceil(n - CAP), blk', used');
    RelinkShape(s, o, 0, r.start, Ceil(n - CAP), blk', used');
    SizeLooks(p.(chains := p.chains[o := p.chains[o][..1] + RunSeq(r.start, Ceil(n - CAP))],
      used := p.used + Blocks(r.start, r.len)),
              Relink(s, o, 0, r.start, Ceil(n - CAP), blk', used'), k, n);
  }

  lemma KLooks(p: Picture, s: Fs, o: int)
    requires Looks(p, s) && o in p.chains
    ensures |p.slots| == SLOTS && o in s.objs && Chain(s, o) == p.chains[o]
  {
  }

  lemma RelinkLooks(p: Picture, s: Fs, o: int, r: Run, n: nat, blk': seq<Block>, used': set<int>)
    requires Looks(p, s) && o in p.chains && p.chains[o] != [] && used' == s.used + Blocks(r.start, r.len)
    requires |blk'| == |s.blk| && ROOT < |s.blk| && blk'[ROOT] == s.blk[ROOT]
    ensures var p' := p.(chains := p.chains[o := p.chains[o][..1] + RunSeq(r.start, n)],
        used := p.used + Blocks(r.start, r.len));
      Looks(p', Relink(s, o, 0, r.start, n, blk', used'))
  {
    hide Relink, Blocks, RunSeq;
    RelinkShape(s, o, 0, r.start, n, blk', used');
    OnlyRoot(p, s, Relink(s, o, 0, r.start, n, blk', used'));
  }

  lemma SizeLooks(p: Picture, s: Fs, k: nat, fsize: nat)
    requires Looks(p, s) && k < SLOTS && ROOT < |s.blk|
    ensures Looks(p.(slots := p.slots[k := p.slots[k].(fsize := fsize)]), SetSize(s, ROOT, k, fsize))
  {
    OnlyRoot(p, s, SetSize(s, ROOT, k, fsize));
  }

  lemma PutPlain(p: Picture, s: Fs, name: string, k: nat, buf: seq<byte>, r: Run)
    requires Depicts(p, s) && Puts(p, name, k, buf, r)
    ensures Called(s, Put([name], buf, 0)) && Plain(s, Put([name], buf, 0)) && Room(s, buf) && Covers(s, 0, buf)
    ensures Surplus(0, buf) == buf[CAP..] && FirstRun(s, 0, buf) == r && r.len > 0
  {
    hide Ok, FindSlot, Best, Resolve;
    PictureResolves(p, s, name);
    assert Surplus(0, buf) == buf[CAP..];
  }

  lemma PutGoes(p: Picture, s: Fs, name: string, k: nat, buf: seq<byte>, r: Run)
    requires Depicts(p, s) && Puts(p, name, k, buf, r) && Room(s, buf) && Covers(s, 0, buf)
    requires FirstRun(s, 0, buf).len > 0
    ensures Wrote(s, [name], buf, 0)
  {
    hide FindSlot, WriteDisk, Covers, FirstRun, Relink, SetSize, Room, Ok, Best;
    PictureResolves(p, s, name);
    ResolveMeans(s, [name]);
    WriteCodesCovered(s, p.slots[k].start, buf, 0);
  }

  lemma PutTo(s: Fs, o: int, buf: seq<byte>, off: nat, start: int, m: nat, blk': seq<Block>, used': set<int>)
    requires CAP < |buf| && Surplus(0, buf) == buf[CAP..] && Planned(s, o, buf, 0, 0, off, start, m, blk', used')
    ensures start == FirstRun(s, 0, buf).start && m == Ceil(|buf| - CAP)
    ensures used' == s.used + Blocks(FirstRun(s, 0, buf).start, FirstRun(s, 0, buf).len)
    ensures |blk'| == |s.blk| && ROOT < |s.blk| && blk'[ROOT] == s.blk[ROOT]
  {
    hide WriteDisk, Ok, FirstRun, Blocks, Ceil;
    PlannedDisk(s, o, buf, 0, off, start, m, blk', used');
    RunUsed(s, o, buf, 0, 0, off, start, m, blk', used');
    RootKept(s, o, buf);
  }

  lemma PlannedDisk(s: Fs, o: int, buf: seq<byte>, k: nat, off: nat, start: int, m: nat, blk': seq<Block>,
                    used': set<int>)
    requires Planned(s, o, buf, 0, k, off, start, m, blk', used')
    ensures Ok(s) && o in s.objs && !s.objs[o].isDir && Room(s, buf) && WriteDisk(s, o, buf, 0).0 == blk'
    ensures |blk'| == |s.blk|
  {
    hide Ok, WriteDisk;
  }

  lemma RootKept(s: Fs, o: int, buf: seq<byte>)
    requires Ok(s) && o in s.objs && !s.objs[o].isDir && Room(s, buf)
    ensures ROOT < |s.blk| && WriteDisk(s, o, buf, 0).0[ROOT] == s.blk[ROOT]
  {
    RootIsDir(s);
    DirBounds(s, ROOT);
    hide Ok, WriteDisk;
    WriteKeepsDirs(s, o, buf, 0, ROOT, ROOT);
  }
}
