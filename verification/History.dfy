/** Runs of operations from the formatted disk. */
module History {
  import opened Paths
  import opened Runs
  import opened Disk
  import opened Tree
  import opened FileData
  import opened Creating
  import opened Removing
  import opened HalfGrowing
  import opened Writing
  import opened Splicing
  import opened ShortRuns
  import opened Appending

  /** A formatted disk: blocks 0 to 7 marked used, an empty root directory in block 8. The
      other blocks hold whatever the image held. */
  function Formatted(image: seq<Block>, max: nat): Fs
    requires |image| > ROOT
  {
    Fs(image[ROOT := Fresh()], Blocks(0, 8), max, map[ROOT := Obj(true, [ROOT])], map[ROOT := (ROOT, 0)], map[])
  }

  datatype Op =
    | Make(path: seq<string>, flag: int)
    | Unmake(path: seq<string>, flag: int)
    | Put(path: seq<string>, buf: seq<byte>, offset: nat)

  function Parent(s: Fs, path: seq<string>): int {
    if path != [] && Resolve(s, Front(path)).Some? then Resolve(s, Front(path)).value.start else -1
  }

  /** What callers guarantee: a path below the root, a kind, a file to write to, and room on
      the device. */
  ghost predicate Called(s: Fs, op: Op) {
    op.path != [] &&
    match op
    case Make(_, flag) => flag in {1, 2}
    case Unmake(_, flag) => flag in {1, 2}
    case Put(path, buf, _) => Room(s, buf) && (Resolve(s, path).Some? ==> Resolve(s, path).value.flag == 1)
  }

  function Step(s: Fs, op: Op): (Fs, int)
    requires Ok(s) && Called(s, op)
  {
    match op
    case Make(path, flag) => Create(s, path, flag)
    case Unmake(path, flag) => Remove(s, path, flag)
    case Put(path, buf, offset) => Write(s, path, buf, offset)
  }

  /** Block numbers found too late or too few: the write gets as far as searching, and finds a
      first run too short. */
  ghost predicate FallsShort(s: Fs, path: seq<string>, buf: seq<byte>, offset: nat) {
    && Resolve(s, path).Some? && offset / CAP < |Chain(s, Resolve(s, path).value.start)|
    && FirstRun(s, offset % CAP, buf).len > 0 && !Covers(s, offset % CAP, buf)
  }

  /** The two accidents of allocation do not happen: a directory is not left half-grown, and the
      first run found for a write is not too short. */
  ghost predicate Plain(s: Fs, op: Op)
    requires op.path != []
  {
    match op
    case Make(path, _) => !LeavesHalf(s, path)
    case Unmake(_, _) => true
    case Put(path, buf, offset) => !FallsShort(s, path, buf, offset)
  }

  /** A write's first run is too short, but the block behind it happens to lead to used blocks of
      no other object, or on the way to them to a free block that a later run takes. */
  ghost predicate PutMends(s: Fs, path: seq<string>, buf: seq<byte>, offset: nat) {
    && Ok(s) && Room(s, buf) && Resolve(s, path).Some? && Resolve(s, path).value.start in s.objs
    && var o, b := Resolve(s, path).value.start, Behind(s, buf, offset);
       Before(s, o, offset / CAP, b) || Strays(s, o, buf, offset, b)
  }

  /** Or one of them happens, but the block that the directory or the file now leads to fits. */
  ghost predicate Lucky(s: Fs, op: Op)
    requires op.path != []
  {
    || Plain(s, op)
    || (op.Make? && Mends(s, Parent(s, op.path)))
    || (op.Put? && PutMends(s, op.path, op.buf, op.offset))
  }

  /** The state after an operation: the disk it leaves, with the lists of a half-grown directory,
      or of a file that runs on, brought in line. */
  ghost function Next(s: Fs, op: Op): Fs
    requires Ok(s) && Called(s, op)
  {
    match op
    case Make(path, flag) => Created(s, path, flag)
    case Unmake(path, flag) => Remove(s, path, flag).0
    case Put(path, buf, offset) =>
      if FallsShort(s, path, buf, offset) then
        ResolveMeans(s, path);
        Relisting(s, path, buf, offset)
      else Write(s, path, buf, offset).0
  }

  /** The states of a run, one per operation. */
  ghost predicate IsRun(states: seq<Fs>, ops: seq<Op>) {
    && |states| == |ops| + 1 && Ok(states[0])
    && forall i :: 0 <= i < |ops| ==> Ok(states[i]) ==> LuckyStep(states[i], ops[i], states[i + 1])
  }

  ghost predicate LuckyStep(s: Fs, op: Op, s': Fs) {
    Ok(s) && Called(s, op) && Lucky(s, op) && s' == Next(s, op)
  }

  lemma FormattedOk(image: seq<Block>, max: nat)
    requires ROOT < |image| && max <= |image| && forall b :: 0 <= b < |image| ==> WfBlock(image[b])
    ensures var s := Formatted(image, max);
        Ok(s) && UniqueNames(s) && AllComplete(s) && TreeOf(s) == imap[[] := DirNode]
  {
    var s := Formatted(image, max);
    FormattedEmpty(image, max);
    assert UniqueIn(s.blk, [ROOT]);
    assert [] in TreeOf(s);
    FormattedShape(image, max);
    hide Ok;
  }

  /** Formatting marks the first eight blocks, empties the root block and leaves all others. */
  lemma FormattedHolds(image: seq<Block>, max: nat)
    requires ROOT < |image|
    ensures var s := Formatted(image, max);
      && s.max == max && (forall b :: b in s.used <==> 0 <= b < ROOT) && |s.blk| == |image| && s.blk[ROOT] == Fresh()
      && forall b :: 0 <= b < |image| && b != ROOT ==> s.blk[b] == image[b]
  {
    hide Fresh;
  }

  lemma FormattedShape(image: seq<Block>, max: nat)
    requires ROOT < |image| && max <= |image| && forall b :: 0 <= b < |image| ==> WfBlock(image[b])
    ensures Ok(Formatted(image, max))
  {
    var s := Formatted(image, max);
    assert ObjOk(s, ROOT) && HomeOk(s, ROOT);
    hide ObjOk, HomeOk, Fresh;
  }

  lemma FormattedEmpty(image: seq<Block>, max: nat)
    requires ROOT < |image|
    ensures forall q :: q != [] ==> Resolve(Formatted(image, max), q) == None
  {
    var s := Formatted(image, max);
    forall x ensures Entry(s, ROOT, x) == None {
      LookupInOne(s.blk, ROOT, x);
    }
    forall q: seq<string> ensures q != [] ==> Resolve(s, q) == None {
      if q != [] {
        NothingBelow(s, [], q);
      }
    }
  }

  /** A write that does not get as far as searching changes nothing. */
  lemma PutStops(s: Fs, path: seq<string>, buf: seq<byte>, offset: nat)
    requires Ok(s) && Room(s, buf) && path != []
    requires Resolve(s, path).Some? ==> offset / CAP >= |Chain(s, Resolve(s, path).value.start)|
    ensures Write(s, path, buf, offset) == (s, if Resolve(s, path).Some? then -1 else -ENOENT)
  {
    if Resolve(s, path).Some? {
      ResolveMeans(s, path);
      assert s.(blk := s.blk, used := s.used) == s;
    }
  }

  lemma PlainOk(s: Fs, op: Op)
    requires Ok(s) && Called(s, op) && Plain(s, op)
    ensures Ok(Step(s, op).0)
  {
    hide Ok, Create, Remove, Write, LeavesHalf, Covers, FirstRun, Room;
    match op
    case Make(path, flag) => CreateOk(s, path, flag);
    case Unmake(path, flag) => RemoveOk(s, path, flag);
    case Put(path, buf, offset) =>
      if Resolve(s, path).Some? && offset / CAP < |Chain(s, Resolve(s, path).value.start)| {
        WriteOk(s, path, buf, offset);
      } else {
        PutStops(s, path, buf, offset);
      }
  }

  lemma NextOk(s: Fs, op: Op)
    requires Ok(s) && Called(s, op) && Lucky(s, op)
    ensures Ok(Next(s, op))
    ensures var (s', t) := (Step(s, op).0, Next(s, op)); t.blk == s'.blk && t.used == s'.used && t.max == s'.max
    ensures Plain(s, op) ==> Next(s, op) == Step(s, op).0
  {
    hide Ok, Create, Remove, Write, LeavesHalf, FallsShort, Room, Mends, Created, Relisting, RunsOn, Listing;
    hide Before, Strays, LeadsToFree, Behind;
    if op.Make? {
      CreateOkExactly(s, op.path, op.flag);
      ParentIs(s, op.path);
    } else if Plain(s, op) {
      PlainOk(s, op);
    } else {
      ShortHere(s, op.path, op.buf, op.offset);
      RunsOnExactly(s, Resolve(s, op.path).value.start, op.buf, op.offset);
      RelistingOk(s, op.path, op.buf, op.offset);
    }
  }

  lemma ShortHere(s: Fs, path: seq<string>, buf: seq<byte>, offset: nat)
    requires Ok(s) && Called(s, Put(path, buf, offset)) && FallsShort(s, path, buf, offset)
    ensures Resolve(s, path).Some? && Short(s, Resolve(s, path).value.start, buf, offset)
  {
    ResolveMeans(s, path);
    hide Ok, FirstRun, Covers;
  }

  /** The call leaves a disk that some lists make a good one: the lists kept, or, after one of
      the two accidents, any lists of the objects there should be. */
  ghost predicate LeavesGood(s: Fs, op: Op)
    requires Ok(s) && Called(s, op)
  {
    var s' := Step(s, op).0;
    if Plain(s, op) then Ok(s')
    else if op.Make? then exists r :: Ok(r) && Relisted(s, s', r, Parent(s, op.path))
    else exists r :: Ok(r) && Listing(s, s'.blk, s'.used, Resolve(s, op.path).value.start, r)
  }

  /** A call leaves a good disk exactly when it is lucky. */
  lemma LuckyExactly(s: Fs, op: Op)
    requires Ok(s) && Called(s, op)
    ensures Lucky(s, op) <==> LeavesGood(s, op)
  {
    hide Ok, Create, Remove, Write, LeavesHalf, FallsShort, Room, Mends, Listing, Relisted, Resolve;
    hide Before, Strays, LeadsToFree, Behind;
    if Plain(s, op) {
      PlainOk(s, op);
    } else if op.Make? {
      CreateOkExactly(s, op.path, op.flag);
      ParentIs(s, op.path);
    } else {
      ShortHere(s, op.path, op.buf, op.offset);
      ShortIs(s, Resolve(s, op.path).value.start, op.buf, op.offset);
      ShortOkExactly(s, op.path, op.buf, op.offset);
    }
  }

  lemma ParentIs(s: Fs, path: seq<string>)
    requires path != []
    ensures LeavesHalf(s, path) ==>
        Resolve(s, Front(path)).Some? && Parent(s, path) == Resolve(s, Front(path)).value.start
  {
  }

  /** On every run from a good disk, every state on the way is safe: chains end in -1 without
      repetition, keep apart, are marked used and lie above the bitmap. The code is taken as
      written, so directories may lose entries and blocks may leak. What is left out are the
      calls after which no good disk is left (LuckyExactly). */
  lemma {:induction false} RunsAreSafe(states: seq<Fs>, ops: seq<Op>, i: nat)
    requires IsRun(states, ops) && i < |states|
    ensures Ok(states[i]) && Safe(states[i])
    decreases i
  {
    hide Ok, Safe, Step, Next, Called, Lucky, Plain;
    if i > 0 {
      RunsAreSafe(states, ops, i - 1);
      assert LuckyStep(states[i - 1], ops[i - 1], states[i]);
      NextOk(states[i - 1], ops[i - 1]);
    }
    OkIsSafe(states[i]);
  }

  // ---- refinement of the tree

  /** Every file has exactly the blocks its size needs. */
  ghost predicate AllComplete(s: Fs) {
    forall q :: Resolve(s, q).Some? && Resolve(s, q).value.flag == 1 ==> Complete(s, Resolve(s, q).value)
  }

  /** The states in which the disk stands for a tree that the next steps can refine. */
  ghost predicate Good(s: Fs) {
    Ok(s) && UniqueNames(s) && AllComplete(s)
  }

  /** An operation that fails for want of space, or because it is an append at a block
      boundary. */
  ghost predicate Starved(s: Fs, op: Op)
    requires op.path != []
  {
    match op
    case Make(path, _) => Asks(s, path) && DiskFull(s)
    case Unmake(_, _) => false
    case Put(path, buf, offset) =>
      Resolve(s, path).Some? &&
      (|| (offset == Resolve(s, path).value.fsize && offset > 0 && offset % CAP == 0)
       || (Surplus(offset % CAP, buf) != [] && DiskFull(s)))
  }

  /** A write inside the file or at its end. */
  ghost predicate Inside(s: Fs, op: Op) {
    op.Put? && Resolve(s, op.path).Some? ==> op.offset <= Resolve(s, op.path).value.fsize
  }

  /** Where the code as written does what the tree operation does. */
  ghost predicate Proper(s: Fs, op: Op)
    requires op.path != []
  {
    match op
    case Make(path, _) => CreateFits(s, path)
    case Unmake(_, _) => true
    case Put(path, buf, offset) =>
      Resolve(s, path).Some? && !Starved(s, op) ==> KeepsTail(s, Resolve(s, path).value, buf, offset)
  }

  /** write on a tree of paths. */
  ghost function TreeWrite(t: imap<seq<string>, Node>, path: seq<string>, buf: seq<byte>, offset: nat)
      : (imap<seq<string>, Node>, int) {
    if path !in t then (t, -ENOENT)
    else if t[path] == DirNode || offset > |t[path].bytes| then (t, -1)
    else (t[path := FileNode(Max(t[path].size, offset + |buf|), Splice(t[path].bytes, offset, buf))], |buf|)
  }

  ghost function TreeStepOf(t: imap<seq<string>, Node>, op: Op): (imap<seq<string>, Node>, int)
    requires op.path != []
  {
    match op
    case Make(path, flag) => TreeCreate(t, path, flag)
    case Unmake(path, flag) => TreeRemove(t, path, flag)
    case Put(path, buf, offset) => TreeWrite(t, path, buf, offset)
  }

  lemma MakeRefines(s: Fs, path: seq<string>, flag: int)
    requires Good(s) && path != [] && flag in {1, 2} && !LeavesHalf(s, path) && CreateFits(s, path)
    ensures var (s', r) := Create(s, path, flag);
      && Good(s') && (r == -1 <==> Asks(s, path) && DiskFull(s))
      && (if r == -1 then s' == s else (TreeOf(s'), r) == TreeCreate(TreeOf(s), path, flag))
  {
    hide Ok, UniqueNames, TreeOf, LeavesHalf, TreeCreate, EntryIn, Asks, DiskFull, CreateFits;
    CreateOk(s, path, flag);
    CreateRefines(s, path, flag);
    CreateStarves(s, path, flag);
    if Create(s, path, flag).1 == 0 {
      CreatedFresh(s, path, flag);
      CreateAdds(s, path, flag);
      CreateUniqueExactly(s, path, flag);
      assert AllComplete(Create(s, path, flag).0);
    }
  }

  /** Where creation fits, success means the name was new. */
  lemma CreatedFresh(s: Fs, path: seq<string>, flag: int)
    requires Ok(s) && path != [] && CreateFits(s, path) && Create(s, path, flag).1 == 0
    ensures Resolve(s, path) == None && OnlyLastHolds(s, Resolve(s, Front(path)).value.start)
    ensures EntryIn(s.blk, [LastBlock(s, Resolve(s, Front(path)).value.start)], Last(path)) == None
  {
    hide Ok, EntryIn, OnlyLastHolds, Insert, Visible;
    ResolveMeans(s, Front(path));
    LookupLast(s, Resolve(s, Front(path)).value.start, Last(path));
  }

  lemma UnmakeRefines(s: Fs, path: seq<string>, flag: int)
    requires Good(s) && path != [] && flag in {1, 2}
    ensures var (s', r) := Remove(s, path, flag);
      Good(s') && (TreeOf(s'), r) == TreeRemove(TreeOf(s), path, flag)
  {
    hide Ok, UniqueNames, TreeOf, TreeRemove;
    RemoveOk(s, path, flag);
    RemoveRefines(s, path, flag);
    RemoveUnique(s, path, flag);
    if Remove(s, path, flag).1 == 0 {
      RemoveDrops(s, path, flag);
      RemovedGone(s, path, flag);
    }
  }

  lemma RemovedGone(s: Fs, path: seq<string>, flag: int)
    requires Ok(s) && UniqueNames(s) && path != [] && flag in {1, 2} && Remove(s, path, flag).1 == 0
    ensures Resolve(Remove(s, path, flag).0, path) == None
  {
    hide Ok, UniqueNames;
    RemoveDrops(s, path, flag);
    assert path !in TreeOf(Remove(s, path, flag).0);
  }

  lemma PutRefines(s: Fs, path: seq<string>, buf: seq<byte>, offset: nat)
    requires Good(s) && Called(s, Put(path, buf, offset)) && Plain(s, Put(path, buf, offset))
    requires Inside(s, Put(path, buf, offset)) && Proper(s, Put(path, buf, offset))
    ensures var (s', r) := Write(s, path, buf, offset);
      && Good(s') && (r == -1 <==> Starved(s, Put(path, buf, offset)))
      && (if r == -1 then s' == s else (TreeOf(s'), r) == TreeWrite(TreeOf(s), path, buf, offset))
  {
    hide Ok, UniqueNames, TreeOf, Write, KeepsTail, FallsShort, Complete, Splice, Starved, Room;
    PlainOk(s, Put(path, buf, offset));
    WriteResults(s, path, buf, offset);
    PutStarves(s, path, buf, offset);
    InTree(s, path);
    if Write(s, path, buf, offset).1 >= 0 {
      WriteSplicesExactly(s, path, buf, offset);
      WriteStaysComplete(s, path, buf, offset);
      WriteUnique(s, path, buf, offset);
      var k, tail, blk' := WroteEffect(s, path, buf, offset);
      hide WroteAs;
      WroteElsewhere(s, path, buf, offset);
    }
  }

  /** A write to a complete file fails with -1 exactly at a block boundary or for want of space. */
  lemma PutStarves(s: Fs, path: seq<string>, buf: seq<byte>, offset: nat)
    requires Good(s) && Called(s, Put(path, buf, offset)) && Plain(s, Put(path, buf, offset))
    requires Inside(s, Put(path, buf, offset))
    ensures Write(s, path, buf, offset).1 == -1 <==> Starved(s, Put(path, buf, offset))
  {
    hide Ok, UniqueNames, Write, Complete, Covers, WriteDisk, FirstRun;
    if Resolve(s, path).Some? {
      ResolveMeans(s, path);
      var o := Resolve(s, path).value.start;
      BoundaryFails(s, path, buf, offset);
      if offset / CAP < |Chain(s, o)| {
        FullIsNoRun(s, offset % CAP, buf);
        WriteIs(s, path, buf, offset);
        if FirstRun(s, offset % CAP, buf).len > 0 {
          WriteCodesCovered(s, o, buf, offset);
        } else {
          WriteWithoutRun(s, o, buf, offset);
        }
      }
    } else {
      PutStops(s, path, buf, offset);
    }
  }

  lemma WriteIs(s: Fs, path: seq<string>, buf: seq<byte>, offset: nat)
    requires Ok(s) && Room(s, buf) && Resolve(s, path).Some?
    ensures var o := Resolve(s, path).value.start;
      o in s.objs && (Write(s, path, buf, offset).1 == -1 <==> WriteDisk(s, o, buf, offset).2 < 0)
  {
    ResolveMeans(s, path);
    hide Ok, WriteDisk;
  }

  lemma FullIsNoRun(s: Fs, off: nat, buf: seq<byte>)
    ensures FirstRun(s, off, buf).len == 0 <==> DiskFull(s)
  {
    BestMeans(s.used, FIRST, s.max - 1, Asked(|Surplus(off, buf)|));
  }

  lemma WriteWithoutRun(s: Fs, o: int, buf: seq<byte>, offset: nat)
    requires Ok(s) && o in s.objs && Room(s, buf) && offset / CAP < |Chain(s, o)|
    requires FirstRun(s, offset % CAP, buf).len == 0
    ensures WriteDisk(s, o, buf, offset).2 == if Surplus(offset % CAP, buf) == [] then 0 else -1
  {
    hide Ok;
  }

  lemma InTree(s: Fs, path: seq<string>)
    ensures path in TreeOf(s) <==> Resolve(s, path).Some?
    ensures Resolve(s, path).Some? && Resolve(s, path).value.flag != 2 ==>
      TreeOf(s)[path] == FileNode(Resolve(s, path).value.fsize, BytesOf(s, Resolve(s, path).value))
  {
  }

  lemma WroteElsewhere(s: Fs, path: seq<string>, buf: seq<byte>, offset: nat)
    requires Wrote(s, path, buf, offset) && AllComplete(s)
    requires Resolve(Write(s, path, buf, offset).0, path).Some?
    requires Complete(Write(s, path, buf, offset).0, Resolve(Write(s, path, buf, offset).0, path).value)
    ensures AllComplete(Write(s, path, buf, offset).0)
  {
    var k, tail, blk' := WroteEffect(s, path, buf, offset);
    hide Ok, Write, Covers, TreeOf, Content, Entry;
    WriteTree(s, Write(s, path, buf, offset).0, path, buf, offset, k, tail, blk');
  }

  /** Results of a write: the count of bytes with a state that Wrote describes, or failure
      before anything is written. */
  lemma WriteResults(s: Fs, path: seq<string>, buf: seq<byte>, offset: nat)
    requires Ok(s) && Called(s, Put(path, buf, offset)) && Plain(s, Put(path, buf, offset))
    ensures var (s', r) := Write(s, path, buf, offset);
      && (r >= 0 ==> Wrote(s, path, buf, offset) && r == |buf|)
      && (r < 0 ==> s' == s && (r == -ENOENT <==> Resolve(s, path) == None) && (r == -1 || r == -ENOENT))
  {
    if Resolve(s, path).Some? && offset / CAP < |Chain(s, Resolve(s, path).value.start)| {
      ResolveMeans(s, path);
      var o := Resolve(s, path).value.start;
      if Write(s, path, buf, offset).1 >= 0 {
        FitsOrFound(s, o, buf, offset);
      } else {
        FailsEarly(s, o, buf, offset);
        assert s.(blk := s.blk, used := s.used) == s;
      }
    } else {
      PutStops(s, path, buf, offset);
    }
  }

  /** Every proper step is the step of the tree, with the same result, but when it fails for
      want of space or at a block boundary: then it returns -1, and only then, and changes
      nothing. */
  lemma StepRefines(s: Fs, op: Op)
    requires Good(s) && Called(s, op) && Plain(s, op) && Inside(s, op) && Proper(s, op)
    ensures var (s', r) := Step(s, op);
      && Good(s') && (r == -1 <==> Starved(s, op))
      && (if r == -1 then s' == s else (TreeOf(s'), r) == TreeStepOf(TreeOf(s), op))
  {
    hide Good, TreeOf, Create, Remove, Write, TreeCreate, TreeRemove, TreeWrite, LeavesHalf, FallsShort, CreateFits;
    hide Asks, DiskFull, KeepsTail;
    match op
    case Make(path, flag) => MakeRefines(s, path, flag);
    case Unmake(path, flag) =>
      UnmakeRefines(s, path, flag);
      RemoveResults(s, path, flag);
    case Put(path, buf, offset) => PutRefines(s, path, buf, offset);
  }

  /** And a step that does not fail with -1 is the step of the tree, with the same result, only
      if it is proper. */
  lemma StepRefinesExactly(s: Fs, op: Op)
    requires Good(s) && Called(s, op) && Plain(s, op) && Inside(s, op) && !Starved(s, op)
    ensures var (s', r) := Step(s, op); (TreeOf(s'), r) == TreeStepOf(TreeOf(s), op) <==> Proper(s, op)
  {
    hide TreeOf, Create, Remove, Write, TreeCreate, TreeRemove, LeavesHalf, FallsShort, CreateFits, KeepsTail, Ok;
    hide UniqueNames, Splice, Complete, Room;
    if Proper(s, op) {
      StepRefines(s, op);
    } else {
      match op
      case Make(path, flag) =>
        CreateStarves(s, path, flag);
        CreateRefinesExactly(s, path, flag);
      case Put(path, buf, offset) =>
        WriteResults(s, path, buf, offset);
        PutStarves(s, path, buf, offset);
        WriteSplicesExactly(s, path, buf, offset);
        InTree(s, path);
    }
  }

  lemma RemoveResults(s: Fs, path: seq<string>, flag: int)
    requires Good(s) && path != []
    ensures Remove(s, path, flag).1 != -1
  {
  }

  /** The tree's own run: operations that failed with -1 are skipped. */
  ghost function TreeRun(t: imap<seq<string>, Node>, ops: seq<Op>, results: seq<int>): imap<seq<string>, Node>
    requires |ops| == |results| && forall i :: 0 <= i < |ops| ==> ops[i].path != []
    decreases |ops|
  {
    if ops == [] then t
    else
      var n := |ops| - 1;
      var t0 := TreeRun(t, ops[..n], results[..n]);
      if results[n] == -1 then t0 else TreeStepOf(t0, ops[n]).0
  }

  /** A run in which every operation is called properly, with the results returned. */
  ghost predicate IsProperRun(states: seq<Fs>, ops: seq<Op>, results: seq<int>) {
    && |states| == |ops| + 1 && |results| == |ops| && Good(states[0])
    && forall i :: 0 <= i < |ops| ==>
        ops[i].path != [] && (Good(states[i]) ==> ProperStep(states[i], ops[i], states[i + 1], results[i]))
  }

  ghost predicate ProperStep(s: Fs, op: Op, s': Fs, r: int) {
    Ok(s) && Called(s, op) && Plain(s, op) && Inside(s, op) && Proper(s, op) && Step(s, op) == (s', r)
  }

  lemma ProperStepAt(states: seq<Fs>, ops: seq<Op>, results: seq<int>, i: nat)
    requires IsProperRun(states, ops, results) && i < |ops| && Good(states[i])
    ensures Good(states[i + 1]) && ops[i].path != [] && (results[i] == -1 <==> Starved(states[i], ops[i]))
    ensures if results[i] == -1 then states[i + 1] == states[i]
            else (TreeOf(states[i + 1]), results[i]) == TreeStepOf(TreeOf(states[i]), ops[i])
  {
    hide Good, TreeOf, TreeStepOf, Called, Plain, Inside, Proper, Step, Starved;
    assert ProperStep(states[i], ops[i], states[i + 1], results[i]);
    StepRefines(states[i], ops[i]);
  }

  lemma TreeRunStep(t: imap<seq<string>, Node>, ops: seq<Op>, results: seq<int>, i: nat)
    requires |ops| == |results| && (forall j :: 0 <= j < |ops| ==> ops[j].path != []) && i < |ops|
    ensures TreeRun(t, ops[..i + 1], results[..i + 1])
         == var u := TreeRun(t, ops[..i], results[..i]); if results[i] == -1 then u else TreeStepOf(u, ops[i]).0
  {
    hide TreeStepOf;
    assert ops[..i + 1][..i] == ops[..i] && results[..i + 1][..i] == results[..i];
  }

  /** On every proper run, from the formatted disk for instance, the disk stands at each moment
      for the tree that the same operations build, and every result is the tree's, but for the
      -1 of operations that find no space or append at a block boundary. */
  lemma {:induction false} RunsRefine(states: seq<Fs>, ops: seq<Op>, results: seq<int>, i: nat)
    requires IsProperRun(states, ops, results) && i <= |ops|
    ensures Good(states[i]) && TreeOf(states[i]) == TreeRun(TreeOf(states[0]), ops[..i], results[..i])
    ensures i < |ops| ==> (results[i] == -1 <==> Starved(states[i], ops[i]))
    ensures i < |ops| ==> (if results[i] == -1 then states[i + 1] == states[i]
        else results[i] == TreeStepOf(TreeOf(states[i]), ops[i]).1)
    decreases i
  {
    hide Good, TreeOf, TreeStepOf, ProperStep, Starved;
    if i > 0 {
      RunsRefine(states, ops, results, i - 1);
      ProperStepAt(states, ops, results, i - 1);
      TreeRunStep(TreeOf(states[0]), ops, results, i - 1);
    }
    if i < |ops| {
      ProperStepAt(states, ops, results, i);
    }
  }

  /** What a caller of creation can look for instead of CreateFits: the parent's live slots come
      first in their blocks, and only its last block holds entries. */
  ghost predicate Tidy(s: Fs, op: Op)
    requires op.path != []
  {
    match op
    case Make(path, _) =>
      var p := Resolve(s, Front(path));
      p.Some? && p.value.flag == 2 ==> Packed(s, p.value.start) && OnlyLastHolds(s, p.value.start)
    case Unmake(_, _) => true
    case Put(_, _, _) => Proper(s, op)
  }

  ghost predicate TidyStep(s: Fs, op: Op, s': Fs, r: int) {
    Ok(s) && Called(s, op) && Plain(s, op) && Inside(s, op) && Tidy(s, op) && Step(s, op) == (s', r)
  }

  ghost predicate IsTidyRun(states: seq<Fs>, ops: seq<Op>, results: seq<int>) {
    && |states| == |ops| + 1 && |results| == |ops| && Good(states[0])
    && (forall i :: 0 <= i < |ops| ==> ops[i].path != [])
    && forall i :: 0 <= i < |ops| && Good(states[i]) ==> TidyStep(states[i], ops[i], states[i + 1], results[i])
  }

  lemma TidyIsProper(s: Fs, op: Op)
    requires Ok(s) && op.path != [] && Tidy(s, op)
    ensures Proper(s, op)
  {
    hide Ok, Packed, OnlyLastHolds, CreateFits;
    if op.Make? {
      PackedFits(s, op.path);
    }
  }

  /** So every run that creates in such parents only is a run of the tree. */
  lemma TidyRunsRefine(states: seq<Fs>, ops: seq<Op>, results: seq<int>, i: nat)
    requires IsTidyRun(states, ops, results) && i <= |ops|
    ensures Good(states[i]) && TreeOf(states[i]) == TreeRun(TreeOf(states[0]), ops[..i], results[..i])
    ensures i < |ops| ==> (results[i] == -1 <==> Starved(states[i], ops[i]))
  {
    hide TreeOf, TreeStepOf, Starved, Called, Plain, Inside, Tidy, Proper, Step, Ok, UniqueNames, AllComplete;
    forall j | 0 <= j < |ops| && Good(states[j]) ensures ProperStep(states[j], ops[j], states[j + 1], results[j]) {
      assert TidyStep(states[j], ops[j], states[j + 1], results[j]);
      TidyIsProper(states[j], ops[j]);
    }
    RunsRefine(states, ops, results, i);
  }

  // ---- names

  /** On every run that leaves no directory half-grown, names stay unique in every directory
      exactly when no creation repeats a name that its parent's last block hides behind a free
      slot. */
  lemma RunsUniqueExactly(states: seq<Fs>, ops: seq<Op>)
    requires IsRun(states, ops) && UniqueNames(states[0]) && PlainRun(states, ops)
    ensures (forall i :: 0 <= i < |states| ==> UniqueNames(states[i]))
        <==> forall i :: 0 <= i < |ops| ==> ShowsNames(states[i], ops[i])
  {
    hide Ok, UniqueNames, Plain, ShowsNames, Next, LuckyStep;
    if forall i :: 0 <= i < |ops| ==> ShowsNames(states[i], ops[i]) {
      forall i | 0 <= i < |states| ensures UniqueNames(states[i]) {
        UniqueSoFar(states, ops, i);
      }
    }
    if forall i :: 0 <= i < |states| ==> UniqueNames(states[i]) {
      forall i | 0 <= i < |ops| ensures ShowsNames(states[i], ops[i]) {
        assert UniqueNames(states[i]) && UniqueNames(states[i + 1]);
        UniqueStep(states, ops, i);
      }
    }
  }

  /** No directory is left half-grown. */
  ghost predicate PlainRun(states: seq<Fs>, ops: seq<Op>) {
    && |states| == |ops| + 1
    && forall i :: 0 <= i < |ops| ==> ops[i].path != [] && (ops[i].Make? ==> Plain(states[i], ops[i]))
  }

  /** A creation, if it succeeds, finds its name's twin. */
  ghost predicate ShowsNames(s: Fs, op: Op) {
    Ok(s) && Called(s, op) && op.Make? ==> NotHidden(s, op.path, op.flag)
  }

  lemma UniqueStep(states: seq<Fs>, ops: seq<Op>, i: nat)
    requires IsRun(states, ops) && PlainRun(states, ops) && i < |ops| && UniqueNames(states[i])
    ensures UniqueNames(states[i + 1]) <==> ShowsNames(states[i], ops[i])
  {
    hide Ok, UniqueNames, Plain, Next, Step, Safe, NotHidden, Lucky;
    RunsAreSafe(states, ops, i);
    assert LuckyStep(states[i], ops[i], states[i + 1]);
    NextOk(states[i], ops[i]);
    if Plain(states[i], ops[i]) {
      StepUnique(states[i], ops[i]);
    } else {
      MendedUnique(states[i], ops[i]);
    }
  }

  lemma MendedUnique(s: Fs, op: Op)
    requires Ok(s) && UniqueNames(s) && Called(s, op) && Lucky(s, op) && !Plain(s, op) && !op.Make?
    ensures UniqueNames(Next(s, op))
  {
    hide Ok, UniqueNames, FallsShort, Relisting, RunsOn, Before, Strays, Behind, LeadsToFree;
    ShortHere(s, op.path, op.buf, op.offset);
    RunsOnExactly(s, Resolve(s, op.path).value.start, op.buf, op.offset);
    RelistingUnique(s, op.path, op.buf, op.offset);
  }

  lemma StepUnique(s: Fs, op: Op)
    requires Ok(s) && UniqueNames(s) && Called(s, op) && Plain(s, op)
    ensures UniqueNames(Step(s, op).0) <==> (op.Make? ==> NotHidden(s, op.path, op.flag))
  {
    hide Ok, UniqueNames, Create, Remove, Write, LeavesHalf, FallsShort, EntryIn, Room;
    match op
    case Make(path, flag) =>
      CreateStarves(s, path, flag);
      if Create(s, path, flag).1 == 0 {
        CreateUniqueExactly(s, path, flag);
      }
    case Unmake(path, flag) => RemoveUnique(s, path, flag);
    case Put(path, buf, offset) =>
      WriteResults(s, path, buf, offset);
      if Write(s, path, buf, offset).1 >= 0 {
        WriteUnique(s, path, buf, offset);
      }
  }

  lemma {:induction false} UniqueSoFar(states: seq<Fs>, ops: seq<Op>, i: nat)
    requires IsRun(states, ops) && UniqueNames(states[0]) && PlainRun(states, ops) && i < |states|
    requires forall j :: 0 <= j < |ops| ==> ShowsNames(states[j], ops[j])
    ensures UniqueNames(states[i])
    decreases i
  {
    hide UniqueNames, ShowsNames, IsRun, PlainRun;
    if i > 0 {
      RunShape(states, ops);
      UniqueSoFar(states, ops, i - 1);
      UniqueStep(states, ops, i - 1);
    }
  }

  lemma RunShape(states: seq<Fs>, ops: seq<Op>)
    requires IsRun(states, ops)
    ensures |states| == |ops| + 1
  {
  }

  /** In particular on every run in which the live slots of each parent come first in their
      blocks. */
  lemma RunsUnique(states: seq<Fs>, ops: seq<Op>, i: nat)
    requires IsRun(states, ops) && UniqueNames(states[0]) && PlainRun(states, ops) && i < |states|
    requires forall j :: 0 <= j < |ops| && ops[j].Make? && Parent(states[j], ops[j].path) != -1 ==>
        Packed(states[j], Parent(states[j], ops[j].path))
    ensures UniqueNames(states[i])
  {
    hide Ok, UniqueNames, Plain, Packed, NotHidden;
    forall j | 0 <= j < |ops| ensures ShowsNames(states[j], ops[j]) {
      if Ok(states[j]) && Called(states[j], ops[j]) && ops[j].Make? {
        ParentPacked(states[j], ops[j].path, ops[j].flag);
      }
    }
    RunsUniqueExactly(states, ops);
  }

  lemma ParentPacked(s: Fs, path: seq<string>, flag: int)
    requires Ok(s) && path != [] && (Parent(s, path) != -1 ==> Packed(s, Parent(s, path)))
    ensures NotHidden(s, path, flag)
  {
    hide Packed, NotHidden;
    if Resolve(s, Front(path)).Some? {
      ResolveMeans(s, Front(path));
      ObjAbove(s, Resolve(s, Front(path)).value.start);
    }
    hide Ok;
    PackedHidesNothing(s, path, flag);
  }

  lemma ObjAbove(s: Fs, o: int)
    requires Ok(s) && o in s.objs
    ensures ROOT <= o
  {
    assert ObjOk(s, o);
    InChain(s, o, o);
  }
}
