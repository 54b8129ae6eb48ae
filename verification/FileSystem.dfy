/** The program: a device of blocks, a bitmap, and the operations that change both in place.
    Every operation is proved to do what its specification function says. */
module FileSystems {
  import opened Paths
  import opened Runs
  import opened Bitmaps
  import opened Disk
  import opened Tree
  import opened FileData
  import opened Creating
  import opened Removing
  import opened Walking
  import opened Writing
  import opened Appending
  import opened Reading
  import opened History

  class FileSystem {
    const bitmap: Bitmap
    const disk: array<Block>
    const max: nat  // max_filesystem_in_block
    ghost var objs: map<int, Obj>
    ghost var home: map<int, (int, int)>
    ghost var ref: map<int, (int, int)>

    /** init.c's main: the first bitmap byte all ones, the others zero, an empty root block.
        The image holds n blocks; the array is longer, because a file grows when it is
        written behind its end. */
    constructor (image: array<Block>, bits: array<bv8>, n: nat)
      requires ROOT < n < image.Length && image.Length + 64 <= 8 * bits.Length && image as object != bits
      requires forall b :: 0 <= b < image.Length ==> WfBlock(image[b])
      modifies image, bits
      ensures disk == image && bitmap.bytes == bits && Valid()
      ensures Now() == Formatted(old(image[..]), n)
    {
      bitmap := new Bitmap(bits, FIRST, n);
      disk, max := image, n;
      objs, home, ref := map[ROOT := Obj(true, [ROOT])], map[ROOT := (ROOT, 0)], map[];
      new;
      bits[0] := 0xFF;
      forall i | 1 <= i < bits.Length {
        bits[i] := 0;
      }
      FormattedBits(bits[..]);
      assert image[..] == old(image[..]);
      image[ROOT] := Fresh();
      hide Ok, Fresh, WfBlock;
      FormattedOk(old(image[..]), n);
    }

    ghost function Now(): Fs
      reads this, disk, bitmap.bytes
    {
      Fs(disk[..], bitmap.Used(), max, objs, home, ref)
    }

    /** The device is a little smaller than the bitmap, so that the search's 32-bit windows
        stay inside the bitmap blocks. */
    ghost predicate Shaped()
      reads bitmap.bytes
    {
      && bitmap.first == FIRST && bitmap.blocks == max && max < disk.Length
      && disk.Length + 64 <= 8 * bitmap.bytes.Length && disk as object != bitmap.bytes
    }

    ghost predicate Valid()
      reads this, disk, bitmap.bytes
    {
      Shaped() && Ok(Now())
    }

    // ---- blocks

    /** op_read_blk: seeking in front of the device fails. */
    method ReadBlk(b: int) returns (res: int, content: Block)
      requires b < disk.Length
      ensures res == if b < 0 then -1 else 0
      ensures content == if b < 0 then Fresh() else disk[b]
    {
      if b < 0 {
        return -1, Fresh();
      }
      return 0, disk[b];
    }

    method WriteBlk(b: int, content: Block)
      requires 0 <= b < disk.Length
      modifies disk
      ensures disk[..] == old(disk[..])[b := content]
    {
      disk[b] := content;
    }

    method InitNewBlk(b: int)
      requires 0 <= b < disk.Length
      modifies disk
      ensures disk[..] == old(disk[..])[b := Fresh()]
    {
      WriteBlk(b, Fresh());
    }

    // ---- lookup

    /** find_dirent: the first live entry with the name, along the chain c. */
    method FindDirent(fname: string, first: Block, ghost c: seq<int>) returns (res: int, dirent: Dirent)
      requires c != [] && IsChain(disk[..], c[0], c) && first == disk[c[0]]
      requires forall b :: b in c ==> |disk[b].slots| == SLOTS
      requires forall b, k :: b in c && 0 <= k < SLOTS ==> 0 <= disk[b].slots[k].flag <= 2
      ensures res == if EntryIn(disk[..], c, fname).Some? then 0 else -1
      ensures res == 0 ==> Some(dirent) == EntryIn(disk[..], c, fname)
    {
      hide IsChain;
      NextOf(disk[..], c[0], c, 0);
      var content := first;
      ghost var i := 0;
      dirent := FREE_ENTRY;
      while true
        invariant 0 <= i < |c| && 0 <= c[i] < disk.Length && content == disk[c[i]]
        invariant EntryIn(disk[..], c, fname) == EntryIn(disk[..], c[i..], fname)
        decreases |c| - i
      {
        assert c[i] in c && c[i..][0] == c[i] && c[i..][1..] == c[i + 1..];
        var pos := 0;
        while pos < SLOTS
          invariant pos <= SLOTS
          invariant FindSlot(content.slots, fname, 0) == FindSlot(content.slots, fname, pos)
        {
          if (content.slots[pos].flag == 1 || content.slots[pos].flag == 2) && content.slots[pos].fname == fname {
            return 0, content.slots[pos];
          }
          pos := pos + 1;
        }
        NextOf(disk[..], c[0], c, i);
        if content.next == -1 {
          return -1, FREE_ENTRY;
        }
        var _, content' := ReadBlk(content.next);
        content := content';
        i := i + 1;
      }
    }

    /** is_exist: looks at each block only up to its first free slot, and leaves the buffer on
        the last block when the name was not seen. */
    method IsExist(fname: string, first: Block, ghost c: seq<int>) returns (seen: bool, content: Block)
      requires c != [] && IsChain(disk[..], c[0], c) && first == disk[c[0]]
      requires forall b :: b in c ==> |disk[b].slots| == SLOTS
      ensures seen <==> Visible(disk[..], c, fname)
      ensures !seen ==> content == disk[c[|c| - 1]]
    {
      hide Seen, IsChain;
      NextOf(disk[..], c[0], c, 0);
      content := first;
      ghost var i, blk := 0, disk[..];
      while true
        invariant disk[..] == blk && 0 <= i < |c| && 0 <= c[i] < |blk| && content == blk[c[i]]
        invariant forall j :: 0 <= j < i ==> !Seen(SlotsAt(blk, c[j]), fname)
        decreases |c| - i
      {
        assert c[i] in c && SlotsAt(blk, c[i]) == content.slots;
        var here := SeenInBlock(content, fname);
        if here {
          return true, content;
        }
        NextOf(disk[..], c[0], c, i);
        if content.next == -1 {
          assert i == |c| - 1;
          return false, content;
        }
        var _, content' := ReadBlk(content.next);
        content := content';
        i := i + 1;
      }
    }

    method SeenInBlock(content: Block, fname: string) returns (seen: bool)
      requires |content.slots| == SLOTS
      ensures seen <==> Seen(content.slots, fname)
    {
      var pos := 0;
      while pos < SLOTS && content.slots[pos].flag != 0
        invariant pos <= SLOTS
        invariant FindSlot(content.slots, fname, 0) == FindSlot(content.slots, fname, pos)
        invariant FreeSlot(content.slots, 0) == FreeSlot(content.slots, pos)
      {
        if content.slots[pos].fname == fname {
          return true;
        }
        pos := pos + 1;
      }
      return false;
    }

    /** op_open: one lookup per component. Only the kind and the start of the root are set. */
    method OpOpen(path: string) returns (res: int, inode: Dirent)
      requires Walkable(Now(), Parse(path)) && ROOT < disk.Length
      ensures res == if Resolve(Now(), Parse(path)).Some? then 0 else -1
      ensures res == 0 ==> Some(inode) == Resolve(Now(), Parse(path))
    {
      hide Parse, Components, DivString, Scannable, Resolve, Walkable, EntryIn, AtDir, IsChain, IndexOf;
      ghost var s, c := Now(), Parse(path);
      if path == "/" {
        RootPath(s);
        return 0, ROOT_ENTRY;
      }
      var _, content := ReadBlk(ROOT);
      var temp := path;
      ghost var i, d := 0, ROOT;
      AtRoot(s, path, c);
      while true
        invariant 0 <= i < |c| && Components(temp) == c[i..] && AtDir(s, c, i, d)
        invariant 0 <= d < disk.Length && content == disk[d]
        decreases |temp|
      {
        OneComponent(temp, c, i);
        var (fname, surplus) := DivString(temp);
        var found, dirent := LookupOne(fname, content, s, c, i, d);
        if found == -1 {
          NothingAfter(s, c, i + 1);
          return -1, FREE_ENTRY;
        }
        if surplus.None? {
          assert c[..i + 1] == c;
          return 0, dirent;
        }
        DownOne(s, c, i + 1);
        var _, content' := ReadBlk(dirent.start);
        content := content';
        temp := surplus.value;
        i, d := i + 1, dirent.start;
      }
    }

    /** One find_dirent on the way. */
    method LookupOne(fname: string, content: Block, ghost s: Fs, ghost c: seq<string>, ghost i: nat, ghost d: int)
        returns (res: int, dirent: Dirent)
      requires s == Now() && AtDir(s, c, i, d) && fname == c[i] && 0 <= d < disk.Length && content == disk[d]
      ensures res == if Resolve(s, c[..i + 1]).Some? then 0 else -1
      ensures res == 0 ==> Some(dirent) == Resolve(s, c[..i + 1])
    {
      hide Scannable, Resolve, AtDir, IsChain, EntryIn;
      OneLookup(s, c, i, d);
      res, dirent := FindDirent(fname, content, Chain(s, d));
    }

    /** The first i components lead to directory d, which can be scanned. */
    static ghost predicate AtDir(s: Fs, c: seq<string>, i: nat, d: int) {
      && i < |c| && Resolve(s, c[..i]).Some? && Resolve(s, c[..i]).value.flag == 2
      && Resolve(s, c[..i]).value.start == d && Scannable(s, d)
    }

    static lemma RootPath(s: Fs)
      ensures Resolve(s, Parse("/")) == Some(ROOT_ENTRY)
    {
    }

    static lemma AtRoot(s: Fs, path: string, c: seq<string>)
      requires path != "/" && c == Parse(path) && Walkable(s, c)
      ensures Components(path) == c[0..] && AtDir(s, c, 0, ROOT)
    {
      assert c[..0] == [] && c[0..] == c;
    }

    static lemma OneComponent(temp: string, c: seq<string>, i: nat)
      requires i < |c| && Components(temp) == c[i..]
      ensures DivString(temp).0 == c[i] && (DivString(temp).1.None? <==> i + 1 == |c|)
      ensures DivString(temp).1.Some? ==>
          Components(DivString(temp).1.value) == c[i + 1..] && |DivString(temp).1.value| < |temp|
    {
      assert c[i..][1..] == c[i + 1..] && c[i..][0] == c[i];
    }

    static lemma OneLookup(s: Fs, c: seq<string>, i: nat, d: int)
      requires AtDir(s, c, i, d)
      ensures Resolve(s, c[..i + 1]) == EntryIn(s.blk, Chain(s, d), c[i])
      ensures var e := Chain(s, d);
        && e != [] && e[0] == d && IsChain(s.blk, d, e)
        && (forall b :: b in e ==> 0 <= b < |s.blk| && |s.blk[b].slots| == SLOTS)
        && (forall b, k :: b in e && 0 <= k < SLOTS ==> 0 <= s.blk[b].slots[k].flag <= 2)
    {
      assert Front(c[..i + 1]) == c[..i] && Last(c[..i + 1]) == c[i];
    }

    static lemma DownOne(s: Fs, c: seq<string>, i: nat)
      requires Walkable(s, c) && i < |c| && Resolve(s, c[..i]).Some?
      ensures AtDir(s, c, i, Resolve(s, c[..i]).value.start) && 0 <= Resolve(s, c[..i]).value.start < |s.blk|
    {
    }

    static lemma NothingAfter(s: Fs, c: seq<string>, i: nat)
      requires i <= |c| && Resolve(s, c[..i]) == None
      ensures Resolve(s, c) == None
    {
      if i < |c| {
        NothingBelow(s, c[..i], c);
      } else {
        assert c[..i] == c;
      }
    }

    // ---- attributes

    /** op_modify_attr: resolves the path again and rewrites the entry's size, start and kind. */
    method OpModifyAttr(path: string, inode: Dirent) returns (res: int)
      requires Normal(path) && path != "/" && Walkable(Now(), Parse(path)) && ROOT < disk.Length
      modifies disk
      ensures (disk[..], res) == Modified(old(Now()), Parse(path), inode)
    {
      ghost var s, c := Now(), Parse(path);
      ParentAndName(path);
      FrontWalkable(s, c);
      var (parent, fname) := FindParent(path);
      var r, f_inode := OpOpen(parent);
      if r != 0 {
        return -ENOENT;
      }
      hide Walkable, Normal, FindParent, Resolve, IsChain;
      var _, content := ReadBlk(f_inode.start);
      res := UpdateEntry(f_inode.start, content, Chain(s, f_inode.start), fname, inode);
    }

    /** The search for the entry and its update. Unlike op_create, this keeps the number of
        the block in the buffer up to date. */
    method UpdateEntry(start: int, first: Block, ghost c: seq<int>, fname: string, inode: Dirent) returns (res: int)
      requires c != [] && IsChain(disk[..], c[0], c) && start == c[0] && first == disk[c[0]]
      requires forall b :: b in c ==> 0 <= b < disk.Length && |disk[b].slots| == SLOTS
      modifies disk
      ensures var r := FindIn(old(disk[..]), c, fname);
        && res == (if r.Some? then 0 else -ENOENT)
        && disk[..] == if r.Some? then ModifySlot(old(disk[..]), r.value.0, r.value.1, inode) else old(disk[..])
    {
      hide WithNumbers, IsChain;
      var found, start_blk, content, position := LocateEntry(start, first, c, fname);
      if !found {
        return -ENOENT;
      }
      var slot := Dirent(content.slots[position].fname, inode.fsize, inode.start, inode.flag);
      content := content.(slots := content.slots[position := slot], data := WithNumbers(content.data, position, slot));
      WriteBlk(start_blk, content);
      return 0;
    }

    method LocateEntry(start: int, first: Block, ghost c: seq<int>, fname: string)
        returns (found: bool, start_blk: int, content: Block, position: nat)
      requires c != [] && IsChain(disk[..], c[0], c) && start == c[0] && first == disk[c[0]]
      requires forall b :: b in c ==> 0 <= b < disk.Length && |disk[b].slots| == SLOTS
      ensures found <==> FindIn(disk[..], c, fname).Some?
      ensures found ==> FindIn(disk[..], c, fname) == Some((start_blk, position))
      ensures found ==> 0 <= start_blk < disk.Length && content == disk[start_blk] && position < |content.slots|
    {
      hide IsChain;
      NextOf(disk[..], c[0], c, 0);
      start_blk, content := start, first;
      ghost var i := 0;
      while true
        invariant 0 <= i < |c| && start_blk == c[i] && 0 <= c[i] < disk.Length && content == disk[c[i]]
        invariant FindIn(disk[..], c, fname) == FindIn(disk[..], c[i..], fname)
        decreases |c| - i
      {
        assert c[i] in c && c[i..][0] == c[i] && c[i..][1..] == c[i + 1..];
        position := FindEntry(content, fname);
        if position < SLOTS {
          found := true;
          return;
        }
        NextOf(disk[..], c[0], c, i);
        if content.next == -1 {
          found := false;
          return;
        }
        start_blk := content.next;
        var _, content' := ReadBlk(start_blk);
        content := content';
        i := i + 1;
      }
    }

    method FindEntry(content: Block, fname: string) returns (position: nat)
      requires |content.slots| == SLOTS
      ensures position == FindSlot(content.slots, fname, 0)
    {
      position := 0;
      while position < SLOTS
        invariant position <= SLOTS
        invariant FindSlot(content.slots, fname, 0) == FindSlot(content.slots, fname, position)
      {
        if content.slots[position].flag != 0 && content.slots[position].fname == fname {
          return;
        }
        position := position + 1;
      }
    }

    // ---- create

    method FreeEntry(content: Block) returns (offset: nat)
      requires |content.slots| == SLOTS
      ensures offset == FreeSlot(content.slots, 0)
    {
      offset := 0;
      while offset < SLOTS
        invariant offset <= SLOTS
        invariant FreeSlot(content.slots, 0) == FreeSlot(content.slots, offset)
      {
        if content.slots[offset].flag == 0 {
          return;
        }
        offset := offset + 1;
      }
    }

    /** A search for one block. */
    method FindBlk() returns (num: nat, blk: int)
      requires Shaped()
      modifies bitmap.bytes
      ensures var r := FreeBlk(old(bitmap.Used()), max);
        && (num < 1 <==> r == None)
        && (num >= 1 ==> r == Some(blk))
        && bitmap.Used() == old(bitmap.Used()) + (if num < 1 then {} else {blk})
    {
      num, blk := bitmap.SearchFreeBlk(1);
      BestMeans(old(bitmap.Used()), FIRST, max - 1, 1);
    }

    /** op_create. The existence test has moved the buffer to the directory's last block while
        p_dir still names its first. */
    method OpCreate(path: string, flag: int) returns (res: int)
      requires Valid() && Normal(path) && path != "/" && flag in {1, 2} && PrefixDirs(Now(), Parse(path))
      modifies this, disk, bitmap.bytes
      ensures Shaped() && (Now(), res) == Create(old(Now()), Parse(path), flag)
      ensures Parse(path) != [] && (Plain(old(Now()), Make(Parse(path), flag)) ==> Valid())
    {
      hide Ok, Walkable, PrefixDirs, FindParent, Parse, Resolve, Scannable, LeavesHalf, Visible, Insert, IsChain;
      ghost var s, c := Now(), Parse(path);
      ParentAndName(path);
      RootInside(s);
      OkWalkable(s, c);
      FrontWalkable(s, c);
      CreateOkParent(s, c, flag);
      var (parent, fname) := FindParent(path);
      if |fname| > NAME_MAX {
        return -ENAMETOOLONG;
      }
      var r, inode := OpOpen(parent);
      if r != 0 {
        return -ENOENT;
      }
      res := CreateIn(inode.start, fname, flag, s, c);
    }

    /** From the existence test on, in the directory that starts at p_dir. */
    method CreateIn(p_dir: int, fname: string, flag: int, ghost s: Fs, ghost c: seq<string>) returns (res: int)
      requires Valid() && s == Now() && c != [] && fname == Last(c) && |fname| <= NAME_MAX && flag in {1, 2}
      requires Resolve(s, Front(c)).Some? && Resolve(s, Front(c)).value.flag == 2
      requires Resolve(s, Front(c)).value.start == p_dir
      modifies this, disk, bitmap.bytes
      ensures Shaped() && (Now(), res) == Create(s, c, flag)
    {
      hide Ok, Resolve, Visible, Insert, IsChain;
      ParentScannable(s, c);
      var _, first := ReadBlk(p_dir);
      var seen, content := IsExist(fname, first, Chain(s, p_dir));
      if seen {
        return -EEXIST;
      }
      res := InsertEntry(p_dir, fname, flag, content);
    }

    static lemma CreateOkParent(s: Fs, c: seq<string>, flag: int)
      requires Ok(s) && c != [] && flag in {1, 2}
      ensures !LeavesHalf(s, c) ==> Ok(Create(s, c, flag).0)
    {
      hide Ok, LeavesHalf, Create;
      if !LeavesHalf(s, c) {
        CreateOk(s, c, flag);
      }
    }

    static lemma ParentScannable(s: Fs, c: seq<string>)
      requires Ok(s) && c != [] && Resolve(s, Front(c)).Some?
      requires Resolve(s, Front(c)).value.flag == 2
      ensures var d := Resolve(s, Front(c)).value.start;
        && IsDir(s, d) && Chain(s, d) != [] && Chain(s, d)[0] == d && IsChain(s.blk, d, Chain(s, d)) && 0 <= d < |s.blk|
        && (forall b :: b in Chain(s, d) ==> 0 <= b < |s.blk| && |s.blk[b].slots| == SLOTS)
    {
      ResolveMeans(s, Front(c));
      DirScannable(s, Resolve(s, Front(c)).value.start);
    }

    /** From the free-slot scan on. The buffer is the directory's last block, so the scan never
        moves on to a further block: the entry goes into this one, or into a new one. */
    method InsertEntry(p_dir: int, fname: string, flag: int, buffer: Block) returns (res: int)
      requires Valid() && IsDir(Now(), p_dir) && 0 <= p_dir < disk.Length
      requires 0 <= LastBlock(Now(), p_dir) < disk.Length && buffer == disk[LastBlock(Now(), p_dir)]
      modifies this, disk, bitmap.bytes
      ensures Shaped() && (Now(), res) == Insert(old(Now()), p_dir, fname, flag)
    {
      ghost var s := Now();
      DirBounds(s, p_dir);
      hide Ok, Fresh, Fill, Grow, HalfGrown;
      assert buffer.next == -1;
      var offset := FreeEntry(buffer);
      var num, temp := FindBlk();
      if num < 1 {
        assert bitmap.Used() == s.used;
        return -1;
      }
      if offset < SLOTS {
        FillEntry(s, p_dir, fname, flag, buffer, offset, temp);
        return 0;
      }
      res := GrowDir(s, p_dir, fname, flag, buffer, temp);
    }

    method FillEntry(ghost s: Fs, p_dir: int, fname: string, flag: int, buffer: Block, offset: nat, temp: int)
      requires Shaped() && Now() == s.(used := s.used + {temp}) && 0 <= p_dir < disk.Length && 0 <= temp < disk.Length
      requires 0 <= LastBlock(s, p_dir) < disk.Length && buffer == disk[LastBlock(s, p_dir)]
      requires offset < |buffer.slots| && offset == FreeSlot(buffer.slots, 0)
      modifies this, disk
      ensures Shaped() && Now() == Fill(s, p_dir, fname, flag, temp)
    {
      hide Fresh, Reshape;
      WriteBlk(p_dir, WithEntry(buffer, offset, Dirent(fname, 0, temp, flag)));
      InitNewBlk(temp);
      Reshaped(s, p_dir, None, temp, flag == 2, (p_dir, offset));
    }

    method GrowDir(ghost s: Fs, p_dir: int, fname: string, flag: int, buffer: Block, temp: int) returns (res: int)
      requires Shaped() && Now() == s.(used := s.used + {temp}) && 0 <= p_dir < disk.Length && 0 <= temp < disk.Length
      requires 0 <= LastBlock(s, p_dir) < disk.Length && buffer == disk[LastBlock(s, p_dir)]
      modifies this, disk, bitmap.bytes
      ensures Shaped()
      ensures match FreeBlk(s.used + {temp}, s.max)
        case None => res == -1 && Now() == HalfGrown(s, p_dir, temp)
        case Some(t) => res == 0 && Now() == Grow(s, p_dir, fname, flag, temp, t)
    {
      hide Fresh, Reshape, FreeBlk;
      WriteBlk(p_dir, buffer.(next := temp));
      var num, t := FindBlk();
      if num < 1 {
        return -1;
      }
      WriteBlk(temp, OneEntry(Dirent(fname, 0, t, flag)));
      InitNewBlk(t);
      Reshaped(s, p_dir, Some(temp), t, flag == 2, (temp, 0));
      return 0;
    }

    /** Brings the lists of objects and places in line with the blocks just written. */
    ghost method Reshaped(s: Fs, d: int, m: Option<int>, n: int, isDir: bool, at: (int, int))
      requires max == s.max && bitmap.Used() == s.used + AsSet(m) + {n}
      modifies `objs, `home, `ref
      ensures Now() == Reshape(s, disk[..], d, m, n, isDir, at)
    {
      var s' := Reshape(s, disk[..], d, m, n, isDir, at);
      objs, home, ref := s'.objs, s'.home, s'.ref;
    }

    // ---- remove

    /** is_empty_dir: an error for a file or a missing path, 1 for an empty directory, else 0. */
    method IsEmptyDir(path: string) returns (res: int)
      requires Valid() && PrefixDirs(Now(), Parse(path))
      ensures var e := Resolve(Now(), Parse(path));
        res == if e == None then -ENOENT else if e.value.flag == 1 then -ENOTDIR
               else if EmptyChain(disk[..], Chain(Now(), e.value.start)) then 1 else 0
    {
      ghost var s, p := Now(), Parse(path);
      hide Ok, Walkable, PrefixDirs, Parse, Resolve, EmptyChain;
      OkWalkable(s, p);
      RootInside(s);
      var r, inode := OpOpen(path);
      if r != 0 {
        return -ENOENT;
      }
      ResolveMeans(s, p);
      if inode.flag == 1 {
        return -ENOTDIR;
      }
      DirScannable(s, inode.start);
      var _, content := ReadBlk(inode.start);
      var empty := EmptyFrom(content, Chain(s, inode.start));
      res := if empty then 1 else 0;
    }

    static lemma RootInside(s: Fs)
      requires Ok(s)
      ensures ROOT < |s.blk|
    {
    }

    method EmptyFrom(first: Block, ghost c: seq<int>) returns (empty: bool)
      requires c != [] && IsChain(disk[..], c[0], c) && first == disk[c[0]]
      requires forall b :: b in c ==> 0 <= b < disk.Length && |disk[b].slots| == SLOTS
      requires forall b, k :: b in c && 0 <= k < SLOTS ==> 0 <= disk[b].slots[k].flag <= 2
      ensures empty <==> EmptyChain(disk[..], c)
    {
      hide AllFree, IsChain;
      NextOf(disk[..], c[0], c, 0);
      var content := first;
      ghost var i, blk := 0, disk[..];
      while true
        invariant disk[..] == blk && 0 <= i < |c| && 0 <= c[i] < |blk| && content == blk[c[i]]
        invariant forall j :: 0 <= j < i ==> AllFree(SlotsAt(blk, c[j]))
        decreases |c| - i
      {
        assert c[i] in c && SlotsAt(blk, c[i]) == content.slots;
        var here := EmptyBlock(content);
        if !here {
          return false;
        }
        NextOf(disk[..], c[0], c, i);
        if content.next == -1 {
          return true;
        }
        var _, content' := ReadBlk(content.next);
        content := content';
        i := i + 1;
      }
    }

    method EmptyBlock(content: Block) returns (empty: bool)
      requires |content.slots| == SLOTS && forall k :: 0 <= k < SLOTS ==> 0 <= content.slots[k].flag <= 2
      ensures empty <==> AllFree(content.slots)
    {
      var position := 0;
      while position < SLOTS
        invariant position <= SLOTS
        invariant forall k :: 0 <= k < position ==> !Live(content.slots[k])
      {
        if content.slots[position].flag == 1 || content.slots[position].flag == 2 {
          return false;
        }
        position := position + 1;
      }
      return true;
    }

    /** The freeing loop of op_rm, on any region of blocks whose next pointers stay inside it,
        cycles included: it ends, because every step either rewrites a next pointer to -1 or is
        the last one, and it has then unmarked and zeroed exactly the blocks reached. */
    method FreeChain(start: int, ghost region: set<int>) returns (ghost t: seq<int>)
      requires Shaped() && Closed(disk[..], start, region)
      modifies disk, bitmap.bytes
      ensures Shaped() && IsTrail(old(disk[..]), start, t)
      ensures disk[..] == Zeroed(old(disk[..]), SetOf(t)) && bitmap.Used() == old(bitmap.Used()) - SetOf(t)
    {
      hide Fresh, Zeroed;
      t := [];
      ZeroNothing(disk[..]);
      var next_blk := start;
      while next_blk != -1
        invariant Closed(old(disk[..]), start, region) && (next_blk == -1 || next_blk in region)
        invariant TrailTo(old(disk[..]), start, t, next_blk)
        invariant disk[..] == Zeroed(old(disk[..]), SetOf(t)) && bitmap.Used() == old(bitmap.Used()) - SetOf(t)
        decreases Pending(disk[..], region), next_blk != -1
      {
        ghost var before := disk[..];
        var _ := bitmap.SetBlk(next_blk, false);
        var _, content := ReadBlk(next_blk);
        InitNewBlk(next_blk);
        ZeroOneMore(old(disk[..]), start, t, next_blk);
        PendingDrops(before, region, next_blk);
        if next_blk !in t {
          t := t + [next_blk];
        }
        next_blk := content.next;
      }
    }

    // ---- op_rm

    method OpRm(path: string, flag: int) returns (res: int)
      requires Valid() && Normal(path) && path != "/" && flag in {1, 2} && PrefixDirs(Now(), Parse(path))
      modifies this, disk, bitmap.bytes
      ensures Valid() && (Now(), res) == Remove(old(Now()), Parse(path), flag)
    {
      ghost var s, c := Now(), Parse(path);
      hide Ok, Walkable, PrefixDirs, Normal, Parse, Resolve, EmptyChain;
      ParentAndName(path);
      OkWalkable(s, c);
      RootInside(s);
      RemoveOk(s, c, flag);
      var r, inode := OpOpen(path);
      if r != 0 {
        return -ENOENT;
      }
      if flag == 1 && inode.flag == 2 {
        return -EISDIR;
      } else if flag == 2 && inode.flag == 1 {
        return -ENOTDIR;
      }
      if flag == 2 {
        var empty := IsEmptyDir(path);
        if empty == 0 {
          return -ENOTEMPTY;
        }
      }
      res := RemoveFound(path, inode, s, c);
    }

    /** The object is known and may go: its chain is freed, then its entry cleared. */
    method RemoveFound(path: string, inode: Dirent, ghost s: Fs, ghost c: seq<string>) returns (res: int)
      requires Valid() && s == Now() && Normal(path) && path != "/" && c == Parse(path) && c != [] && PrefixDirs(s, c)
      requires Resolve(s, c) == Some(inode)
      modifies this, disk, bitmap.bytes
      ensures Shaped() && res == 0
      ensures inode.start in s.ref && Now() == Erase(s, inode.start, s.ref[inode.start].0, s.ref[inode.start].1)
    {
      hide Ok, Walkable, PrefixDirs, Normal, Parse, Resolve, WayKept, Zeroed;
      OkWalkable(s, c);
      RootInside(s);
      RemoveAt(s, c);
      ghost var o := inode.start;
      ObjChain(s, o);
      ghost var t := FreeChain(inode.start, SetOf(Chain(s, o)));
      TrailOfChain(s.blk, o, Chain(s, o), t);
      WayAfterFree(s, c);
      ghost var s1 := s.(blk := disk[..]);
      ResolveUsed(s1, Now(), Front(c));
      WalkableUsed(s1, Now(), c);
      var r := OpModifyAttr(path, Dirent(inode.fname, 0, -1, 0));
      EntryAfterFree(s, c);
      objs, home, ref := objs - {o}, home - SetOf(Chain(s, o)), ref - {o};
      res := if r != 0 then -1 else 0;
    }

    static lemma ObjChain(s: Fs, o: int)
      requires Ok(s) && o in s.objs
      ensures IsChain(s.blk, o, Chain(s, o)) && Closed(s.blk, o, SetOf(Chain(s, o)))
    {
      assert ObjOk(s, o);
      forall x | x in Chain(s, o) ensures ROOT <= x {
        InChain(s, o, x);
      }
      ChainClosed(s.blk, o, Chain(s, o));
    }

    /** Freeing an object leaves the directories above it alone. */
    static lemma WayAfterFree(s: Fs, c: seq<string>)
      requires Ok(s) && c != [] && Resolve(s, c).Some? && Walkable(s, c)
      ensures var blk' := Zeroed(s.blk, SetOf(Chain(s, Resolve(s, c).value.start))); var s1 := s.(blk := blk');
        Walkable(s1, c) && Resolve(s1, Front(c)) == Resolve(s, Front(c))
    {
      hide Ok, Zeroed, Walkable, Resolve;
      var o := Resolve(s, c).value.start;
      var blk' := Zeroed(s.blk, SetOf(Chain(s, o)));
      forall i, b | 0 <= i < |c| && Resolve(s, c[..i]).Some? && b in Chain(s, Resolve(s, c[..i]).value.start)
          && 0 <= b < |blk'|
        ensures blk'[b] == s.blk[b]
      {
        NotOnWay(s, c, i, b);
      }
      WalkableKept(s, blk', c);
      assert forall i :: 0 <= i < |Front(c)| ==> Front(c)[..i] == c[..i];
      FrontWalkable(s, c);
      ResolveKept(s, blk', Front(c));
    }

    static lemma NotOnWay(s: Fs, c: seq<string>, i: nat, b: int)
      requires Ok(s) && i < |c| && Resolve(s, c).Some? && Resolve(s, c[..i]).Some?
      requires b in Chain(s, Resolve(s, c[..i]).value.start)
      ensures b !in Chain(s, Resolve(s, c).value.start)
    {
      hide Ok, Resolve;
      InChain(s, Resolve(s, c[..i]).value.start, b);
      if b in Chain(s, Resolve(s, c).value.start) {
        InChain(s, Resolve(s, c).value.start, b);
        SamePath(s, c, c[..i]);
      }
    }

    /** The entry is still found after the chain is gone, in the slot it was in. */
    static lemma EntryAfterFree(s: Fs, c: seq<string>)
      requires Ok(s) && c != [] && Resolve(s, c).Some? && Walkable(s, c)
      ensures var e := Resolve(s, c).value; var s1 := s.(blk := Zeroed(s.blk, SetOf(Chain(s, e.start))));
        && e.start in s.ref
        && Modified(s1, c, Dirent(e.fname, 0, -1, 0)) == (ClearSlot(s1.blk, s.ref[e.start].0, s.ref[e.start].1), 0)
    {
      var e, d := Resolve(s, c).value, Resolve(s, Front(c)).value.start;
      var s1 := s.(blk := Zeroed(s.blk, SetOf(Chain(s, e.start))));
      WayAfterFree(s, c);
      RemoveAt(s, c);
      var (b, k) := s.ref[e.start];
      AtApart(s, e.start, d, b, k);
      EntryMeans(s, d, Last(c));
      forall x | x in Chain(s, d) ensures SlotsAt(s1.blk, x) == SlotsAt(s.blk, x) {
        InChain(s, d, x);
      }
      hide Ok, Zeroed, Walkable;
      FindFrame(s.blk, s1.blk, Chain(s, d), Last(c));
    }

    // ---- readdir and read

    /** u_fs_readdir with a filler that always accepts: the names handed over, in order. */
    method UFsReaddir(path: string) returns (res: int, names: seq<string>)
      requires Valid() && PrefixDirs(Now(), Parse(path))
      ensures var e := Resolve(Now(), Parse(path));
        res == if e == None then -ENOENT else if e.value.flag == 1 then -ENOTDIR else 0
      ensures res == 0 ==> names == Listing(Now(), Resolve(Now(), Parse(path)).value.start)
    {
      ghost var s, p := Now(), Parse(path);
      hide Ok, Walkable, PrefixDirs, Parse, Resolve, NamesIn;
      OkWalkable(s, p);
      RootInside(s);
      names := [];
      var r, inode := OpOpen(path);
      if r != 0 {
        return -ENOENT, [];
      }
      ResolveMeans(s, p);
      if inode.flag == 1 {
        return -ENOTDIR, [];
      }
      DirScannable(s, inode.start);
      var _, content := ReadBlk(inode.start);
      var below := NamesFrom(content, Chain(s, inode.start));
      res, names := 0, [".", ".."] + below;
    }

    method NamesFrom(first: Block, ghost c: seq<int>) returns (names: seq<string>)
      requires c != [] && IsChain(disk[..], c[0], c) && first == disk[c[0]]
      requires forall b :: b in c ==> 0 <= b < disk.Length && |disk[b].slots| == SLOTS
      requires forall b, k :: b in c && 0 <= k < SLOTS ==> 0 <= disk[b].slots[k].flag <= 2
      ensures names == NamesIn(disk[..], c)
    {
      hide LiveNames, IsChain;
      NextOf(disk[..], c[0], c, 0);
      var content := first;
      names := [];
      ghost var i, blk := 0, disk[..];
      while true
        invariant disk[..] == blk && 0 <= i < |c| && 0 <= c[i] < |blk| && content == blk[c[i]]
        invariant NamesIn(blk, c) == names + NamesIn(blk, c[i..])
        decreases |c| - i
      {
        assert c[i] in c && c[i..][0] == c[i] && c[i..][1..] == c[i + 1..];
        var here := BlockNames(content);
        assert NamesIn(blk, c[i..]) == here + NamesIn(blk, c[i + 1..]);
        assert names + (here + NamesIn(blk, c[i + 1..])) == (names + here) + NamesIn(blk, c[i + 1..]);
        names := names + here;
        NextOf(disk[..], c[0], c, i);
        if content.next == -1 {
          assert i == |c| - 1;
          assert c[i + 1..] == [];
          return;
        }
        var _, content' := ReadBlk(content.next);
        content := content';
        i := i + 1;
      }
    }

    static lemma LiveNamesStep(slots: seq<Dirent>, k: nat)
      requires k < |slots|
      ensures LiveNames(slots[k..]) == (if Live(slots[k]) then [slots[k].fname] else []) + LiveNames(slots[k + 1..])
    {
      assert slots[k..][1..] == slots[k + 1..];
    }

    static lemma LiveNamesEnds(slots: seq<Dirent>)
      ensures slots[0..] == slots && LiveNames(slots[|slots|..]) == []
    {
    }

    method BlockNames(content: Block) returns (names: seq<string>)
      requires |content.slots| == SLOTS && forall k :: 0 <= k < SLOTS ==> 0 <= content.slots[k].flag <= 2
      ensures names == LiveNames(content.slots)
    {
      hide LiveNames;
      names := [];
      var position := 0;
      LiveNamesEnds(content.slots);
      while position < SLOTS
        invariant position <= SLOTS
        invariant LiveNames(content.slots) == names + LiveNames(content.slots[position..])
      {
        LiveNamesStep(content.slots, position);
        var dirent := content.slots[position];
        if dirent.flag == 1 || dirent.flag == 2 {
          names := names + [dirent.fname];
        }
        position := position + 1;
      }
    }

    /** memcpy into the caller's buffer. */
    method CopyOut(buf: array<byte>, at: nat, bytes: seq<byte>)
      requires at + |bytes| <= buf.Length
      modifies buf
      ensures buf[..] == old(buf[..at]) + bytes + old(buf[at + |bytes|..])
    {
      forall i | 0 <= i < |bytes| {
        buf[at + i] := bytes[i];
      }
    }

    /** u_fs_read: the bytes go to the front of buf, the rest of which stays as it was. */
    method UFsRead(path: string, buf: array<byte>, size: nat, offset: nat) returns (res: int)
      requires Valid() && PrefixDirs(Now(), Parse(path)) && size <= buf.Length
      requires buf as object != disk && buf as object != bitmap.bytes
      modifies buf
      ensures Valid() && Now() == old(Now())
      ensures var r := Read(Now(), Parse(path), size, offset);
        res == r.0 && (res >= 0 ==> buf[..] == r.1 + old(buf[|r.1|..]))
    {
      hide Ok, Walkable, PrefixDirs, Parse, Resolve, Content, IsChain, Visited;
      ghost var s, p := Now(), Parse(path);
      OkWalkable(s, p);
      RootInside(s);
      var r, inode := OpOpen(path);
      if r != 0 {
        return -ENOENT;
      }
      if inode.flag == 2 {
        return -EISDIR;
      }
      if inode.fsize <= offset {
        return 0;
      }
      var n := if offset + size > inode.fsize then inode.fsize - offset else size;
      ResolveMeans(s, p);
      FileBlocks(s, inode.start);
      var ok := ReadSpan(inode.start, Chain(s, inode.start), buf, n, offset);
      ReadOrNot(|Chain(s, inode.start)|, n, offset);
      res := if ok then n else -1;
    }

    static lemma ReadOrNot(blocks: nat, n: nat, offset: nat)
      ensures Visited(n, offset) <= blocks ==> offset + n <= CAP * blocks
    {
      if Visited(n, offset) <= blocks {
        VisitedCovers(n, offset, blocks);
      }
    }

    static lemma FileBlocks(s: Fs, o: int)
      requires Ok(s) && o in s.objs
      ensures var c := Chain(s, o);
        && c != [] && c[0] == o && IsChain(s.blk, o, c) && |Content(s.blk, c)| == CAP * |c|
        && (forall b :: b in c ==> 0 <= b < |s.blk| && |s.blk[b].data| == CAP)
    {
      assert ObjOk(s, o);
      AllWf(s);
      forall b | b in Chain(s, o) ensures 0 <= b < |s.blk| {
        InChain(s, o, b);
      }
      hide Ok, IsChain;
      ContentLength(s.blk, Chain(s, o));
    }

    /** The block walk of u_fs_read: n bytes from offset on, or failure when the chain ends. */
    method ReadSpan(start: int, ghost c: seq<int>, buf: array<byte>, n: nat, offset: nat) returns (ok: bool)
      requires IsChain(disk[..], start, c) && n <= buf.Length && buf as object != disk
      requires forall b :: b in c ==> 0 <= b < disk.Length && |disk[b].data| == CAP
      modifies buf
      ensures ok <==> Visited(n, offset) <= |c|
      ensures ok ==> Copied(buf[..], Content(disk[..], c), old(buf[..]), offset, n)
    {
      hide Content, Visited, Copied, IsChain;
      var found, _, content := BlockAt(start, c, offset / CAP);
      VisitsFirst(n, offset);
      if !found {
        return false;
      }
      var real_offset := offset % CAP;
      var ret := Min(CAP - real_offset, n);
      assert c[offset / CAP] in c;
      ContentSlice(disk[..], c, offset / CAP);
      FirstSlice(Content(disk[..], c), offset, ret);
      CopiedFirst(Content(disk[..], c), buf[..], offset, content.data[real_offset..real_offset + ret]);
      CopyOut(buf, 0, content.data[real_offset..real_offset + ret]);
      VisitsRest(n, offset);
      BaseNext(offset / CAP);
      ok := ReadRest(start, content, c, offset / CAP, buf, n, n - ret, offset, old(buf[..]));
    }

    /** Follows the chain to its k-th block. */
    method BlockAt(start: int, ghost c: seq<int>, k: nat) returns (found: bool, start_blk: int, content: Block)
      requires IsChain(disk[..], start, c)
      ensures found <==> k < |c|
      ensures found ==> start_blk == c[k] && 0 <= start_blk < disk.Length && content == disk[start_blk]
    {
      start_blk := start;
      for i := 0 to k
        invariant i <= |c| && start_blk == if i < |c| then c[i] else -1
      {
        var r, content' := ReadBlk(start_blk);
        if r == -1 {
          return false, -1, Fresh();
        }
        assert content'.next == NextIn(c, i);
        start_blk := content'.next;
      }
      var r, content' := ReadBlk(start_blk);
      return r != -1, start_blk, content';
    }

    /** One memcpy of the loop: the payload's bytes from `from` on follow those copied. */
    method CopyPiece(buf: array<byte>, done: nat, content: Block, m: nat,
                     ghost t: seq<byte>, ghost before: seq<byte>, ghost offset: nat, ghost from: nat)
      requires Copied(buf[..], t, before, offset, done) && done + m <= |before| == buf.Length && m <= |content.data|
      requires from == offset + done && from + m <= |t| && content.data[..m] == t[from..from + m]
      modifies buf
      ensures Copied(buf[..], t, before, offset, done + m)
    {
      CopiedMore(buf[..], t, before, offset, done, content.data[..m]);
      hide Copied;
      CopyOut(buf, done, content.data[..m]);
    }

    /** The loop over the blocks behind the first. */
    method ReadRest(ghost start: int, first: Block, ghost c: seq<int>, ghost k: nat, buf: array<byte>, n: nat,
                    left: nat,
                    ghost offset: nat, ghost before: seq<byte>) returns (ok: bool)
      requires k < |c| && IsChain(disk[..], start, c) && first == disk[c[k]] && buf as object != disk
      requires forall b :: b in c ==> 0 <= b < disk.Length && |disk[b].data| == CAP
      requires left <= n <= buf.Length == |before|
      requires left > 0 ==> offset + n - left == Base(k + 1)
      requires Copied(buf[..], Content(disk[..], c), before, offset, n - left)
      modifies buf
      ensures ok <==> k + 1 + Ceil(left) <= |c|
      ensures ok ==> Copied(buf[..], Content(disk[..], c), before, offset, n)
    {
      hide *;
      NextOf(disk[..], start, c, k);
      CeilStep(0);
      var temp, content := left, first;
      ghost var j, blk := k, disk[..];
      ghost var t, done := Content(blk, c), n - left;
      while temp > 0
        invariant 0 <= temp <= left && k <= j < |c| && disk[..] == blk && 0 <= c[j] < |blk| && content == blk[c[j]]
        invariant k + Ceil(left) == j + Ceil(temp)
        invariant done == n - temp && (temp > 0 ==> offset + done == Base(j + 1))
        invariant Copied(buf[..], t, before, offset, done)
      {
        CeilLess(temp);
        NextOf(blk, start, c, j);
        var r, content' := ReadBlk(content.next);
        if r == -1 {
          return false;
        }
        content := content';
        var m := Min(CAP, temp);
        assert m == if CAP < temp then CAP else temp by { MinIs(CAP, temp); }
        PieceOf(blk, c, j + 1, m);
        CopyPiece(buf, n - temp, content, m, t, before, offset, Base(j + 1));
        BaseNext(j + 1);
        temp, j, done := temp - m, j + 1, done + m;
      }
      return true;
    }

    static lemma ChainStart(blk: seq<Block>, start: int, c: seq<int>)
      requires IsChain(blk, start, c)
      ensures start == Head(c)
    {
    }

    static lemma NextOf(blk: seq<Block>, start: int, c: seq<int>, j: nat)
      requires IsChain(blk, start, c) && j < |c|
      ensures 0 <= c[j] < |blk| && blk[c[j]].next == (if j + 1 < |c| then c[j + 1] else -1)
      ensures j + 1 < |c| ==> 0 <= c[j + 1] < |blk|
    {
      assert blk[c[j]].next == NextIn(c, j);
    }

    static lemma MinIs(a: int, b: int)
      ensures Min(a, b) == if a < b then a else b
    {
    }

    /** Where block j's bytes begin in the payload. */
    static ghost function Base(j: nat): nat {
      CAP * j
    }

    static lemma BaseNext(j: nat)
      ensures Base(j + 1) == Base(j) + CAP
    {
    }

    static lemma PieceOf(blk: seq<Block>, c: seq<int>, j: nat, m: nat)
      requires j < |c| && m <= CAP && forall b :: b in c ==> 0 <= b < |blk| && |blk[b].data| == CAP
      ensures Base(j) + m <= |Content(blk, c)| && 0 <= c[j] < |blk| && |blk[c[j]].data| == CAP
      ensures Content(blk, c)[Base(j)..Base(j) + m] == blk[c[j]].data[..m]
    {
      assert c[j] in c;
      ContentSlice(blk, c, j);
      PrefixOf(Content(blk, c), CAP * j, CAP * j + m, CAP * (j + 1));
    }

    // ---- write

    /** The inner loop of u_fs_write: n blocks from b on, through one buffer. */
    method FillBlocks(first: Block, buf: seq<byte>, b: int, n: nat) returns (content: Block, rest: seq<byte>)
      requires WfBlock(first) && 0 <= b && b + n <= disk.Length
      modifies disk
      ensures (disk[..], content, rest) == FillRun(old(disk[..]), first, buf, b, n)
    {
      hide Filled;
      content, rest := first, buf;
      var next_b := b;
      for i := 0 to n
        invariant next_b == b + i && WfBlock(content)
        invariant FillRun(old(disk[..]), first, buf, b, n) == FillRun(disk[..], content, rest, next_b, n - i)
      {
        var content' := FillOne(content, rest, next_b);
        WriteBlk(next_b, content');
        content, rest := content', Rest(rest);
        next_b := next_b + 1;
      }
    }

    method FillOne(content: Block, rest: seq<byte>, next_b: int) returns (r: Block)
      requires WfBlock(content)
      ensures r == Filled(content, rest, next_b)
    {
      var ret := Min(CAP, |rest|);
      r := WithData(content.(size := ret), Overlay(content.data, 0, rest[..ret]));
      if ret == |rest| {
        r := r.(next := -1);
      } else {
        r := r.(next := next_b + 1);
      }
    }

    /** The outer loop: further runs are searched for until the bytes are used up. */
    method AppendBlocks(first: Block, buf: seq<byte>, start: int, len: nat) returns (res: int)
      requires Shaped() && WfBlock(first) && len > 0 && 0 <= start && start + len <= disk.Length
      requires max + Asked(|buf|) <= disk.Length && buf != []
      modifies disk, bitmap.bytes
      ensures Shaped()
      ensures (disk[..], bitmap.Used(), res)
          == AppendRuns(old(disk[..]), old(bitmap.Used()), max, first, buf, Run(len, start))
    {
      hide FillRun, IsBest, Blocks, Best;
      var content, rest, next_b, num := first, buf, start, len;
      while true
        invariant Shaped() && WfBlock(content) && num > 0 && 0 <= next_b && next_b + num <= disk.Length
        invariant max + Asked(|rest|) <= disk.Length && rest != []
        invariant AppendRuns(old(disk[..]), old(bitmap.Used()), max, first, buf, Run(len, start))
               == AppendRuns(disk[..], bitmap.Used(), max, content, rest, Run(num, next_b))
        decreases |rest|
      {
        FillRunRest(disk[..], content, rest, next_b, num);
        content, rest := FillBlocks(content, rest, next_b, num);
        if rest == [] {
          return 0;
        }
        BestBounds(bitmap.Used(), max, Asked(|rest|));
        num, next_b := bitmap.SearchFreeBlk(Asked(|rest|));
        if num < 1 {
          assert bitmap.Used() == bitmap.Used() + Blocks(next_b, num);
          return -1;
        }
      }
    }

    static lemma BestBounds(used: set<int>, max: nat, n: nat)
      ensures var r := Best(used, FIRST, max - 1, n);
          r.len <= n && (r.len > 0 ==> FIRST <= r.start < max) && (r.len == 0 ==> Blocks(r.start, r.len) == {})
    {
    }

    /** The freeing loop of u_fs_write: marks only, the blocks keep their contents. */
    method FreeTail(start: int, ghost c: seq<int>)
      requires Shaped() && IsChain(disk[..], start, c)
      modifies bitmap.bytes
      ensures Shaped() && bitmap.Used() == old(bitmap.Used()) - SetOf(c)
    {
      hide IsChain, Blocks;
      var next_blk := start;
      ghost var i := 0;
      if |c| > 0 {
        NextOf(disk[..], start, c, 0);
      }
      ChainStart(disk[..], start, c);
      while next_blk != -1
        invariant 0 <= i <= |c| && next_blk == (if i < |c| then c[i] else -1)
        invariant i < |c| ==> 0 <= c[i] < disk.Length
        invariant disk[..] == old(disk[..]) && bitmap.Used() == old(bitmap.Used()) - SetOf(c[..i])
        decreases |c| - i
      {
        NextOf(disk[..], start, c, i);
        var _ := bitmap.SetBlk(next_blk, false);
        var _, content := ReadBlk(next_blk);
        assert c[..i + 1] == c[..i] + [c[i]];
        next_blk := content.next;
        i := i + 1;
      }
      assert c[..i] == c;
    }

    /** The data of a write: into the offset's block, then either into further blocks or,
        when everything fitted, with the blocks behind it freed. */
    method WriteData(o: int, buf: seq<byte>, offset: nat) returns (res: int)
      requires Valid() && o in objs && Room(Now(), buf)
      modifies disk, bitmap.bytes
      ensures Shaped()
      ensures (disk[..], bitmap.Used(), res) == WriteDisk(old(Now()), o, buf, offset)
    {
      ghost var s := Now();
      FileBlocks(s, o);
      hide Ok, AppendRuns, Content, Overlay, Patched, Surplus;
      var found, start_blk, content := BlockAt(o, Chain(s, o), offset / CAP);
      if !found {
        return -1;
      }
      var off := offset % CAP;
      TailChain(s, o, offset / CAP);
      PatchedNext(content, off, buf);
      content := Patched(content, off, buf);
      var rest := Surplus(off, buf);
      if |rest| > 0 {
        res := WriteBeyond(start_blk, content, rest, s, off, buf);
      } else {
        WriteWithin(start_blk, content, Chain(s, o)[offset / CAP + 1..]);
        return 0;
      }
    }

    method WriteWithin(start_blk: int, content: Block, ghost tail: seq<int>)
      requires Shaped() && 0 <= start_blk < disk.Length && start_blk !in tail
      requires IsChain(disk[..], Head(tail), tail) && content.next == Head(tail)
      modifies disk, bitmap.bytes
      ensures Shaped()
      ensures disk[..] == old(disk[..])[start_blk := content.(next := -1)]
      ensures bitmap.Used() == old(bitmap.Used()) - SetOf(tail)
    {
      var next_blk := content.next;
      WriteBlk(start_blk, content.(next := -1));
      ChainFrame(old(disk[..]), disk[..], Head(tail), tail);
      FreeTail(next_blk, tail);
    }

    method WriteBeyond(start_blk: int, content: Block, rest: seq<byte>, ghost s: Fs, ghost off: nat,
                       ghost buf: seq<byte>) returns (res: int)
      requires Valid() && s == Now() && 0 <= start_blk < disk.Length && WfBlock(content)
      requires Room(s, buf) && off < CAP && rest == Surplus(off, buf) != []
      modifies disk, bitmap.bytes
      ensures Shaped()
      ensures var r := FirstRun(s, off, buf);
        if r.len < 1 then disk[..] == s.blk && bitmap.Used() == s.used && res == -1
        else
          && 0 <= r.start && r.start + r.len <= |s.blk| && max + Asked(|rest|) <= |s.blk|
          && (disk[..], bitmap.Used(), res)
             == AppendRuns(s.blk[start_blk := content.(next := r.start)], s.used + Blocks(r.start, r.len), max,
               content.(next := r.start), rest, r)
    {
      hide Ok, AppendRuns, Best, IsBest, Blocks;
      SurplusBound(s, off, buf);
      var num, next_b := bitmap.SearchFreeBlk(Asked(|rest|));
      if num < 1 {
        assert bitmap.Used() == s.used;
        return -1;
      }
      RunBounds(s, off, buf);
      WriteBlk(start_blk, content.(next := next_b));
      res := AppendBlocks(content.(next := next_b), rest, next_b, num);
    }

    static lemma PatchedNext(b: Block, off: nat, buf: seq<byte>)
      requires WfBlock(b) && off < CAP
      ensures Patched(b, off, buf).next == b.next
    {
    }

    static lemma SurplusBound(s: Fs, off: nat, buf: seq<byte>)
      ensures Asked(|Surplus(off, buf)|) <= Asked(|buf|)
    {
    }

    static lemma TailChain(s: Fs, o: int, k: nat)
      requires Ok(s) && o in s.objs && k < |Chain(s, o)|
      ensures var c := Chain(s, o);
        && 0 <= c[k] < |s.blk| && s.blk[c[k]].next == Head(c[k + 1..]) && IsChain(s.blk, Head(c[k + 1..]), c[k + 1..])
        && c[k] !in c[k + 1..] && WfBlock(s.blk[c[k]])
    {
      var c := Chain(s, o);
      assert ObjOk(s, o);
      ChainTail(s.blk, o, c, k + 1);
      ChainTailApart(s, o, k);
      assert s.blk[c[k]].next == NextIn(c, k);
      InChain(s, o, c[k]);
      AllWf(s);
      hide Ok;
    }

    /** u_fs_write at an offset inside the file or at its end. */
    method UFsWrite(path: string, buf: seq<byte>, offset: nat) returns (res: int)
      requires Valid() && Normal(path) && path != "/" && PrefixDirs(Now(), Parse(path)) && Room(Now(), buf)
      requires var e := Resolve(Now(), Parse(path)); e.Some? ==> e.value.flag == 1 && offset <= e.value.fsize
      modifies this, disk, bitmap.bytes
      ensures Shaped() && (Now(), res) == Write(old(Now()), Parse(path), buf, offset)
      ensures Parse(path) != [] && (Plain(old(Now()), Put(Parse(path), buf, offset)) ==> Valid())
    {
      ghost var s, c := Now(), Parse(path);
      ParentAndName(path);
      PlainWriteOk(s, c, buf, offset);
      OkWalkable(s, c);
      RootInside(s);
      WriteCases(s, c, buf, offset);
      hide Ok, Walkable, PrefixDirs, Normal, Parse, Resolve, WriteDisk, Write, Plain, Room;
      var r, inode := OpOpen(path);
      if r != 0 {
        return -ENOENT;
      }
      res := WriteData(inode.start, buf, offset);
      if res < 0 {
        return -1;
      }
      res := RecordSize(path, inode, buf, offset, s, c);
    }

    /** The cases of a write: nothing there, the data cannot be written, or it is. */
    static lemma WriteCases(s: Fs, c: seq<string>, buf: seq<byte>, offset: nat)
      requires Ok(s) && Room(s, buf) && c != []
      ensures Resolve(s, c) == None ==> Write(s, c, buf, offset) == (s, -ENOENT)
      ensures Resolve(s, c).Some? ==> var o := Resolve(s, c).value.start;
        && o in s.objs && o in s.ref
        && var (blk', used', r) := WriteDisk(s, o, buf, offset);
           r < 0 ==> Write(s, c, buf, offset) == (s.(blk := blk', used := used'), -1)
    {
      if Resolve(s, c).Some? {
        ResolveMeans(s, c);
        EntryMeans(s, Resolve(s, Front(c)).value.start, Last(c));
      }
      hide Ok, WriteDisk, Resolve, Relink, SetSize;
    }

    /** The data is written; a larger size goes into the entry. */
    method RecordSize(path: string, inode: Dirent, buf: seq<byte>, offset: nat, ghost s: Fs, ghost c: seq<string>)
        returns (res: int)
      requires Normal(path) && path != "/" && c == Parse(path) && c != [] && ROOT < disk.Length
      requires Ok(s) && Walkable(s, c) && Room(s, buf) && Resolve(s, c) == Some(inode) && inode.flag == 1
      requires inode.start in s.objs && inode.start in s.ref && WriteDisk(s, inode.start, buf, offset).2 >= 0
      requires Shaped()
      requires Now() == s.(blk := WriteDisk(s, inode.start, buf, offset).0,
          used := WriteDisk(s, inode.start, buf, offset).1)
      modifies this, disk
      ensures Shaped() && (Now(), res) == Write(s, c, buf, offset)
    {
      hide Ok, Walkable, Normal, Parse, Resolve, WriteDisk, Relink, SetSize, Modified, Room, Added, WayKept;
      ghost var blk', used' := disk[..], bitmap.Used();
      WayAfterWrite(s, c, buf, offset);
      WalkableUsed(s.(blk := blk'), Now(), c);
      if inode.fsize < offset + |buf| {
        EntryAfterWrite(s, c, buf, offset, Now());
        var a := OpModifyAttr(path, Dirent(inode.fname, offset + |buf|, inode.start, inode.flag));
        if a != 0 {
          return -1;
        }
      }
      Relinked(s, inode, buf, offset, blk', used');
      res := |buf|;
    }

    static lemma PlainWriteOk(s: Fs, c: seq<string>, buf: seq<byte>, offset: nat)
      requires Ok(s) && Room(s, buf) && c != [] && (Resolve(s, c).Some? ==> Resolve(s, c).value.flag == 1)
      ensures Plain(s, Put(c, buf, offset)) ==> Ok(Write(s, c, buf, offset).0)
    {
      hide Ok, Write, Plain, Room, Resolve;
      if Plain(s, Put(c, buf, offset)) {
        PlainOk(s, Put(c, buf, offset));
      }
    }

    /** Brings the lists of objects and places in line with the data just written. */
    ghost method Relinked(s: Fs, e: Dirent, buf: seq<byte>, offset: nat, blk': seq<Block>, used': set<int>)
      requires max == s.max && bitmap.Used() == used' && e.start in s.objs && offset / CAP < |Chain(s, e.start)|
      requires e.start in s.ref
      requires var (b, k) := s.ref[e.start];
        disk[..] == if e.fsize < offset + |buf| then SetSize(s.(blk := blk'), b, k, offset + |buf|).blk else blk'
      modifies `objs, `home, `ref
      ensures var s1 := Relink(s, e.start, offset / CAP, Added(s, offset % CAP, buf).0,
          Added(s, offset % CAP, buf).1, blk', used');
        Now() == if e.fsize < offset + |buf| then SetSize(s1, s.ref[e.start].0, s.ref[e.start].1, offset + |buf|)
          else s1
    {
      hide Added;
      var s1 := Relink(s, e.start, offset / CAP, Added(s, offset % CAP, buf).0, Added(s, offset % CAP, buf).1, blk',
          used');
      objs, home, ref := s1.objs, s1.home, s1.ref;
    }

    /** The directories above the file are untouched by the data. */
    static lemma WayAfterWrite(s: Fs, c: seq<string>, buf: seq<byte>, offset: nat)
      requires Ok(s) && Room(s, buf) && c != [] && Resolve(s, c).Some? && Resolve(s, c).value.flag == 1
      requires Walkable(s, c)
      requires Resolve(s, c).value.start in s.objs && WriteDisk(s, Resolve(s, c).value.start, buf, offset).2 >= 0
      ensures var o := Resolve(s, c).value.start; var blk' := WriteDisk(s, o, buf, offset).0;
        && offset / CAP < |Chain(s, o)| && WayKept(s, blk', c) && Walkable(s.(blk := blk'), c)
    {
      var o := Resolve(s, c).value.start;
      assert offset / CAP < |Chain(s, o)|;
      ResolveMeans(s, c);
      hide Ok, Walkable, Resolve, WriteDisk;
      var blk' := WriteDisk(s, o, buf, offset).0;
      forall i, b | 0 <= i < |c| && Resolve(s, c[..i]).Some? && b in Chain(s, Resolve(s, c[..i]).value.start)
          && 0 <= b < |blk'|
        ensures blk'[b] == s.blk[b]
      {
        WayIsDir(s, c, i);
        WriteKeepsDirs(s, o, buf, offset, Resolve(s, c[..i]).value.start, b);
      }
      WalkableKept(s, blk', c);
    }

    static lemma WayIsDir(s: Fs, c: seq<string>, i: nat)
      requires Walkable(s, c) && i < |c| && Resolve(s, c[..i]).Some?
      ensures IsDir(s, Resolve(s, c[..i]).value.start)
    {
    }

    /** op_modify_attr finds the file's entry where it was and changes nothing but its size. */
    static lemma EntryAfterWrite(s: Fs, c: seq<string>, buf: seq<byte>, offset: nat, s1: Fs)
      requires Ok(s) && c != [] && Resolve(s, c).Some? && Walkable(s, c) && WayKept(s, s1.blk, c) && s1.objs == s.objs
      ensures var e := Resolve(s, c).value;
        && e.start in s.ref
        && var (b, k) := s.ref[e.start];
           Modified(s1, c, Dirent(e.fname, offset + |buf|, e.start, e.flag))
             == (SetSize(s.(blk := s1.blk), b, k, offset + |buf|).blk, 0)
    {
      var e, d := Resolve(s, c).value, Resolve(s, Front(c)).value.start;
      EntryMeans(s, d, Last(c));
      var (b, k) := s.ref[e.start];
      FrontWalkable(s, c);
      assert Front(c) == c[..|c| - 1];
      assert forall i :: 0 <= i < |Front(c)| ==> Front(c)[..i] == c[..i];
      assert WayKept(s, s1.blk, Front(c));
      hide Ok, Walkable;
      ResolveKept(s, s1.blk, Front(c));
      ResolveUsed(s.(blk := s1.blk), s1, Front(c));
      forall x | x in Chain(s, d) ensures SlotsAt(s1.blk, x) == SlotsAt(s.blk, x) {
        assert 0 <= x < |s.blk| ==> s1.blk[x] == s.blk[x];
      }
      FindFrame(s.blk, s1.blk, Chain(s, d), Last(c));
    }
  }
}
