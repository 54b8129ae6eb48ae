/** u_fs_read and u_fs_readdir, and what a write is for: reading it back. */
module Reading {
  import opened Paths
  import opened Disk
  import opened Tree
  import opened FileData
  import opened Creating
  import opened Writing
  import opened Splicing

  /** Bytes asked for, cut off at the end of the file. */
  function Clipped(fsize: nat, size: nat, offset: nat): nat {
    if fsize <= offset then 0 else Min(size, fsize - offset)
  }

  /** Blocks of the chain a read has to visit. */
  function Visited(n: nat, offset: nat): nat {
    var k, off := offset / CAP, offset % CAP;
    k + 1 + (if n <= CAP - off then 0 else Ceil(n - (CAP - off)))
  }

  /** The return value and the bytes put into the caller's buffer. A chain that ends too soon
      makes the read of block -1 fail. */
  function Read(s: Fs, path: seq<string>, size: nat, offset: nat): (r: (int, seq<byte>))
    ensures |r.1| <= size && (r.0 >= 0 ==> r.0 == |r.1|)
  {
    match Resolve(s, path)
    case None => (-ENOENT, [])
    case Some(e) =>
      if e.flag == 2 then (-EISDIR, [])
      else if e.fsize <= offset then (0, [])
      else
        var n, t := Clipped(e.fsize, size, offset), Content(s.blk, Chain(s, e.start));
        if Visited(n, offset) > |Chain(s, e.start)| || offset + n > |t| then (-1, [])
        else (n, t[offset..offset + n])
  }

  lemma VisitedBound(fsize: nat, n: nat, offset: nat)
    requires offset < fsize && offset + n <= fsize
    ensures Visited(n, offset) <= Ceil(fsize)
  {
    CeilStep(fsize);
    if n > CAP - offset % CAP {
      CeilStep(n - (CAP - offset % CAP));
    }
  }

  /** A read that finds its blocks stays inside the chain's payload. */
  lemma VisitedCovers(n: nat, offset: nat, blocks: nat)
    requires Visited(n, offset) <= blocks
    ensures offset + n <= CAP * blocks
  {
    if n > CAP - offset % CAP {
      CeilStep(n - (CAP - offset % CAP));
    }
  }

  /** Block j of a chain holds the payload's j-th 496 bytes. */
  lemma {:induction false} ContentSlice(blk: seq<Block>, c: seq<int>, j: nat)
    requires j < |c| && forall b :: b in c ==> |DataAt(blk, b)| == CAP
    ensures |Content(blk, c)| == CAP * |c| && Content(blk, c)[CAP * j..CAP * (j + 1)] == DataAt(blk, c[j])
    decreases |c|
  {
    ContentLength(blk, c);
    assert c[0] in c;
    if j > 0 {
      assert forall b :: b in c[1..] ==> b in c;
      ContentSlice(blk, c[1..], j - 1);
      var t, u := Content(blk, c), Content(blk, c[1..]);
      assert t[CAP * j..CAP * (j + 1)] == u[CAP * (j - 1)..CAP * j];
    }
  }

  lemma VisitsFirst(n: nat, offset: nat)
    ensures Visited(n, offset) > offset / CAP
  {
  }

  lemma VisitsRest(n: nat, offset: nat)
    ensures Visited(n, offset) == offset / CAP + 1 + Ceil(n - Min(CAP - offset % CAP, n))
  {
    CeilStep(0);
  }

  /** The part of the offset's block that a read starts with. */
  lemma FirstSlice(t: seq<byte>, offset: nat, m: nat)
    requires m <= CAP - offset % CAP && CAP * (offset / CAP + 1) <= |t|
    ensures t[CAP * (offset / CAP)..CAP * (offset / CAP + 1)][offset % CAP..offset % CAP + m] == t[offset..offset + m]
  {
    var k := offset / CAP;
    assert offset == CAP * k + offset % CAP;
  }

  /** The first `done` bytes of the caller's buffer hold the payload from offset on; the rest
      is as it was. */
  ghost predicate Copied(b: seq<byte>, t: seq<byte>, before: seq<byte>, offset: nat, done: nat) {
    offset + done <= |t| && done <= |before| && b == t[offset..offset + done] + before[done..]
  }

  /** A copied piece lengthens what has been copied. */
  lemma CopiedMore(b: seq<byte>, t: seq<byte>, before: seq<byte>, offset: nat, done: nat, piece: seq<byte>)
    requires Copied(b, t, before, offset, done) && done + |piece| <= |before|
    requires offset + done + |piece| <= |t| && piece == t[offset + done..offset + done + |piece|]
    ensures |b| == |before| && Copied(b[..done] + piece + b[done + |piece|..], t, before, offset, done + |piece|)
  {
    var m := |piece|;
    assert t[offset..offset + done] + piece == t[offset..offset + done + m];
    assert b[done + m..] == before[done..][m..] == before[done + m..];
  }

  lemma CopiedFirst(t: seq<byte>, before: seq<byte>, offset: nat, piece: seq<byte>)
    requires |piece| <= |before| && offset + |piece| <= |t| && piece == t[offset..offset + |piece|]
    ensures Copied(before[..0] + piece + before[|piece|..], t, before, offset, |piece|)
  {
  }

  lemma PrefixOf(t: seq<byte>, lo: nat, mid: nat, hi: nat)
    requires lo <= mid <= hi <= |t|
    ensures t[lo..hi][..mid - lo] == t[lo..mid]
  {
  }

  /** On a file whose chain is complete, a read returns exactly the file's bytes from offset
      to offset + size or the end of the file. */
  lemma ReadsBytes(s: Fs, path: seq<string>, size: nat, offset: nat)
    requires Ok(s) && Resolve(s, path).Some? && Resolve(s, path).value.flag == 1 && Complete(s, Resolve(s, path).value)
    ensures var e := Resolve(s, path).value; var n := Max(0, Min(offset + size, e.fsize) - offset);
      && |BytesOf(s, e)| == e.fsize
      && Read(s, path, size, offset) == (n, if n == 0 then [] else BytesOf(s, e)[offset..offset + n])
  {
    hide Ok, Read, BytesOf, Resolve, Complete;
    ReadsClipped(s, path, size, offset);
  }

  lemma ReadsClipped(s: Fs, path: seq<string>, size: nat, offset: nat)
    requires Ok(s) && Resolve(s, path).Some? && Resolve(s, path).value.flag == 1 && Complete(s, Resolve(s, path).value)
    ensures var e := Resolve(s, path).value; var n := Clipped(e.fsize, size, offset);
      && |BytesOf(s, e)| == e.fsize
      && Read(s, path, size, offset) == (n, if n == 0 then [] else BytesOf(s, e)[offset..offset + n])
  {
    hide Ok, Content, Entry;
    var e := Resolve(s, path).value;
    ResolveMeans(s, path);
    CompleteBytes(s, e);
    hide Take, BytesOf, Visited, Ceil, Chain;
    if offset < e.fsize {
      var n := Clipped(e.fsize, size, offset);
      VisitedBound(e.fsize, n, offset);
      SliceOfPrefix(Content(s.blk, Chain(s, e.start)), e.fsize, offset, offset + n);
    }
  }

  /** What a read answers on every good disk, for files cut off by a write too: -1 exactly when the
      bytes asked for, or the first one's block, lie behind the end of the chain. */
  lemma ReadExactly(s: Fs, path: seq<string>, size: nat, offset: nat)
    requires Ok(s)
    ensures Resolve(s, path) == None ==> Read(s, path, size, offset) == (-ENOENT, [])
    ensures Resolve(s, path).Some? && Resolve(s, path).value.flag == 2 ==> Read(s, path, size, offset) == (-EISDIR, [])
    ensures Resolve(s, path).Some? && Resolve(s, path).value.flag == 1 ==>
      var e, r := Resolve(s, path).value, Read(s, path, size, offset);
      var n, t := Max(0, Min(offset + size, e.fsize) - offset), Content(s.blk, Chain(s, e.start));
      && |t| == CAP * |Chain(s, e.start)|
      && (r == (-1, []) <==> offset < e.fsize && |t| < offset + Max(n, 1))
      && (r.0 != -1 ==> r.0 == n == |r.1| && forall i :: 0 <= i < n ==> offset + i < |t| && r.1[i] == t[offset + i])
  {
    hide Ok, Content, Entry, Visited;
    if Resolve(s, path).Some? && Resolve(s, path).value.flag == 1 {
      var e := Resolve(s, path).value;
      ResolveMeans(s, path);
      PayloadLength(s, e.start);
      VisitedReaches(Clipped(e.fsize, size, offset), offset, |Chain(s, e.start)|);
    }
  }

  lemma PayloadLength(s: Fs, o: int)
    requires Ok(s) && o in s.objs
    ensures |Content(s.blk, Chain(s, o))| == CAP * |Chain(s, o)|
  {
    forall b | b in Chain(s, o) ensures |DataAt(s.blk, b)| == CAP {
      InChain(s, o, b);
    }
    hide Ok;
    ContentLength(s.blk, Chain(s, o));
  }

  lemma VisitedReaches(n: nat, offset: nat, blocks: nat)
    ensures Visited(n, offset) > blocks <==> offset + Max(n, 1) > CAP * blocks
  {
    var k, off := offset / CAP, offset % CAP;
    assert offset == CAP * k + off;
    if n > CAP - off {
      CeilStep(n - (CAP - off));
    }
  }

  lemma SliceOfPrefix<T>(t: seq<T>, n: nat, i: nat, j: nat)
    requires i <= j <= n <= |t|
    ensures t[..n][i..j] == t[i..j] && (i == j ==> t[i..j] == [])
  {
  }

  /** Reading back what a tail-keeping write wrote gives the buffer. */
  lemma ReadBack(s: Fs, path: seq<string>, buf: seq<byte>, offset: nat)
    requires Wrote(s, path, buf, offset) && Complete(s, Resolve(s, path).value)
    requires offset <= Resolve(s, path).value.fsize
    requires KeepsTail(s, Resolve(s, path).value, buf, offset)
    ensures Read(Write(s, path, buf, offset).0, path, |buf|, offset) == (|buf|, buf)
  {
    hide Ok, Write, Covers, Splice, Entry, Content, Read, KeepsTail;
    var e, s' := Resolve(s, path).value, Write(s, path, buf, offset).0;
    WriteSplicesExactly(s, path, buf, offset);
    WriteStaysComplete(s, path, buf, offset);
    WrittenFile(s, path, buf, offset);
    ReadsClipped(s', path, |buf|, offset);
    SpliceSlices(BytesOf(s, e), offset, buf, 0, 0);
  }

  /** Reading anything before or behind what was written gives what it gave before. */
  lemma ReadElsewhere(s: Fs, path: seq<string>, buf: seq<byte>, offset: nat, size: nat, from: nat)
    requires Wrote(s, path, buf, offset) && Complete(s, Resolve(s, path).value)
    requires offset <= Resolve(s, path).value.fsize
    requires KeepsTail(s, Resolve(s, path).value, buf, offset) && (from + size <= offset || offset + |buf| <= from)
    ensures Read(Write(s, path, buf, offset).0, path, size, from) == Read(s, path, size, from)
  {
    hide Ok, Write, Covers, Splice, Entry, Content, Read, KeepsTail, Clipped, BytesOf, Complete, Wrote, Resolve;
    WroteFile(s, path, buf, offset);
    var e, s' := Resolve(s, path).value, Write(s, path, buf, offset).0;
    WriteSplicesExactly(s, path, buf, offset);
    WriteStaysComplete(s, path, buf, offset);
    WrittenFile(s, path, buf, offset);
    ReadsClipped(s', path, size, from);
    ReadsClipped(s, path, size, from);
    ClippedSame(e.fsize, offset, |buf|, size, from);
    SpliceSlices(BytesOf(s, e), offset, buf, Clipped(e.fsize, size, from), from);
  }

  lemma WroteFile(s: Fs, path: seq<string>, buf: seq<byte>, offset: nat)
    requires Wrote(s, path, buf, offset)
    ensures Ok(s) && Room(s, buf) && Resolve(s, path).Some? && Resolve(s, path).value.flag == 1
  {
  }

  /** Growing the file from its end does not change how much is read elsewhere. */
  lemma ClippedSame(fsize: nat, offset: nat, n: nat, size: nat, from: nat)
    requires offset <= fsize && (from + size <= offset || offset + n <= from)
    ensures Clipped(Max(fsize, offset + n), size, from) == Clipped(fsize, size, from)
    ensures var r := Clipped(fsize, size, from);
      r > 0 ==> from + r <= fsize && (from + r <= offset || offset + n <= from)
  {
  }

  /** Reading any other file gives what it gave before, whether or not the write kept its own
      file's tail. */
  lemma ReadOther(s: Fs, path: seq<string>, buf: seq<byte>, offset: nat, q: seq<string>, size: nat, from: nat)
    requires Wrote(s, path, buf, offset) && q != path
    requires Resolve(s, q).Some? && Resolve(s, q).value.flag == 1 && Complete(s, Resolve(s, q).value)
    ensures Read(Write(s, path, buf, offset).0, q, size, from) == Read(s, q, size, from)
  {
    hide Ok, Write, Covers, Entry, Content, Read, Resolve, Rewritten, Stored, TreeOf, BytesOf, Clipped, Chain;
    var s' := Write(s, path, buf, offset).0;
    OtherKept(s, path, buf, offset, q);
    NodeBytes(s, q);
    NodeBytes(s', q);
    ReadsClipped(s, q, size, from);
    ReadsClipped(s', q, size, from);
  }

  lemma OtherKept(s: Fs, path: seq<string>, buf: seq<byte>, offset: nat, q: seq<string>)
    requires Wrote(s, path, buf, offset) && q != path && Resolve(s, q).Some? && Resolve(s, q).value.flag == 1
    ensures var s' := Write(s, path, buf, offset).0;
      && Ok(s') && Resolve(s', q) == Resolve(s, q)
      && Chain(s', Resolve(s, q).value.start) == Chain(s, Resolve(s, q).value.start)
      && q in TreeOf(s) && q in TreeOf(s') && TreeOf(s')[q] == TreeOf(s)[q]
  {
    var k, tail, blk' := WroteEffect(s, path, buf, offset);
    hide Ok, Write, Covers, Entry, Content, Resolve, Rewritten, Stored, TreeOf;
    WriteTree(s, Write(s, path, buf, offset).0, path, buf, offset, k, tail, blk');
    NodeBytes(s, q);
  }

  lemma NodeBytes(s: Fs, q: seq<string>)
    requires Resolve(s, q).Some? && Resolve(s, q).value.flag == 1
    ensures q in TreeOf(s) && TreeOf(s)[q] == FileNode(Resolve(s, q).value.fsize, BytesOf(s, Resolve(s, q).value))
  {
  }

  /** The file after such a write, found again by its path. */
  lemma WrittenFile(s: Fs, path: seq<string>, buf: seq<byte>, offset: nat)
    requires Wrote(s, path, buf, offset) && Complete(s, Resolve(s, path).value)
    requires offset <= Resolve(s, path).value.fsize
    requires KeepsTail(s, Resolve(s, path).value, buf, offset) && |BytesOf(s, Resolve(s, path).value)| >= offset
    ensures var e, s' := Resolve(s, path).value, Write(s, path, buf, offset).0;
      && Ok(s') && Resolve(s', path).Some? && Resolve(s', path).value.flag == 1
      && Resolve(s', path).value.fsize == Max(e.fsize, offset + |buf|)
      && BytesOf(s', Resolve(s', path).value) == Splice(BytesOf(s, e), offset, buf)
  {
    var k, tail, blk' := WroteEffect(s, path, buf, offset);
    hide Ok, Write, Covers, Splice, Entry, Content, Rewritten, Stored, Take, KeepsTail;
    var e, s' := Resolve(s, path).value, Write(s, path, buf, offset).0;
    WriteTree(s, s', path, buf, offset, k, tail, blk');
    WriteSplicesExactly(s, path, buf, offset);
    var t := TreeOf(s)[path := FileNode(Max(e.fsize, offset + |buf|), Splice(BytesOf(s, e), offset, buf))];
    assert TreeOf(s') == t;
    assert path in t && t[path] == FileNode(Max(e.fsize, offset + |buf|), Splice(BytesOf(s, e), offset, buf));
    assert TreeOf(s')[path] == NodeOf(s', Resolve(s', path).value);
  }

  lemma SpliceSlices(t: seq<byte>, offset: nat, buf: seq<byte>, size: nat, from: nat)
    requires offset <= |t|
    ensures |Splice(t, offset, buf)| == Max(|t|, offset + |buf|)
    ensures Splice(t, offset, buf)[offset..offset + |buf|] == buf
    ensures from + size <= offset ==> Splice(t, offset, buf)[from..from + size] == t[from..from + size]
    ensures offset + |buf| <= from && from + size <= |t| ==>
        Splice(t, offset, buf)[from..from + size] == t[from..from + size]
  {
  }

  // ---- readdir

  /** The names readdir hands to a filler that always accepts, block by block. */
  function LiveNames(slots: seq<Dirent>): seq<string> {
    if slots == [] then []
    else (if Live(slots[0]) then [slots[0].fname] else []) + LiveNames(slots[1..])
  }

  function NamesIn(blk: seq<Block>, c: seq<int>): seq<string> {
    if c == [] then [] else LiveNames(SlotsAt(blk, c[0])) + NamesIn(blk, c[1..])
  }

  function Listing(s: Fs, d: int): seq<string> {
    [".", ".."] + NamesIn(s.blk, Chain(s, d))
  }

  lemma {:induction false} LiveNamesHas(slots: seq<Dirent>, name: string)
    ensures name in LiveNames(slots) <==> exists k :: 0 <= k < |slots| && Named(slots[k], name)
    decreases |slots|
  {
    if slots != [] {
      LiveNamesHas(slots[1..], name);
      if k :| 0 <= k < |slots| && Named(slots[k], name) {
        assert k > 0 ==> Named(slots[1..][k - 1], name);
      }
      if j :| 0 <= j < |slots[1..]| && Named(slots[1..][j], name) {
        assert Named(slots[j + 1], name);
      }
    }
  }

  lemma {:induction false} LiveNamesOnce(slots: seq<Dirent>, name: string)
    requires forall j, k ::
        0 <= j < |slots| && 0 <= k < |slots| && Named(slots[j], name) && Named(slots[k], name) ==> j == k
    ensures multiset(LiveNames(slots))[name] <= 1
    decreases |slots|
  {
    if slots != [] {
      assert forall j :: 0 <= j < |slots[1..]| ==> slots[1..][j] == slots[j + 1];
      LiveNamesOnce(slots[1..], name);
      if Named(slots[0], name) {
        LiveNamesHas(slots[1..], name);
        assert name !in LiveNames(slots[1..]);
      }
    }
  }

  lemma {:induction false} NamesInHas(blk: seq<Block>, c: seq<int>, name: string)
    ensures name in NamesIn(blk, c) <==> FindIn(blk, c, name).Some?
    decreases |c|
  {
    if c != [] {
      LiveNamesHas(SlotsAt(blk, c[0]), name);
      NamesInHas(blk, c[1..], name);
    }
  }

  lemma UniqueTail(blk: seq<Block>, c: seq<int>)
    requires UniqueIn(blk, c) && c != []
    ensures UniqueIn(blk, c[1..])
  {
    assert forall b :: b in c[1..] ==> b in c;
  }

  /** A name in the first block is in no later one, and only once in the first. */
  lemma OnlyInFirst(blk: seq<Block>, c: seq<int>, name: string, k: nat)
    requires UniqueIn(blk, c) && c != [] && c[0] !in c[1..]
    requires k < |SlotsAt(blk, c[0])| && Named(SlotsAt(blk, c[0])[k], name)
    ensures FindIn(blk, c[1..], name) == None
  {
    hide UniqueIn;
    var r := FindIn(blk, c[1..], name);
    if r.Some? {
      assert r.value.0 in c;
      FindsIt(blk, c, r.value.0, r.value.1);
    }
    FindsIt(blk, c, c[0], k);
  }

  lemma FirstOnce(blk: seq<Block>, c: seq<int>, name: string)
    requires UniqueIn(blk, c) && c != []
    ensures multiset(LiveNames(SlotsAt(blk, c[0])))[name] <= 1
  {
    assert c[0] in c;
    LiveNamesOnce(SlotsAt(blk, c[0]), name);
  }

  lemma {:induction false} NamesInOnce(blk: seq<Block>, c: seq<int>, name: string)
    requires UniqueIn(blk, c) && forall i, j :: 0 <= i < j < |c| ==> c[i] != c[j]
    ensures multiset(NamesIn(blk, c))[name] <= 1
    decreases |c|
  {
    hide UniqueIn;
    if c != [] {
      assert forall i :: 0 <= i < |c[1..]| ==> c[1..][i] == c[i + 1];
      UniqueTail(blk, c);
      NamesInOnce(blk, c[1..], name);
      FirstOnce(blk, c, name);
      NamesInHas(blk, c[1..], name);
      LiveNamesHas(SlotsAt(blk, c[0]), name);
      if k :| 0 <= k < |SlotsAt(blk, c[0])| && Named(SlotsAt(blk, c[0])[k], name) {
        OnlyInFirst(blk, c, name, k);
      }
    }
  }

  /** Under unique names a directory lists a name other than "." and ".." once if opening that
      child succeeds, and not at all if it fails. */
  lemma ListsExactly(s: Fs, path: seq<string>, name: string)
    requires Ok(s) && UniqueNames(s) && Resolve(s, path).Some? && Resolve(s, path).value.flag == 2
    requires name != "." && name != ".."
    ensures multiset(Listing(s, Resolve(s, path).value.start))[name] == if Resolve(s, path + [name]).Some? then 1 else 0
  {
    var d := Resolve(s, path).value.start;
    var c := Chain(s, d);
    ResolveMeans(s, path);
    assert ObjOk(s, d);
    forall i, j | 0 <= i < j < |c| ensures c[i] != c[j] {
      ChainDistinct(s.blk, d, c, i, j);
    }
    assert UniqueIn(s.blk, c);
    hide Ok, UniqueIn, UniqueNames;
    NamesInHas(s.blk, c, name);
    NamesInOnce(s.blk, c, name);
    assert Front(path + [name]) == path && Last(path + [name]) == name;
    assert multiset(Listing(s, d))[name] == multiset([".", ".."])[name] + multiset(NamesIn(s.blk, c))[name];
  }

  // ---- readdir, position by position

  /** Block i of the chain, slot k: an entry in use. */
  predicate LivePlace(blk: seq<Block>, c: seq<int>, p: (int, int)) {
    0 <= p.0 < |c| && 0 <= p.1 < |SlotsAt(blk, c[p.0])| && Live(SlotsAt(blk, c[p.0])[p.1])
  }

  function NameAt(blk: seq<Block>, c: seq<int>, p: (int, int)): string
    requires LivePlace(blk, c, p)
  {
    SlotsAt(blk, c[p.0])[p.1].fname
  }

  predicate Earlier(p: (int, int), q: (int, int)) {
    p.0 < q.0 || (p.0 == q.0 && p.1 < q.1)
  }

  /** The places are those of all entries in use that do not lie before `from`, first block and
      first slot first, and the names are theirs. */
  ghost predicate InOrder(blk: seq<Block>, c: seq<int>, from: (int, int), places: seq<(int, int)>, names: seq<string>) {
    && |names| == |places|
    && (forall i :: 0 <= i < |places| ==> LivePlace(blk, c, places[i]) && names[i] == NameAt(blk, c, places[i]))
    && (forall i, j :: 0 <= i < j < |places| ==> Earlier(places[i], places[j]))
    && (forall p :: p in places <==> LivePlace(blk, c, p) && !Earlier(p, from))
  }

  /** What readdir has still to hand over when it stands in block i of the chain at slot k. */
  function NamesFrom(blk: seq<Block>, c: seq<int>, i: nat, k: nat): seq<string>
    requires i < |c| && k <= |SlotsAt(blk, c[i])|
  {
    LiveNames(SlotsAt(blk, c[i])[k..]) + NamesIn(blk, c[i + 1..])
  }

  lemma {:induction false} PlacesFrom(blk: seq<Block>, c: seq<int>, i: nat, k: nat) returns (places: seq<(int, int)>)
    requires i < |c| && k <= |SlotsAt(blk, c[i])|
    ensures InOrder(blk, c, (i, k), places, NamesFrom(blk, c, i, k))
    decreases |c| - i, |SlotsAt(blk, c[i])| - k
  {
    hide InOrder, NamesFrom;
    var slots := SlotsAt(blk, c[i]);
    if k < |slots| {
      places := PlacesFrom(blk, c, i, k + 1);
      NextSlot(blk, c, i, k);
      if Live(slots[k]) {
        PlaceFirst(blk, c, i, k, places, NamesFrom(blk, c, i, k + 1));
        places := [(i, k)] + places;
      } else {
        PlaceFree(blk, c, i, k, places, NamesFrom(blk, c, i, k + 1));
      }
    } else if i + 1 < |c| {
      places := PlacesFrom(blk, c, i + 1, 0);
      NextBlock(blk, c, i);
      PlaceLater(blk, c, i, places, NamesFrom(blk, c, i + 1, 0));
    } else {
      places := [];
      NoPlace(blk, c, i);
    }
  }

  lemma NextSlot(blk: seq<Block>, c: seq<int>, i: nat, k: nat)
    requires i < |c| && k < |SlotsAt(blk, c[i])|
    ensures var e, names := SlotsAt(blk, c[i])[k], NamesFrom(blk, c, i, k + 1);
      NamesFrom(blk, c, i, k) == if Live(e) then [e.fname] + names else names
  {
    var slots := SlotsAt(blk, c[i]);
    assert slots[k..][0] == slots[k] && slots[k..][1..] == slots[k + 1..];
  }

  lemma NextBlock(blk: seq<Block>, c: seq<int>, i: nat)
    requires i + 1 < |c|
    ensures NamesFrom(blk, c, i, |SlotsAt(blk, c[i])|) == NamesFrom(blk, c, i + 1, 0)
  {
    var slots := SlotsAt(blk, c[i + 1]);
    assert slots[0..] == slots && c[i + 1..][0] == c[i + 1] && c[i + 1..][1..] == c[i + 2..];
    assert LiveNames(SlotsAt(blk, c[i])[|SlotsAt(blk, c[i])|..]) == [];
  }

  lemma PlaceFirst(blk: seq<Block>, c: seq<int>, i: nat, k: nat, places: seq<(int, int)>, names: seq<string>)
    requires LivePlace(blk, c, (i, k)) && InOrder(blk, c, (i, k + 1), places, names)
    ensures InOrder(blk, c, (i, k), [(i, k)] + places, [NameAt(blk, c, (i, k))] + names)
  {
    hide LivePlace;
    var all := [(i, k)] + places;
    forall p ensures p in all <==> LivePlace(blk, c, p) && !Earlier(p, (i, k)) {
      assert p in all <==> p == (i, k) || p in places;
    }
    forall j | 0 <= j < |places| ensures Earlier((i, k), places[j]) {
      assert places[j] in places;
    }
    hide Earlier, NameAt;
    forall j, l | 0 <= j < l < |all| ensures Earlier(all[j], all[l]) {
      assert all[l] == places[l - 1];
    }
    forall j | 0 < j < |all| ensures all[j] == places[j - 1] {
    }
  }

  lemma PlaceFree(blk: seq<Block>, c: seq<int>, i: nat, k: nat, places: seq<(int, int)>, names: seq<string>)
    requires !LivePlace(blk, c, (i, k)) && InOrder(blk, c, (i, k + 1), places, names)
    ensures InOrder(blk, c, (i, k), places, names)
  {
  }

  lemma PlaceLater(blk: seq<Block>, c: seq<int>, i: nat, places: seq<(int, int)>, names: seq<string>)
    requires i + 1 < |c| && InOrder(blk, c, (i + 1, 0), places, names)
    ensures InOrder(blk, c, (i, |SlotsAt(blk, c[i])|), places, names)
  {
  }

  lemma NoPlace(blk: seq<Block>, c: seq<int>, i: nat)
    requires i == |c| - 1
    ensures InOrder(blk, c, (i, |SlotsAt(blk, c[i])|), [], NamesFrom(blk, c, i, |SlotsAt(blk, c[i])|))
  {
    assert NamesFrom(blk, c, i, |SlotsAt(blk, c[i])|) == [];
  }

  /** A lookup stops at the first place of the name. */
  lemma {:induction false} FindIsFirst(blk: seq<Block>, c: seq<int>, name: string)
    ensures match FindIn(blk, c, name)
      case None => forall p :: LivePlace(blk, c, p) ==> NameAt(blk, c, p) != name
      case Some((b, k)) => exists i :: FirstPlace(blk, c, name, (i, k)) && c[i] == b
    decreases |c|
  {
    if c != [] {
      var slots := SlotsAt(blk, c[0]);
      var k := FindSlot(slots, name, 0);
      if k < |slots| {
        assert FirstPlace(blk, c, name, (0, k));
      } else {
        FindIsFirst(blk, c[1..], name);
        if FindIn(blk, c[1..], name).Some? {
          var (b, l) := FindIn(blk, c[1..], name).value;
          var i :| FirstPlace(blk, c[1..], name, (i, l)) && c[1..][i] == b;
          PlaceBehind(blk, c, name, (i, l));
        } else {
          NowhereBehind(blk, c, name);
        }
      }
    }
  }

  ghost predicate FirstPlace(blk: seq<Block>, c: seq<int>, name: string, p: (int, int)) {
    && LivePlace(blk, c, p) && NameAt(blk, c, p) == name
    && forall q :: LivePlace(blk, c, q) && Earlier(q, p) ==> NameAt(blk, c, q) != name
  }

  lemma PlaceBehind(blk: seq<Block>, c: seq<int>, name: string, p: (int, int))
    requires c != [] && FirstPlace(blk, c[1..], name, p)
    requires forall k :: 0 <= k < |SlotsAt(blk, c[0])| ==> !Named(SlotsAt(blk, c[0])[k], name)
    ensures FirstPlace(blk, c, name, (p.0 + 1, p.1)) && c[p.0 + 1] == c[1..][p.0]
  {
    forall q | LivePlace(blk, c, q) && Earlier(q, (p.0 + 1, p.1)) ensures NameAt(blk, c, q) != name {
      if q.0 > 0 {
        assert c[1..][q.0 - 1] == c[q.0];
        assert LivePlace(blk, c[1..], (q.0 - 1, q.1)) && Earlier((q.0 - 1, q.1), p);
      }
    }
  }

  lemma NowhereBehind(blk: seq<Block>, c: seq<int>, name: string)
    requires c != [] && forall p :: LivePlace(blk, c[1..], p) ==> NameAt(blk, c[1..], p) != name
    requires forall k :: 0 <= k < |SlotsAt(blk, c[0])| ==> !Named(SlotsAt(blk, c[0])[k], name)
    ensures forall p :: LivePlace(blk, c, p) ==> NameAt(blk, c, p) != name
  {
    forall p | LivePlace(blk, c, p) ensures NameAt(blk, c, p) != name {
      if p.0 > 0 {
        assert c[1..][p.0 - 1] == c[p.0];
        assert LivePlace(blk, c[1..], (p.0 - 1, p.1));
      }
    }
  }

  /** The entries in use of a directory, by block of its chain and slot. */
  ghost function LivePlaces(s: Fs, d: int): set<(int, int)>
    requires Ok(s)
  {
    set i, k | 0 <= i < |Chain(s, d)| && 0 <= k < SLOTS && LivePlace(s.blk, Chain(s, d), (i, k)) :: (i, k)
  }

  /** On every good disk readdir hands over ".", "..", and then the names of the entries in use,
      all of them, repeated names included, in the order of blocks and slots. */
  lemma ListsInOrder(s: Fs, d: int) returns (places: seq<(int, int)>)
    requires Ok(s) && IsDir(s, d)
    ensures |Listing(s, d)| == 2 + |places| && Listing(s, d)[..2] == [".", ".."]
    ensures InOrder(s.blk, Chain(s, d), (0, 0), places, Listing(s, d)[2..])
    ensures |places| == |LivePlaces(s, d)|
  {
    hide Ok, InOrder;
    var c := Chain(s, d);
    DirBounds(s, d);
    places := PlacesFrom(s.blk, c, 0, 0);
    var slots := SlotsAt(s.blk, c[0]);
    assert slots[0..] == slots && c[0..] == c && NamesFrom(s.blk, c, 0, 0) == NamesIn(s.blk, c);
    assert Listing(s, d)[2..] == NamesIn(s.blk, c);
    PlacesCount(s, d, places, Listing(s, d)[2..]);
  }

  lemma PlacesCount(s: Fs, d: int, places: seq<(int, int)>, names: seq<string>)
    requires Ok(s) && IsDir(s, d) && InOrder(s.blk, Chain(s, d), (0, 0), places, names)
    ensures |names| == |places| == |LivePlaces(s, d)|
  {
    hide Ok, LivePlaces, InOrder;
    AllPlaces(s, d, places, names);
    AsManyAs(places);
  }

  lemma AllPlaces(s: Fs, d: int, places: seq<(int, int)>, names: seq<string>)
    requires Ok(s) && IsDir(s, d) && InOrder(s.blk, Chain(s, d), (0, 0), places, names)
    ensures |names| == |places| && LivePlaces(s, d) == set p | p in places
    ensures forall i, j :: 0 <= i < j < |places| ==> places[i] != places[j]
  {
    hide Ok, NameAt, Live, Chain;
    DirSlots(s, d);
    forall i, j | 0 <= i < j < |places| ensures places[i] != places[j] {
      assert Earlier(places[i], places[j]);
    }
    forall p: (int, int) ensures p in LivePlaces(s, d) <==> LivePlace(s.blk, Chain(s, d), p) {
    }
    forall p ensures p in places <==> LivePlace(s.blk, Chain(s, d), p) {
      assert LivePlace(s.blk, Chain(s, d), p) ==> !Earlier(p, (0, 0));
    }
  }

  lemma DirSlots(s: Fs, d: int)
    requires Ok(s) && IsDir(s, d)
    ensures forall i :: 0 <= i < |Chain(s, d)| ==> |SlotsAt(s.blk, Chain(s, d)[i])| == SLOTS
  {
    forall i | 0 <= i < |Chain(s, d)| ensures |SlotsAt(s.blk, Chain(s, d)[i])| == SLOTS {
      InChain(s, d, Chain(s, d)[i]);
    }
  }

  lemma {:induction false} AsManyAs<T>(q: seq<T>)
    requires forall i, j :: 0 <= i < j < |q| ==> q[i] != q[j]
    ensures |set x | x in q| == |q|
    decreases |q|
  {
    if q != [] {
      AsManyAs(q[1..]);
      assert (set x | x in q) == {q[0]} + set x | x in q[1..];
    }
  }
}
