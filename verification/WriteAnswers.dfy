/** What a write answers and records, on every good disk, and what it does to block sizes. */
module WriteAnswers {
  import opened Paths
  import opened Runs
  import opened Disk
  import opened Tree
  import opened FileData
  import opened Creating
  import opened Removing
  import opened Writing
  import opened Splicing
  import opened Appending
  import opened LaterRuns

  // ---- a write that stays inside its block

  /** It gives back the blocks behind the offset's, all of them and no others, and changes no other
      block but the offset's, which becomes the last. */
  lemma WriteCutsOff(s: Fs, o: int, buf: seq<byte>, offset: nat)
    requires Ok(s) && o in s.objs && Room(s, buf)
    requires offset / CAP < |Chain(s, o)| && Surplus(offset % CAP, buf) == []
    ensures var q, c, k := WriteDisk(s, o, buf, offset), Chain(s, o), offset / CAP;
      && q.2 == 0 && q.1 == s.used - SetOf(c[k + 1..]) && 0 <= c[k] < |s.blk| && WfBlock(s.blk[c[k]])
      && q.0[c[k]] == Patched(s.blk[c[k]], offset % CAP, buf).(next := -1)
      && forall x :: 0 <= x < |s.blk| && x != c[k] ==> q.0[x] == s.blk[x]
  {
    InChain(s, o, Chain(s, o)[offset / CAP]);
    AllWf(s);
    hide Ok, Patched;
  }

  lemma WriteNowhere(s: Fs, o: int, buf: seq<byte>, offset: nat)
    requires Ok(s) && o in s.objs && Room(s, buf) && offset / CAP >= |Chain(s, o)|
    ensures WriteDisk(s, o, buf, offset) == (s.blk, s.used, -1)
  {
  }

  // ---- answers

  /** The write reaches behind the chain, or the blocks it could mark hold less than the bytes that
      do not fit its first block. */
  ghost predicate Fails(s: Fs, used': set<int>, o: int, buf: seq<byte>, offset: nat) {
    var rest := Surplus(offset % CAP, buf);
    offset / CAP >= |Chain(s, o)| || (rest != [] && CAP * |used' - s.used| < |rest|)
  }

  lemma DiskFails(s: Fs, o: int, buf: seq<byte>, offset: nat)
    requires Ok(s) && o in s.objs && !s.objs[o].isDir && Room(s, buf)
    ensures var q := WriteDisk(s, o, buf, offset); q.2 == if Fails(s, q.1, o, buf, offset) then -1 else 0
  {
    hide Ok, WriteDisk, Surplus, Lays, Patched;
    if offset / CAP >= |Chain(s, o)| {
      WriteNowhere(s, o, buf, offset);
    } else if Surplus(offset % CAP, buf) == [] {
      WriteCutsOff(s, o, buf, offset);
    } else {
      var d := WriteLays(s, o, buf, offset);
    }
  }

  /** On every good disk a write to a file answers -1 exactly when it fails so, and then the file's
      entry is as it was; otherwise it answers the number of bytes, and the entry records where the
      file now ends, or ended before if that is further. */
  lemma WriteRecords(s: Fs, path: seq<string>, buf: seq<byte>, offset: nat)
    requires Ok(s) && Room(s, buf) && path != []
    ensures Resolve(s, path) == None ==> Write(s, path, buf, offset) == (s, -ENOENT)
    ensures Resolve(s, path).Some? && Resolve(s, path).value.flag == 1 ==>
      var e, (s', r) := Resolve(s, path).value, Write(s, path, buf, offset);
      var failed := Fails(s, s'.used, e.start, buf, offset);
      && r == (if failed then -1 else |buf|)
      && e.start in s.ref
      && var (b, j) := s.ref[e.start];
         && 0 <= j < |SlotsAt(s.blk, b)| && SlotsAt(s.blk, b)[j] == e
         && SlotsAt(s'.blk, b)
            == SlotsAt(s.blk, b)[j := if failed then e else e.(fsize := Max(e.fsize, offset + |buf|))]
  {
    hide Ok, Write, Fails, At, SlotsAt;
    if Resolve(s, path) == None {
      NoEntry(s, path, buf, offset);
    } else if Resolve(s, path).value.flag == 1 {
      ResolveMeans(s, path);
      RemoveAt(s, path);
      var o, d := Resolve(s, path).value.start, Resolve(s, Front(path)).value.start;
      EntryBlock(s, o, d, s.ref[o].0, s.ref[o].1);
      EntryRecords(s, path, buf, offset, d);
    }
  }

  lemma NoEntry(s: Fs, path: seq<string>, buf: seq<byte>, offset: nat)
    requires Ok(s) && Room(s, buf) && Resolve(s, path) == None
    ensures Write(s, path, buf, offset) == (s, -ENOENT)
  {
    hide Ok, WriteDisk, Resolve;
  }

  /** The same, with the entry's place found. */
  lemma EntryRecords(s: Fs, path: seq<string>, buf: seq<byte>, offset: nat, d: int)
    requires Ok(s) && Room(s, buf) && Resolve(s, path).Some?
    requires var o := Resolve(s, path).value.start;
      && o in s.objs && !s.objs[o].isDir && o in s.ref && IsDir(s, d) && s.ref[o].0 in Chain(s, d)
      && 0 <= s.ref[o].0 < |s.blk| && 0 <= s.ref[o].1 < |SlotsAt(s.blk, s.ref[o].0)|
      && SlotsAt(s.blk, s.ref[o].0)[s.ref[o].1] == Resolve(s, path).value
    ensures var e, (s', r) := Resolve(s, path).value, Write(s, path, buf, offset);
      var failed, (b, j) := Fails(s, s'.used, e.start, buf, offset), s.ref[e.start];
      && r == (if failed then -1 else |buf|)
      && SlotsAt(s'.blk, b) == SlotsAt(s.blk, b)[j := if failed then e else e.(fsize := Max(e.fsize, offset + |buf|))]
  {
    hide Ok, WriteDisk, Fails, Relink, SetSize, Resolve;
    var e := Resolve(s, path).value;
    var (b, j) := s.ref[e.start];
    DiskFails(s, e.start, buf, offset);
    WriteKeepsDirs(s, e.start, buf, offset, d, b);
    var q := WriteDisk(s, e.start, buf, offset);
    if q.2 >= 0 {
      NotNowhere(s, e.start, buf, offset);
      var (start, m) := Added(s, offset % CAP, buf);
      var s1 := Relink(s, e.start, offset / CAP, start, m, q.0, q.1);
      RelinkShape(s, e.start, offset / CAP, start, m, q.0, q.1);
      Resized(s1, b, j, offset + |buf|);
    }
  }

  /** A write that fits the block it starts in gives back exactly the blocks behind that one. */
  lemma WriteFrees(s: Fs, path: seq<string>, buf: seq<byte>, offset: nat)
    requires Ok(s) && Room(s, buf) && Resolve(s, path).Some? && Surplus(offset % CAP, buf) == []
    requires offset / CAP < |Chain(s, Resolve(s, path).value.start)|
    ensures var (s', r) := Write(s, path, buf, offset);
      r == |buf| && s'.used == s.used - SetOf(Chain(s, Resolve(s, path).value.start)[offset / CAP + 1..])
  {
    hide Ok, WriteDisk, Relink, SetSize, Patched, Surplus;
    ResolveMeans(s, path);
    var o := Resolve(s, path).value.start;
    WriteCutsOff(s, o, buf, offset);
    var q := WriteDisk(s, o, buf, offset);
    var (start, m) := Added(s, offset % CAP, buf);
    RelinkShape(s, o, offset / CAP, start, m, q.0, q.1);
    if o in s.ref {
      SameUsed(Relink(s, o, offset / CAP, start, m, q.0, q.1), s.ref[o].0, s.ref[o].1, offset + |buf|);
    }
  }

  lemma SameUsed(s: Fs, b: int, j: int, size: nat)
    ensures SetSize(s, b, j, size).used == s.used
  {
  }

  lemma EntryBlock(s: Fs, o: int, d: int, b: int, j: int)
    requires Ok(s) && At(s, o, d, b, j)
    ensures b in Chain(s, d) && 0 <= b < |s.blk| && 0 <= j < |SlotsAt(s.blk, b)|
  {
    InChain(s, d, b);
  }

  /** A write that reaches behind the chain, or finds no start free for what does not fit, changes
      nothing. */
  lemma WriteNothing(s: Fs, path: seq<string>, buf: seq<byte>, offset: nat)
    requires Ok(s) && Room(s, buf) && Resolve(s, path).Some?
    requires offset / CAP >= |Chain(s, Resolve(s, path).value.start)|
          || (Surplus(offset % CAP, buf) != [] && DiskFull(s))
    ensures Write(s, path, buf, offset) == (s, -1)
  {
    hide Ok, AppendRuns, FirstRun, Surplus;
    ResolveMeans(s, path);
    NoneFound(s, offset % CAP, buf);
  }

  lemma NoneFound(s: Fs, off: nat, buf: seq<byte>)
    ensures DiskFull(s) ==> FirstRun(s, off, buf).len < 1
  {
    if DiskFull(s) {
      BestMeans(s.used, FIRST, s.max - 1, Asked(|Surplus(off, buf)|));
    }
  }

  lemma NotNowhere(s: Fs, o: int, buf: seq<byte>, offset: nat)
    requires Ok(s) && o in s.objs && Room(s, buf) && WriteDisk(s, o, buf, offset).2 >= 0
    ensures offset / CAP < |Chain(s, o)|
  {
    hide Ok, AppendRuns;
  }

  lemma Resized(s: Fs, b: int, j: int, size: nat)
    requires 0 <= b < |s.blk| && 0 <= j < |SlotsAt(s.blk, b)|
    ensures var s' := SetSize(s, b, j, size);
      s'.used == s.used && SlotsAt(s'.blk, b) == SlotsAt(s.blk, b)[j := SlotsAt(s.blk, b)[j].(fsize := size)]
  {
    hide WithNumbers;
  }

  // ---- block sizes

  /** Every block's size is the number of the file's bytes in it. */
  ghost predicate Sized(blk: seq<Block>, c: seq<int>, fsize: nat) {
    forall i :: 0 <= i < |c| ==> 0 <= c[i] < |blk| && blk[c[i]].size == Min(CAP, fsize - CAP * i)
  }

  /** As written, a write adds what it puts into the offset's block to that block's size, also where
      it replaces bytes: the sizes of a complete file stay right exactly when nothing is written or
      the write starts at the end of the file. */
  lemma SizesExactly(s: Fs, path: seq<string>, buf: seq<byte>, offset: nat)
    requires Wrote(s, path, buf, offset) && offset <= Resolve(s, path).value.fsize
    requires var e := Resolve(s, path).value; Complete(s, e) && Sized(s.blk, Chain(s, e.start), e.fsize)
    ensures var e, s' := Resolve(s, path).value, Write(s, path, buf, offset).0;
      Sized(s'.blk, Chain(s', e.start), Max(e.fsize, offset + |buf|)) <==> buf == [] || offset == e.fsize
  {
    hide Ok, Write, Complete, WriteDisk, Planned, Sized, Relink, SetSize, Resolve, Extends, At;
    var o, k, off, start, m, blk', used' := WroteParts(s, path, buf, offset);
    var e, s' := Resolve(s, path).value, Write(s, path, buf, offset).0;
    var c, c' := Chain(s, o), Chain(s, o)[..k + 1] + RunSeq(start, m);
    WroteSizes(s, path, buf, offset, o, k, off, start, m, blk', used');
    PlannedSizes(s, o, buf, offset, k, off, start, m, blk', used');
    CompleteLong(s, e);
    SizedExactly(s.blk, blk', c, k, off, m, e.fsize, buf, offset, c');
    SizedFrame(blk', s'.blk, c', Max(e.fsize, offset + |buf|));
  }

  lemma CompleteLong(s: Fs, e: Dirent)
    requires Complete(s, e)
    ensures CAP * (|Chain(s, e.start)| - 1) <= e.fsize <= CAP * |Chain(s, e.start)|
  {
    CeilStep(e.fsize);
  }

  lemma SizedFrame(blk: seq<Block>, blk': seq<Block>, c: seq<int>, fsize: nat)
    requires |blk'| == |blk| && forall i :: 0 <= i < |c| ==> 0 <= c[i] < |blk| && blk'[c[i]].size == blk[c[i]].size
    ensures Sized(blk', c, fsize) <==> Sized(blk, c, fsize)
  {
  }

  /** The sizes after a write: those before the offset's block as they were, the offset's grown by
      what was put into it, those behind it the pieces'. */
  ghost predicate Grown(blk: seq<Block>, blk': seq<Block>, c: seq<int>, k: nat, off: nat, m: nat, buf: seq<byte>,
                        c': seq<int>) {
    && k < |c| && |c'| == k + 1 + m && c'[..k + 1] == c[..k + 1] && |blk'| == |blk|
    && (forall i :: 0 <= i < |c'| ==> 0 <= c'[i] < |blk|)
    && (forall i :: 0 <= i < k ==> blk'[c[i]].size == blk[c[i]].size)
    && blk'[c[k]].size == blk[c[k]].size + Min(CAP - off, |buf|)
    && forall i :: 0 <= i < m ==> blk'[c'[k + 1 + i]].size == |Piece(Surplus(off, buf), i)|
  }

  lemma SizedExactly(blk: seq<Block>, blk': seq<Block>, c: seq<int>, k: nat, off: nat, m: nat, fsize: nat,
                     buf: seq<byte>, offset: nat, c': seq<int>)
    requires Grown(blk, blk', c, k, off, m, buf, c') && Sized(blk, c, fsize)
    requires offset == CAP * k + off && off < CAP && offset <= fsize && m == Ceil(|Surplus(off, buf)|)
    requires CAP * (|c| - 1) <= fsize <= CAP * |c|
    ensures Sized(blk', c', Max(fsize, offset + |buf|)) <==> buf == [] || offset == fsize
  {
    hide Ceil, Surplus;
    var end, rest := Max(fsize, offset + |buf|), Surplus(off, buf);
    SurplusLength(off, buf);
    assert c'[k] == c'[..k + 1][k] == c[k];
    assert blk[c[k]].size == Min(CAP, fsize - CAP * k);
    if buf == [] || offset == fsize {
      CeilStep(|rest|);
      forall i | 0 <= i < |c'| ensures blk'[c'[i]].size == Min(CAP, end - CAP * i) {
        if i <= k {
          assert c'[i] == c'[..k + 1][i] == c[i];
          assert blk[c[i]].size == Min(CAP, fsize - CAP * i);
        } else {
          assert blk'[c'[k + 1 + (i - k - 1)]].size == |Piece(rest, i - k - 1)|;
          PieceLength(rest, i - k - 1);
        }
      }
    }
  }

  lemma SurplusLength(off: nat, buf: seq<byte>)
    requires off < CAP
    ensures |Surplus(off, buf)| == |buf| - Min(CAP - off, |buf|)
  {
  }

  lemma PieceLength(buf: seq<byte>, i: nat)
    ensures |Piece(buf, i)| == if |buf| <= CAP * i then 0 else Min(CAP, |buf| - CAP * i)
  {
  }

  lemma PlannedSizes(s: Fs, o: int, buf: seq<byte>, offset: nat,
                     k: nat, off: nat, start: int, m: nat, blk': seq<Block>, used': set<int>)
    requires Planned(s, o, buf, offset, k, off, start, m, blk', used') && k < |Chain(s, o)|
    ensures offset == CAP * k + off && off < CAP && m == Ceil(|Surplus(off, buf)|)
    ensures Grown(s.blk, blk', Chain(s, o), k, off, m, buf, Chain(s, o)[..k + 1] + RunSeq(start, m))
  {
    hide Ok, WriteDisk, Patched, Lays, Surplus, FirstRun, Ceil, Grown;
    var c, rest := Chain(s, o), Surplus(off, buf);
    ChainApartAt(s, o, k);
    PatchedSize(s.blk[c[k]], off, buf);
    CeilStep(|rest|);
    if rest == [] {
      WriteCutsOff(s, o, buf, offset);
      assert RunSeq(start, 0) == [];
      GrownBy(s.blk, blk', c, k, off, buf, [], start, m);
    } else {
      var d := WriteLays(s, o, buf, offset);
      LaysSizes(blk', Patched(s.blk[c[k]], off, buf).data, rest, d);
      assert m <= FirstRun(s, off, buf).len;
      assert d[..FirstRun(s, off, buf).len][..m] == RunSeq(start, m) == d[..m];
      GrownBy(s.blk, blk', c, k, off, buf, d, start, m);
    }
  }

  lemma GrownBy(blk: seq<Block>, blk': seq<Block>, c: seq<int>, k: nat, off: nat, buf: seq<byte>, d: seq<int>,
                start: int, m: nat)
    requires k < |c| && |blk'| == |blk| && m <= |d| && d[..m] == RunSeq(start, m)
    requires (forall i :: 0 <= i < |c| ==> 0 <= c[i] < |blk| && c[i] !in d && (i != k ==> c[i] != c[k]))
    requires forall x :: 0 <= x < |blk| && x !in d && x != c[k] ==> blk'[x] == blk[x]
    requires blk'[c[k]].size == blk[c[k]].size + Min(CAP - off, |buf|)
    requires forall i :: 0 <= i < |d| ==> 0 <= d[i] < |blk| && blk'[d[i]].size == |Piece(Surplus(off, buf), i)|
    ensures Grown(blk, blk', c, k, off, m, buf, c[..k + 1] + RunSeq(start, m))
  {
    hide Surplus;
    var c' := c[..k + 1] + RunSeq(start, m);
    forall i | 0 <= i < m ensures c'[k + 1 + i] == d[i] {
      assert d[..m][i] == d[i];
    }
  }

  lemma PatchedSize(b: Block, off: nat, buf: seq<byte>)
    requires WfBlock(b) && off < CAP
    ensures forall n :: Patched(b, off, buf).(next := n).size == b.size + Min(CAP - off, |buf|)
  {
    hide Entries;
  }

  lemma LaysSizes(blk: seq<Block>, before: seq<byte>, buf: seq<byte>, d: seq<int>)
    requires Lays(blk, before, buf, d)
    ensures forall i :: 0 <= i < |d| ==> 0 <= d[i] < |blk| && blk[d[i]].size == |Piece(buf, i)|
  {
    hide Entries;
  }

  /** A file's blocks are in use, and different. */
  lemma ChainApartAt(s: Fs, o: int, k: nat)
    requires Ok(s) && o in s.objs && !s.objs[o].isDir && k < |Chain(s, o)|
    ensures var c := Chain(s, o);
      && (forall i :: 0 <= i < |c| ==> 0 <= c[i] < |s.blk| && WfBlock(s.blk[c[i]]) && c[i] in s.used)
      && forall i :: 0 <= i < |c| && i != k ==> c[i] != c[k]
  {
    var c := Chain(s, o);
    assert ObjOk(s, o);
    hide Ok;
    forall i | 0 <= i < |c|
      ensures 0 <= c[i] < |s.blk| && WfBlock(s.blk[c[i]]) && c[i] in s.used && (i != k ==> c[i] != c[k])
    {
      FileBlock(s, o, c[i]);
      if i < k {
        ChainDistinct(s.blk, o, c, i, k);
      } else if i > k {
        ChainDistinct(s.blk, o, c, k, i);
      }
    }
  }

  /** The entry's new size is recorded in a directory's block, not in one of the file's. */
  lemma WroteSizes(s: Fs, path: seq<string>, buf: seq<byte>, offset: nat, o: int,
                   k: nat, off: nat, start: int, m: nat, blk': seq<Block>, used': set<int>)
    requires Wrote(s, path, buf, offset) && o == Resolve(s, path).value.start && o in s.objs && o in s.ref
    requires Planned(s, o, buf, offset, k, off, start, m, blk', used') && k < |Chain(s, o)|
    requires var e, s1 := Resolve(s, path).value, Relink(s, o, k, start, m, blk', used');
      Write(s, path, buf, offset)
      == (if e.fsize < offset + |buf| then SetSize(s1, s.ref[o].0, s.ref[o].1, offset + |buf|) else s1, |buf|)
    ensures var s' := Write(s, path, buf, offset).0;
      && Chain(s', o) == Chain(s, o)[..k + 1] + RunSeq(start, m) && |s'.blk| == |blk'|
      && forall x :: 0 <= x < |blk'| ==> s'.blk[x].size == blk'[x].size
  {
    hide Ok, WriteDisk, Relink, SetSize, Planned, Write;
    RelinkShape(s, o, k, start, m, blk', used');
    SameSizes(Relink(s, o, k, start, m, blk', used'), s.ref[o].0, s.ref[o].1, offset + |buf|);
  }

  lemma SameSizes(s: Fs, b: int, j: int, size: nat)
    ensures var s' := SetSize(s, b, j, size);
      s'.objs == s.objs && |s'.blk| == |s.blk| && forall x :: 0 <= x < |s.blk| ==> s'.blk[x].size == s.blk[x].size
  {
    hide WithNumbers;
  }
}
