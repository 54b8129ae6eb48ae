/** What a write does to the tree: the file spliced, everything else as it was, and exactly
    when. */
module Splicing {
  import opened Paths
  import opened Runs
  import opened Disk
  import opened Tree
  import opened FileData
  import opened Creating
  import opened Writing

  // ---- the contents

  /** A file has exactly the blocks its size needs, and one if it is empty. */
  predicate Complete(s: Fs, e: Dirent) {
    |Chain(s, e.start)| == Max(1, Ceil(e.fsize))
  }

  function BytesOf(s: Fs, e: Dirent): seq<byte> {
    Take(Content(s.blk, Chain(s, e.start)), e.fsize)
  }

  /** The chain's payload after a write at offset in block k that added m blocks: old bytes,
      then the buffer, and behind it either what was there or, in a new last block, what the
      reused buffer held one block earlier. */
  ghost predicate Stored(t0: seq<byte>, t: seq<byte>, k: nat, m: nat, offset: nat, buf: seq<byte>) {
    && CAP * k <= offset < CAP * (k + 1) <= |t0| && |t| == CAP * (k + 1 + m)
    && CAP * (k + m) <= offset + |buf| <= |t| && (m > 0 ==> CAP * (k + m) < offset + |buf|)
    && t[..offset] == t0[..offset] && t[offset..offset + |buf|] == buf
    && (m == 0 ==> forall p :: offset + |buf| <= p < |t| ==> t[p] == t0[p])
    && (m > 0 ==> forall p :: offset + |buf| <= p < |t| ==> t[p] == t[p - CAP])
  }

  lemma StoredInBlock(pre: seq<byte>, data: seq<byte>, post: seq<byte>, off: nat, buf: seq<byte>, k: nat)
    requires |pre| == CAP * k && |data| == CAP && off + |buf| <= CAP && off < CAP
    ensures Stored(pre + data + post, pre + Overlay(data, off, buf), k, 0, CAP * k + off, buf)
  {
    var t0, t := pre + data + post, pre + Overlay(data, off, buf);
    assert t[..CAP * k + off] == t0[..CAP * k + off];
  }

  lemma StoredInRun(pre: seq<byte>, data: seq<byte>, post: seq<byte>, off: nat, buf: seq<byte>, k: nat, u: seq<byte>)
    requires |pre| == CAP * k && |data| == CAP && off < CAP < off + |buf|
    requires Holds(u, Overlay(data, off, buf[..CAP - off]), buf[CAP - off..])
    ensures Stored(pre + data + post, pre + Overlay(data, off, buf[..CAP - off]) + u, k, Ceil(|buf| - (CAP - off)),
        CAP * k + off, buf)
  {
    var mid, rest, offset := Overlay(data, off, buf[..CAP - off]), buf[CAP - off..], CAP * k + off;
    var t0, t := pre + data + post, pre + mid + u;
    CeilStep(|rest|);
    assert t[..offset] == t0[..offset];
    assert t[offset..offset + |buf|] == buf[..CAP - off] + u[..|rest|] == buf;
    forall p | offset + |buf| <= p < |t| ensures t[p] == t[p - CAP] {
      var q := p - CAP * (k + 1);
      assert u[q] == (mid + u)[q];
    }
  }

  /** The payload before block k, and the whole payload, around a write. */
  lemma StoresParts(blk: seq<Block>, blk': seq<Block>, c: seq<int>, k: nat, tail: seq<int>)
    requires k < |c| && (forall x :: x in c ==> |DataAt(blk, x)| == CAP)
    requires forall x :: x in c[..k] ==> DataAt(blk', x) == DataAt(blk, x)
    ensures Content(blk, c) == Content(blk, c[..k]) + DataAt(blk, c[k]) + Content(blk, c[k + 1..])
    ensures Content(blk', c[..k + 1] + tail) == Content(blk, c[..k]) + DataAt(blk', c[k]) + Content(blk', tail)
    ensures |Content(blk, c[..k])| == CAP * k
  {
    hide DataAt;
    ContentFrame(blk, blk', c[..k]);
    ContentAt(blk, c, k);
    ContentLength(blk, c[..k]);
    ContentAppend(blk', c[..k + 1], tail);
    ContentAt(blk', c, k);
  }

  lemma StoredPieces(pre: seq<byte>, data: seq<byte>, post: seq<byte>, off: nat, buf: seq<byte>, k: nat, u: seq<byte>,
                     m: nat)
    requires |pre| == CAP * k && |data| == CAP && off < CAP && m == Ceil(|Surplus(off, buf)|)
    requires if Surplus(off, buf) == [] then u == []
        else Holds(u, Overlay(data, off, buf[..Min(CAP - off, |buf|)]), Surplus(off, buf))
    ensures Stored(pre + data + post, pre + Overlay(data, off, buf[..Min(CAP - off, |buf|)]) + u, k, m,
        CAP * k + off, buf)
  {
    hide Stored, Holds, Overlay, Ceil;
    CeilStep(|Surplus(off, buf)|);
    if off + |buf| <= CAP {
      assert buf[..Min(CAP - off, |buf|)] == buf && Surplus(off, buf) == [];
      var mid := Overlay(data, off, buf);
      assert pre + mid + u == pre + mid;
      StoredInBlock(pre, data, post, off, buf, k);
    } else {
      StoredInRun(pre, data, post, off, buf, k, u);
    }
  }

  lemma StoresOn(blk: seq<Block>, blk': seq<Block>, c: seq<int>, k: nat, off: nat, buf: seq<byte>, tail: seq<int>)
    requires k < |c| && off < CAP && (forall x :: x in c ==> |DataAt(blk, x)| == CAP)
    requires forall x :: x in c[..k] ==> DataAt(blk', x) == DataAt(blk, x)
    requires DataAt(blk', c[k]) == Overlay(DataAt(blk, c[k]), off, buf[..Min(CAP - off, |buf|)])
    requires |tail| == Ceil(|Surplus(off, buf)|)
    requires Surplus(off, buf) != [] ==> Holds(Content(blk', tail), DataAt(blk', c[k]), Surplus(off, buf))
    ensures Stored(Content(blk, c), Content(blk', c[..k + 1] + tail), k, |tail|, CAP * k + off, buf)
  {
    NoTail(blk', tail);
    hide Stored, Holds, DataAt, Ceil, Overlay, Content, Surplus;
    StoresParts(blk, blk', c, k, tail);
    assert c[k] in c;
    StoredPieces(Content(blk, c[..k]), DataAt(blk, c[k]), Content(blk, c[k + 1..]), off, buf, k, Content(blk', tail),
      |tail|);
  }

  lemma NoTail(blk: seq<Block>, tail: seq<int>)
    ensures |tail| == Ceil(0) ==> Content(blk, tail) == []
  {
    CeilStep(0);
  }

  lemma WriteStores(s: Fs, o: int, buf: seq<byte>, offset: nat,
                    k: nat, off: nat, start: int, m: nat, blk': seq<Block>, used': set<int>)
    requires Planned(s, o, buf, offset, k, off, start, m, blk', used')
    ensures k < |Chain(s, o)|
    ensures Stored(Content(s.blk, Chain(s, o)), Content(blk', Chain(s, o)[..k + 1] + RunSeq(start, m)), k, m, offset,
        buf)
  {
    hide Ok, WriteDisk, Stored, Holds, Ceil, FirstRun, DataAt, Overlay, IsChain, ExtendsUsed;
    WriteExtends(s, o, buf, offset, k, off, start, m, blk', used');
    WriteBlockK(s, o, buf, offset, k, off, start, m, blk', used');
    ChainData(s, o, k, blk');
    StoresOn(s.blk, blk', Chain(s, o), k, off, buf, RunSeq(start, m));
  }

  lemma ChainData(s: Fs, o: int, k: nat, blk': seq<Block>)
    requires Ok(s) && o in s.objs && k < |Chain(s, o)| && |blk'| == |s.blk|
    requires forall x :: x in s.home && x != Chain(s, o)[k] ==> 0 <= x < |s.blk| && blk'[x] == s.blk[x]
    ensures var c := Chain(s, o);
      && (forall x :: x in c ==> |DataAt(s.blk, x)| == CAP)
      && (forall x :: x in c[..k] ==> DataAt(blk', x) == DataAt(s.blk, x))
      && DataAt(s.blk, c[k]) == s.blk[c[k]].data && DataAt(blk', c[k]) == blk'[c[k]].data
  {
    ChainHomes(s, o, k);
    AllWf(s);
    hide Ok, IsChain;
    var c := Chain(s, o);
    forall x | x in c[..k] ensures DataAt(blk', x) == DataAt(s.blk, x) {
      var i :| 0 <= i < k && c[i] == x;
    }
  }

  /** What the write leaves in the offset's block and in the run. */
  lemma WriteBlockK(s: Fs, o: int, buf: seq<byte>, offset: nat,
                    k: nat, off: nat, start: int, m: nat, blk': seq<Block>, used': set<int>)
    requires Planned(s, o, buf, offset, k, off, start, m, blk', used')
    ensures var c := Chain(s, o);
      && k < |c| && 0 <= c[k] < |s.blk| && |s.blk[c[k]].data| == CAP
      && blk'[c[k]].data == Overlay(s.blk[c[k]].data, off, buf[..Min(CAP - off, |buf|)])
      && (Surplus(off, buf) != [] ==> Holds(Content(blk', RunSeq(start, m)), blk'[c[k]].data, Surplus(off, buf)))
  {
    var c := Chain(s, o);
    InChain(s, o, c[k]);
    AllWf(s);
    hide Ok, Holds;
    var b, rest, r := Patched(s.blk[c[k]], off, buf), Surplus(off, buf), FirstRun(s, off, buf);
    if rest != [] {
      RunBounds(s, off, buf);
      var b' := b.(next := r.start);
      var blk1 := s.blk[c[k] := b'];
      OneRun(blk1, s.used + Blocks(r.start, r.len), s.max, b', rest, r);
      FillRunContent(blk1, b', rest, r.start, r.len);
      FillRunAt(blk1, b', rest, r.start, r.len, c[k]);
    }
  }

  // ---- exactly when the write is a splice

  /** On a file of n blocks holding the bytes t, a write keeps everything behind the bytes it
      replaces: it starts in the last block, or reaches the end of the file, or ends in the
      last block where the file repeats, from there on, what the spliced file holds one block
      earlier. */
  ghost predicate TailKept(t: seq<byte>, n: nat, offset: nat, buf: seq<byte>) {
    var k, fin := offset / CAP, offset + |buf|;
    || k + 1 == n
    || |t| <= fin
    || (CAP * (k + 1) < fin && Ceil(fin) == n
        && forall p :: fin <= p < |t| ==> t[p] == Splice(t, offset, buf)[p - CAP])
  }

  ghost predicate KeepsTail(s: Fs, e: Dirent, buf: seq<byte>, offset: nat) {
    TailKept(BytesOf(s, e), |Chain(s, e.start)|, offset, buf)
  }

  /** On bytes alone: a chain of n blocks holding t0, of which fsize bytes count, turns into
      one holding t. */
  lemma SpliceExactly(t0: seq<byte>, t: seq<byte>, n: nat, fsize: nat, k: nat, m: nat, offset: nat, buf: seq<byte>)
    requires Stored(t0, t, k, m, offset, buf) && |t0| == CAP * n && n == Max(1, Ceil(fsize)) && offset <= fsize <= |t0|
    ensures Take(t, Max(fsize, offset + |buf|)) == Splice(t0[..fsize], offset, buf)
        <==> TailKept(t0[..fsize], n, offset, buf)
    ensures TailKept(t0[..fsize], n, offset, buf) ==> k + 1 + m == Max(1, Ceil(Max(fsize, offset + |buf|)))
  {
    SpliceOrNot(t0, t, n, fsize, k, m, offset, buf);
    CeilStep(fsize);
    CeilStep(offset + |buf|);
    hide Splice, Take;
  }

  lemma SpliceOrNot(t0: seq<byte>, t: seq<byte>, n: nat, fsize: nat, k: nat, m: nat, offset: nat, buf: seq<byte>)
    requires Stored(t0, t, k, m, offset, buf) && |t0| == CAP * n && n == Max(1, Ceil(fsize)) && offset <= fsize <= |t0|
    ensures Take(t, Max(fsize, offset + |buf|)) == Splice(t0[..fsize], offset, buf)
        <==> TailKept(t0[..fsize], n, offset, buf)
  {
    var fin := offset + |buf|;
    CeilStep(fsize);
    if fsize <= fin || k + 1 == n {
      SpliceAll(t0, t, n, fsize, k, m, offset, buf);
      hide Splice, Take, Ceil;
    } else {
      SpliceInside(t0, t, n, fsize, k, m, offset, buf);
    }
  }

  /** A write that reaches the end of the file, or starts in its last block. */
  lemma SpliceAll(t0: seq<byte>, t: seq<byte>, n: nat, fsize: nat, k: nat, m: nat, offset: nat, buf: seq<byte>)
    requires Stored(t0, t, k, m, offset, buf) && |t0| == CAP * n && offset <= fsize <= |t0|
    requires (fsize <= offset + |buf| || k + 1 == n)
    ensures Take(t, Max(fsize, offset + |buf|)) == Splice(t0[..fsize], offset, buf)
  {
    var fin := offset + |buf|;
    var u, v := Take(t, Max(fsize, fin)), Splice(t0[..fsize], offset, buf);
    SpliceFront(t0, t, k, m, fsize, offset, buf);
    hide Splice;
    assert fsize > fin ==> m == 0;
    forall p | 0 <= p < Max(fsize, fin) ensures u[p] == v[p] {
      assert p >= fin ==> t[p] == t0[p];
    }
    assert u == v;
  }

  /** A write that ends inside the file and starts before its last block. */
  lemma SpliceInside(t0: seq<byte>, t: seq<byte>, n: nat, fsize: nat, k: nat, m: nat, offset: nat, buf: seq<byte>)
    requires Stored(t0, t, k, m, offset, buf) && |t0| == CAP * n && n == Max(1, Ceil(fsize)) && offset <= fsize <= |t0|
    requires offset + |buf| < fsize && k + 1 != n
    ensures Take(t, fsize) == Splice(t0[..fsize], offset, buf) <==> TailKept(t0[..fsize], n, offset, buf)
  {
    var t1, fin := t0[..fsize], offset + |buf|;
    var u, v := Take(t, fsize), Splice(t1, offset, buf);
    SpliceFront(t0, t, k, m, fsize, offset, buf);
    CeilStep(fsize);
    CeilStep(fin);
    hide Ceil, Splice;
    if m == 0 {
      assert |t| < fsize;
    } else if u == v {
      forall p | fin <= p < fsize ensures t1[p] == v[p - CAP] {
        assert v[p] == u[p] == t[p] && t[p] == t[p - CAP] == u[p - CAP];
      }
    } else if CAP * (k + 1) < fin && Ceil(fin) == n {
      var p :| fin <= p < fsize && u[p] != v[p];
      assert u[p] == t[p - CAP] == v[p - CAP];
    }
  }

  /** Up to the end of the replaced bytes the result is the splice; behind it the splice is
      the old file. */
  lemma SpliceFront(t0: seq<byte>, t: seq<byte>, k: nat, m: nat, fsize: nat, offset: nat, buf: seq<byte>)
    requires Stored(t0, t, k, m, offset, buf) && offset <= fsize <= |t0|
    ensures var v := Splice(t0[..fsize], offset, buf);
      && |v| == Max(fsize, offset + |buf|)
      && (forall p :: 0 <= p < offset + |buf| ==> t[p] == v[p])
      && (forall p :: offset + |buf| <= p < fsize ==> v[p] == t0[p])
  {
    assert t[..offset] == t0[..offset];
    assert forall p :: offset <= p < offset + |buf| ==> t[p] == t[offset..offset + |buf|][p - offset];
    assert forall p :: 0 <= p < offset ==> t[p] == t[..offset][p] && t0[p] == t0[..offset][p];
  }

  // ---- op_write as a step of the tree

  /** A write that went well. */
  ghost predicate Wrote(s: Fs, path: seq<string>, buf: seq<byte>, offset: nat) {
    && Ok(s) && Room(s, buf) && Resolve(s, path).Some? && Resolve(s, path).value.flag == 1
    && Write(s, path, buf, offset).1 >= 0 && Covers(s, offset % CAP, buf)
  }

  lemma WroteParts(s: Fs, path: seq<string>, buf: seq<byte>, offset: nat)
      returns (o: int, k: nat, off: nat, start: int, m: nat, blk': seq<Block>, used': set<int>)
    requires Wrote(s, path, buf, offset)
    ensures o == Resolve(s, path).value.start && o in s.objs && path != [] && o in s.ref
    ensures Planned(s, o, buf, offset, k, off, start, m, blk', used')
    ensures k < |Chain(s, o)| && k == offset / CAP && off == offset % CAP
    ensures var e, s1 := Resolve(s, path).value, Relink(s, o, k, start, m, blk', used');
      Write(s, path, buf, offset)
      == (if e.fsize < offset + |buf| then SetSize(s1, s.ref[o].0, s.ref[o].1, offset + |buf|) else s1, |buf|)
  {
    hide Ok, WriteDisk, Entry;
    ResolveMeans(s, path);
    o, k, off := Resolve(s, path).value.start, offset / CAP, offset % CAP;
    EntryMeans(s, Resolve(s, Front(path)).value.start, Last(path));
    start, m := Added(s, off, buf).0, Added(s, off, buf).1;
    blk', used' := WriteDisk(s, o, buf, offset).0, WriteDisk(s, o, buf, offset).1;
    WriteCodes(s, o, buf, offset);
  }

  lemma WriteCodes(s: Fs, o: int, buf: seq<byte>, offset: nat)
    requires Ok(s) && o in s.objs && Room(s, buf) && Covers(s, offset % CAP, buf)
    ensures WriteDisk(s, o, buf, offset).2 == 0 || WriteDisk(s, o, buf, offset).2 == -1
    ensures WriteDisk(s, o, buf, offset).2 == 0 ==> offset / CAP < |Chain(s, o)|
  {
    var c, k, off := Chain(s, o), offset / CAP, offset % CAP;
    if k < |c| && Surplus(off, buf) != [] && FirstRun(s, off, buf).len >= 1 {
      InChain(s, o, c[k]);
      AllWf(s);
      RunBounds(s, off, buf);
      hide Ok;
      var r := FirstRun(s, off, buf);
      var b := Patched(s.blk[c[k]], off, buf).(next := r.start);
      OneRun(s.blk[c[k] := b], s.used + Blocks(r.start, r.len), s.max, b, Surplus(off, buf), r);
    }
  }

  /** A size written into a directory's block is not written into a file's. */
  lemma SetSizeContent(s: Fs, d: int, b: int, k: int, fsize: nat, o: int)
    requires Ok(s) && LiveAt(s, d, b, k) && o in s.objs && !s.objs[o].isDir
    ensures Content(SetSize(s, b, k, fsize).blk, Chain(s, o)) == Content(s.blk, Chain(s, o))
  {
    InChain(s, d, b);
    if b in Chain(s, o) {
      InChain(s, o, b);
    }
    hide Ok, WithNumbers;
    ContentFrame(s.blk, SetSize(s, b, k, fsize).blk, Chain(s, o));
  }

  /** Writing a size into the entry of object o changes that entry and no other. */
  lemma SizedEntry(s: Fs, d: int, x: string, fsize: nat)
    requires Ok(s) && Entry(s, d, x).Some? && Entry(s, d, x).value.start in s.ref
    ensures var e := Entry(s, d, x).value; var s' := SetSize(s, s.ref[e.start].0, s.ref[e.start].1, fsize);
      Entry(s', d, x) == Some(e.(fsize := fsize)) && OnlyEntry(s, s', d, x)
  {
    hide Ok, Entry, SetSize;
    var e := Entry(s, d, x).value;
    var (b, k) := s.ref[e.start];
    EntryMeans(s, d, x);
    SetSizeEntry(s, b, k, fsize, d, x);
    forall o, y | IsDir(s, o) && (o != d || y != x) ensures Entry(SetSize(s, b, k, fsize), o, y) == Entry(s, o, y) {
      SetSizeEntry(s, b, k, fsize, o, y);
      if Entry(s, o, y).Some? && FindIn(s.blk, Chain(s, o), y) == Some((b, k)) {
        EntryMeans(s, o, y);
        SameSlot(s, o, y, d, x, b, k);
      }
    }
  }

  lemma SameSlot(s: Fs, o: int, y: string, d: int, x: string, b: int, k: nat)
    requires Ok(s) && Entry(s, o, y).Some? && Entry(s, d, x).Some?
    requires FindIn(s.blk, Chain(s, o), y) == Some((b, k)) && FindIn(s.blk, Chain(s, d), x) == Some((b, k))
    ensures o == d && y == x
  {
    hide Ok;
    SameEntry(s, o, y, d, x);
  }

  /** Everything a good write does, seen through lookups and contents. */
  ghost predicate Rewritten(s: Fs, s': Fs, path: seq<string>, chain': seq<int>, blk': seq<Block>, size: nat) {
    && path != [] && Resolve(s, path).Some? && Resolve(s, Front(path)).Some?
    && var e, d := Resolve(s, path).value, Resolve(s, Front(path)).value.start;
    && Entry(s', d, Last(path)) == Some(e.(fsize := size)) && OnlyEntry(s, s', d, Last(path))
    && Chain(s', e.start) == chain' && Content(s'.blk, chain') == Content(blk', chain')
    && (forall o :: o in s.objs && o != e.start ==>
          && Chain(s', o) == Chain(s, o)
          && (s.objs[o].isDir || Content(s'.blk, Chain(s, o)) == Content(s.blk, Chain(s, o))))
  }

  lemma RelinkRewrites(s: Fs, path: seq<string>, k: nat, start: int, m: nat, blk': seq<Block>, used': set<int>)
    requires Ok(s) && path != [] && Resolve(s, path).Some?
    requires Extends(s, Resolve(s, path).value.start, k, start, m, blk', used')
    ensures var o := Resolve(s, path).value.start;
      Rewritten(s, Relink(s, o, k, start, m, blk', used'), path, Chain(s, o)[..k + 1] + RunSeq(start, m), blk',
        Resolve(s, path).value.fsize)
  {
    hide Ok, Extends, Entry, Relink;
    var o := Resolve(s, path).value.start;
    KInChain(s, o, k, start, m, blk', used');
    var s1 := Relink(s, o, k, start, m, blk', used');
    RelinkShape(s, o, k, start, m, blk', used');
    forall d, x ensures Entry(s1, d, x) == Entry(s, d, x) {
      RelinkEntry(s, o, k, start, m, blk', used', d, x);
    }
    forall p | p in s.objs && p != o ensures Content(s1.blk, Chain(s, p)) == Content(s.blk, Chain(s, p)) {
      RelinkOther(s, o, k, start, m, blk', used', p);
      ContentFrame(s.blk, blk', Chain(s, p));
    }
  }

  lemma SizeRewrites(s: Fs, s1: Fs, path: seq<string>, chain': seq<int>, blk': seq<Block>, size0: nat, size: nat)
    requires Ok(s1) && Rewritten(s, s1, path, chain', blk', size0) && s1.ref == s.ref
    requires Resolve(s, path).value.start in s.ref && IsFileIn(s, Resolve(s, path).value.start)
    requires s1.objs.Keys == s.objs.Keys && forall o :: o in s.objs ==> s1.objs[o].isDir == s.objs[o].isDir
    ensures var o := Resolve(s, path).value.start;
      Rewritten(s, SetSize(s1, s1.ref[o].0, s1.ref[o].1, size), path, chain', blk', size)
  {
    hide Ok, Entry;
    var o, d := Resolve(s, path).value.start, Resolve(s, Front(path)).value.start;
    var (b, k) := s1.ref[o];
    var s2 := SetSize(s1, b, k, size);
    SizedEntry(s1, d, Last(path), size);
    EntryMeans(s1, d, Last(path));
    SetSizeContent(s1, d, b, k, size, o);
    forall p | p in s.objs && p != o
      ensures Chain(s2, p) == Chain(s, p)
      ensures s.objs[p].isDir || Content(s2.blk, Chain(s, p)) == Content(s.blk, Chain(s, p))
    {
      if !s.objs[p].isDir {
        SetSizeContent(s1, d, b, k, size, p);
      }
    }
  }

  predicate IsFileIn(s: Fs, o: int) {
    o in s.objs && !s.objs[o].isDir
  }

  /** The state a good write ends in. */
  ghost predicate WroteAs(s: Fs, s': Fs, path: seq<string>, buf: seq<byte>, offset: nat, k: nat, tail: seq<int>,
                          blk': seq<Block>) {
    && path != [] && Resolve(s, path).Some? && Ok(s') && k == offset / CAP
    && var e := Resolve(s, path).value; var c := Chain(s, e.start);
    && k < |c| && Resolve(s, Front(path)).Some? && Resolve(s, Front(path)).value.flag == 2
    && Rewritten(s, s', path, c[..k + 1] + tail, blk', Max(e.fsize, offset + |buf|))
    && Stored(Content(s.blk, c), Content(blk', c[..k + 1] + tail), k, |tail|, offset, buf)
  }

  /** The state between the data and the entry's size being written. */
  ghost predicate DataIn(s: Fs, s1: Fs, path: seq<string>, chain': seq<int>, blk': seq<Block>) {
    && Ok(s1) && s1.ref == s.ref && s1.objs.Keys == s.objs.Keys
    && (forall o :: o in s.objs ==> s1.objs[o].isDir == s.objs[o].isDir)
    && Resolve(s, path).Some? && Rewritten(s, s1, path, chain', blk', Resolve(s, path).value.fsize)
  }

  lemma DataWritten(s: Fs, path: seq<string>, buf: seq<byte>, offset: nat,
                    k: nat, off: nat, start: int, m: nat, blk': seq<Block>, used': set<int>)
    requires Resolve(s, path).Some? && path != [] && k < |Chain(s, Resolve(s, path).value.start)|
    requires Planned(s, Resolve(s, path).value.start, buf, offset, k, off, start, m, blk', used')
    ensures var o := Resolve(s, path).value.start;
      DataIn(s, Relink(s, o, k, start, m, blk', used'), path, Chain(s, o)[..k + 1] + RunSeq(start, m), blk')
  {
    hide Ok, Entry, Relink, Extends, WriteDisk, Rewritten, Covers;
    var o := Resolve(s, path).value.start;
    WriteExtends(s, o, buf, offset, k, off, start, m, blk', used');
    RelinkOk(s, o, k, start, m, blk', used');
    RelinkShape(s, o, k, start, m, blk', used');
    RelinkRewrites(s, path, k, start, m, blk', used');
  }

  lemma SizeIn(s: Fs, s1: Fs, path: seq<string>, chain': seq<int>, blk': seq<Block>, o: int, size: nat)
    requires DataIn(s, s1, path, chain', blk') && o == Resolve(s, path).value.start && o in s.ref && IsFileIn(s, o)
    ensures Ok(SetSize(s1, s.ref[o].0, s.ref[o].1, size))
    ensures Rewritten(s, SetSize(s1, s.ref[o].0, s.ref[o].1, size), path, chain', blk', size)
  {
    hide Ok, SetSize, Entry, Rewritten, IsFileIn;
    SetSizeOk(s1, s.ref[o].0, s.ref[o].1, size);
    SizeRewrites(s, s1, path, chain', blk', Resolve(s, path).value.fsize, size);
  }

  /** A write that went well keeps the structural invariant and changes one file. */
  lemma WroteEffect(s: Fs, path: seq<string>, buf: seq<byte>, offset: nat)
      returns (k: nat, tail: seq<int>, blk': seq<Block>)
    requires Wrote(s, path, buf, offset)
    ensures WroteAs(s, Write(s, path, buf, offset).0, path, buf, offset, k, tail, blk')
  {
    hide Ok, Entry, Relink, WriteDisk, Write, SetSize, Rewritten, Stored, Covers, Planned;
    var o, off, start, m, used';
    o, k, off, start, m, blk', used' := WroteParts(s, path, buf, offset);
    tail := RunSeq(start, m);
    DataWritten(s, path, buf, offset, k, off, start, m, blk', used');
    ResolveMeans(s, path);
    WriteStores(s, o, buf, offset, k, off, start, m, blk', used');
    ParentIsDir(s, path);
    var s1 := Relink(s, o, k, start, m, blk', used');
    if Resolve(s, path).value.fsize < offset + |buf| {
      SizeIn(s, s1, path, Chain(s, o)[..k + 1] + tail, blk', o, offset + |buf|);
    }
  }

  lemma ParentIsDir(s: Fs, path: seq<string>)
    requires path != [] && Resolve(s, path).Some?
    ensures Resolve(s, Front(path)).Some? && Resolve(s, Front(path)).value.flag == 2
  {
  }

  // ---- the main results

  lemma CompleteBytes(s: Fs, e: Dirent)
    requires Ok(s) && e.start in s.objs && Complete(s, e)
    ensures var t0 := Content(s.blk, Chain(s, e.start));
      |t0| == CAP * |Chain(s, e.start)| && e.fsize <= |t0| && BytesOf(s, e) == t0[..e.fsize]
  {
    forall b | b in Chain(s, e.start) ensures |DataAt(s.blk, b)| == CAP {
      InChain(s, e.start, b);
    }
    hide Ok;
    ContentLength(s.blk, Chain(s, e.start));
    CeilStep(e.fsize);
  }

  /** The tree after a good write: the file's new size, and whatever its chain now holds. */
  lemma WriteTree(s: Fs, s': Fs, path: seq<string>, buf: seq<byte>, offset: nat, k: nat, tail: seq<int>,
                  blk': seq<Block>)
    requires Ok(s) && WroteAs(s, s', path, buf, offset, k, tail, blk') && Resolve(s, path).value.flag == 1
    ensures var e := Resolve(s, path).value; var size := Max(e.fsize, offset + |buf|);
      && Resolve(s', path) == Some(e.(fsize := size))
      && TreeOf(s') == TreeOf(s)[path := FileNode(size, Take(Content(blk', Chain(s, e.start)[..k + 1] + tail), size))]
      && SameElsewhere(s, s', path)
  {
    hide Ok, Entry, Stored, Content;
    var e, d := Resolve(s, path).value, Resolve(s, Front(path)).value.start;
    forall q | q != path && Resolve(s, q).Some?
      ensures NodeOf(s', Resolve(s, q).value) == NodeOf(s, Resolve(s, q).value)
      ensures Chain(s', Resolve(s, q).value.start) == Chain(s, Resolve(s, q).value.start)
    {
      ResolveMeans(s, q);
      if Resolve(s, q).value.start == e.start {
        SamePath(s, q, path);
      }
    }
    TreeStep(s, s', path);
  }

  /** As written, a write that succeeds with one covering run is a splice of the file, and
      leaves everything else alone, exactly when it keeps the file's tail. */
  lemma WriteSplicesExactly(s: Fs, path: seq<string>, buf: seq<byte>, offset: nat)
    requires Wrote(s, path, buf, offset) && Complete(s, Resolve(s, path).value)
    requires offset <= Resolve(s, path).value.fsize
    ensures var e := Resolve(s, path).value;
      && |BytesOf(s, e)| == e.fsize
      && (TreeOf(Write(s, path, buf, offset).0)
            == TreeOf(s)[path := FileNode(Max(e.fsize, offset + |buf|), Splice(BytesOf(s, e), offset, buf))]
          <==> KeepsTail(s, e, buf, offset))
  {
    var k, tail, blk' := WroteEffect(s, path, buf, offset);
    hide Ok, Write, Resolve, Covers, TreeOf, Rewritten, Content, Stored, TailKept, Splice, Take, Ceil, SameElsewhere;
    var e, s' := Resolve(s, path).value, Write(s, path, buf, offset).0;
    ResolveMeans(s, path);
    WriteTree(s, s', path, buf, offset, k, tail, blk');
    CompleteBytes(s, e);
    var t0, t := Content(s.blk, Chain(s, e.start)), Content(blk', Chain(s, e.start)[..k + 1] + tail);
    SpliceExactly(t0, t, |Chain(s, e.start)|, e.fsize, k, |tail|, offset, buf);
    UpdateInjective(TreeOf(s), path, FileNode(Max(e.fsize, offset + |buf|), Take(t, Max(e.fsize, offset + |buf|))),
                    FileNode(Max(e.fsize, offset + |buf|), Splice(BytesOf(s, e), offset, buf)));
  }

  lemma UpdateInjective<K, V>(t: imap<K, V>, k: K, v: V, w: V)
    ensures t[k := v] == t[k := w] <==> v == w
  {
    assert t[k := v][k] == v && t[k := w][k] == w;
  }

  /** Such a write also leaves the file with exactly the blocks its new size needs. */
  lemma WriteStaysComplete(s: Fs, path: seq<string>, buf: seq<byte>, offset: nat)
    requires Wrote(s, path, buf, offset) && Complete(s, Resolve(s, path).value)
    requires offset <= Resolve(s, path).value.fsize
    requires KeepsTail(s, Resolve(s, path).value, buf, offset)
    ensures Resolve(Write(s, path, buf, offset).0, path).Some?
    ensures Complete(Write(s, path, buf, offset).0, Resolve(Write(s, path, buf, offset).0, path).value)
  {
    var k, tail, blk' := WroteEffect(s, path, buf, offset);
    hide Ok, Write, Resolve, Covers, TreeOf, Content, Splice, Entry;
    var e, s' := Resolve(s, path).value, Write(s, path, buf, offset).0;
    ResolveMeans(s, path);
    WriteTree(s, s', path, buf, offset, k, tail, blk');
    CompleteBytes(s, e);
    hide Stored, TailKept, Take, Ceil;
    var t0, t := Content(s.blk, Chain(s, e.start)), Content(blk', Chain(s, e.start)[..k + 1] + tail);
    SpliceExactly(t0, t, |Chain(s, e.start)|, e.fsize, k, |tail|, offset, buf);
  }

  /** u_fs_write keeps the structural invariant whenever the first run found covers the
      surplus (and of course when it fails before writing). */
  lemma WriteOk(s: Fs, path: seq<string>, buf: seq<byte>, offset: nat)
    requires Ok(s) && Room(s, buf) && path != [] && (Resolve(s, path).Some? ==> Resolve(s, path).value.flag == 1)
    requires FirstRun(s, offset % CAP, buf).len > 0 ==> Covers(s, offset % CAP, buf)
    ensures Ok(Write(s, path, buf, offset).0)
  {
    if Resolve(s, path).Some? {
      ResolveMeans(s, path);
      var o, off := Resolve(s, path).value.start, offset % CAP;
      if Write(s, path, buf, offset).1 >= 0 {
        FitsOrFound(s, o, buf, offset);
        var k, tail, blk' := WroteEffect(s, path, buf, offset);
      } else {
        FailsEarly(s, o, buf, offset);
        assert s.(blk := s.blk, used := s.used) == s;
      }
    }
  }

  lemma FitsOrFound(s: Fs, o: int, buf: seq<byte>, offset: nat)
    requires Ok(s) && o in s.objs && Room(s, buf) && WriteDisk(s, o, buf, offset).2 >= 0
    ensures Surplus(offset % CAP, buf) == [] || FirstRun(s, offset % CAP, buf).len > 0
  {
  }

  lemma FailsEarly(s: Fs, o: int, buf: seq<byte>, offset: nat)
    requires Ok(s) && o in s.objs && Room(s, buf) && WriteDisk(s, o, buf, offset).2 < 0
    requires FirstRun(s, offset % CAP, buf).len > 0 ==> Covers(s, offset % CAP, buf)
    ensures WriteDisk(s, o, buf, offset).0 == s.blk && WriteDisk(s, o, buf, offset).1 == s.used
  {
    if Covers(s, offset % CAP, buf) {
      WriteCodesWhenCovered(s, o, buf, offset);
    }
  }

  lemma WriteCodesWhenCovered(s: Fs, o: int, buf: seq<byte>, offset: nat)
    requires Ok(s) && o in s.objs && Room(s, buf) && Covers(s, offset % CAP, buf) && WriteDisk(s, o, buf, offset).2 < 0
    ensures WriteDisk(s, o, buf, offset).0 == s.blk && WriteDisk(s, o, buf, offset).1 == s.used
  {
    var c, k, off := Chain(s, o), offset / CAP, offset % CAP;
    if k < |c| && Surplus(off, buf) != [] && FirstRun(s, off, buf).len >= 1 {
      InChain(s, o, c[k]);
      AllWf(s);
      RunBounds(s, off, buf);
      hide Ok;
      var r := FirstRun(s, off, buf);
      var b := Patched(s.blk[c[k]], off, buf).(next := r.start);
      OneRun(s.blk[c[k] := b], s.used + Blocks(r.start, r.len), s.max, b, Surplus(off, buf), r);
    }
  }

  /** A complete file runs out of blocks in front of the offset exactly when the write is an
      append at a non-zero multiple of 496; the write then fails and changes nothing. */
  lemma BoundaryFails(s: Fs, path: seq<string>, buf: seq<byte>, offset: nat)
    requires Ok(s) && Room(s, buf) && Resolve(s, path).Some? && Resolve(s, path).value.flag == 1
    requires Complete(s, Resolve(s, path).value) && offset <= Resolve(s, path).value.fsize
    ensures var e := Resolve(s, path).value;
      && (offset / CAP >= |Chain(s, e.start)| <==> offset == e.fsize && offset > 0 && offset % CAP == 0)
      && (offset / CAP >= |Chain(s, e.start)| ==> Write(s, path, buf, offset) == (s, -1))
  {
    ResolveMeans(s, path);
    var e := Resolve(s, path).value;
    CeilStep(e.fsize);
    assert s.(blk := s.blk, used := s.used) == s;
  }

  // ---- names

  lemma UniqueFrame(blk: seq<Block>, blk': seq<Block>, c: seq<int>)
    requires UniqueIn(blk, c) && forall b :: b in c ==> |SlotsAt(blk', b)| == |SlotsAt(blk, b)|
    requires forall b, k :: b in c && 0 <= k < |SlotsAt(blk, b)| ==>
      SlotsAt(blk', b)[k].fname == SlotsAt(blk, b)[k].fname && SlotsAt(blk', b)[k].flag == SlotsAt(blk, b)[k].flag
    ensures UniqueIn(blk', c)
  {
  }

  lemma RelinkUnique(s: Fs, o: int, k: nat, start: int, m: nat, blk': seq<Block>, used': set<int>)
    requires Ok(s) && UniqueNames(s) && Extends(s, o, k, start, m, blk', used')
    ensures o in s.objs && k < |Chain(s, o)| && UniqueNames(Relink(s, o, k, start, m, blk', used'))
  {
    hide Ok, UniqueIn;
    KInChain(s, o, k, start, m, blk', used');
    var s' := Relink(s, o, k, start, m, blk', used');
    RelinkShape(s, o, k, start, m, blk', used');
    hide Relink;
    forall d | IsDir(s', d) ensures UniqueIn(s'.blk, Chain(s', d)) {
      assert UniqueIn(s.blk, Chain(s, d));
      NotDir(s, o, k, start, m, blk', used');
      RelinkOther(s, o, k, start, m, blk', used', d);
      UniqueFrame(s.blk, s'.blk, Chain(s, d));
    }
  }

  lemma NotDir(s: Fs, o: int, k: nat, start: int, m: nat, blk': seq<Block>, used': set<int>)
    requires Extends(s, o, k, start, m, blk', used')
    ensures !IsDir(s, o)
  {
  }

  lemma SetSizeUnique(s: Fs, b: int, k: int, fsize: nat)
    requires UniqueNames(s)
    ensures UniqueNames(SetSize(s, b, k, fsize))
  {
    var s' := SetSize(s, b, k, fsize);
    hide UniqueIn;
    forall d | IsDir(s', d) ensures UniqueIn(s'.blk, Chain(s', d)) {
      assert UniqueIn(s.blk, Chain(s, d));
      UniqueFrame(s.blk, s'.blk, Chain(s, d));
    }
  }

  lemma WriteUnique(s: Fs, path: seq<string>, buf: seq<byte>, offset: nat)
    requires Wrote(s, path, buf, offset) && UniqueNames(s)
    ensures UniqueNames(Write(s, path, buf, offset).0)
  {
    hide Ok, UniqueNames, Relink, SetSize, WriteDisk, Write, Planned, Extends;
    var o, k, off, start, m, blk', used' := WroteParts(s, path, buf, offset);
    WriteExtends(s, o, buf, offset, k, off, start, m, blk', used');
    PlannedOk(s, o, buf, offset, k, off, start, m, blk', used');
    RelinkUnique(s, o, k, start, m, blk', used');
    SetSizeUnique(Relink(s, o, k, start, m, blk', used'), s.ref[o].0, s.ref[o].1, offset + |buf|);
  }

  lemma PlannedOk(s: Fs, o: int, buf: seq<byte>, offset: nat,
                  k: nat, off: nat, start: int, m: nat, blk': seq<Block>, used': set<int>)
    requires Planned(s, o, buf, offset, k, off, start, m, blk', used')
    ensures Ok(s)
  {
  }
}
