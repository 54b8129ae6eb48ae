/** The bytes of a directory entry. Every entry that fits is read back as it was written, so on
    every run the entries of a block are what its bytes are read as. */
module Layout {
  import opened Runs
  import opened Disk
  import opened Tree
  import opened FileData
  import opened Creating
  import opened Removing
  import opened Writing
  import opened ShortRuns
  import opened History

  /** A name as C has it: no NUL inside, one byte for each character. */
  predicate CString(name: string) {
    forall i :: 0 <= i < |name| ==> 1 <= name[i] as int < 256
  }

  /** What an entry's fields can hold. */
  predicate Representable(e: Dirent) {
    && CString(e.fname) && |e.fname| <= NAME_MAX && NumbersFit(e)
  }

  predicate NumbersFit(e: Dirent) {
    e.fsize < Power(8) && -Power(8) <= 2 * e.start < Power(8) && -Power(4) <= 2 * e.flag < Power(4)
  }

  // ---- numbers

  lemma {:induction false} NumberOfBytes(n: int, w: nat)
    requires -Power(w) <= n < Power(w)
    ensures Number(Bytes(n, w)) == if n < 0 then n + Power(w) else n
    decreases w
  {
    if w > 0 {
      NumberOfBytes(n / 256, w - 1);
      assert Bytes(n, w)[1..] == Bytes(n / 256, w - 1);
    }
  }

  /** The top byte tells the sign. */
  lemma {:induction false} TopByte(n: int, w: nat)
    requires w > 0 && -Power(w) <= 2 * n < Power(w)
    ensures Bytes(n, w)[w - 1] >= 128 <==> n < 0
    decreases w
  {
    if w > 1 {
      TopByte(n / 256, w - 1);
      assert Bytes(n, w)[w - 1] == Bytes(n / 256, w - 1)[w - 2];
    } else {
      assert Power(1) == 256;
    }
  }

  lemma SignedOfBytes(n: int, w: nat)
    requires w > 0 && -Power(w) <= 2 * n < Power(w)
    ensures Signed(Bytes(n, w)) == n
  {
    NumberOfBytes(n, w);
    TopByte(n, w);
  }

  lemma {:induction false} NumberRange(s: seq<byte>)
    ensures Number(s) < Power(|s|)
    ensures s != [] ==> (s[|s| - 1] >= 128 <==> 2 * Number(s) >= Power(|s|))
    decreases |s|
  {
    if |s| > 1 {
      NumberRange(s[1..]);
      assert s[1..][|s| - 2] == s[|s| - 1];
    } else if |s| == 1 {
      assert s[1..] == [] && Power(1) == 256;
    }
  }

  lemma SignedRange(s: seq<byte>)
    requires s != []
    ensures -Power(|s|) <= 2 * Signed(s) < Power(|s|)
  {
    NumberRange(s);
  }

  // ---- names

  lemma {:induction false} NameOfBytes(name: string, s: seq<byte>)
    requires CString(name) && |name| < |s| && s[|name|] == 0
    requires forall i :: 0 <= i < |name| ==> s[i] as int == name[i] as int
    ensures NameIn(s) == name
    decreases |name|
  {
    if name != "" {
      NameOfBytes(name[1..], s[1..]);
    }
  }

  // ---- entries

  lemma OverlayAt(data: seq<byte>, off: nat, bytes: seq<byte>, i: nat)
    requires off + |bytes| <= |data| && i < |data|
    ensures Overlay(data, off, bytes)[i] == if off <= i < off + |bytes| then bytes[i - off] else data[i]
  {
  }

  lemma OverlayOutside(data: seq<byte>, off: nat, bytes: seq<byte>, lo: nat, hi: nat)
    requires off + |bytes| <= |data| && lo <= hi <= |data| && (hi <= off || off + |bytes| <= lo)
    ensures Overlay(data, off, bytes)[lo..hi] == data[lo..hi]
  {
  }

  lemma OverlayInside(data: seq<byte>, off: nat, bytes: seq<byte>, lo: nat, hi: nat)
    requires off + |bytes| <= |data| && lo <= hi <= |bytes|
    ensures Overlay(data, off, bytes)[off + lo..off + hi] == bytes[lo..hi]
  {
  }

  function EntryBytes(data: seq<byte>, k: nat): (r: seq<byte>)
    requires |data| == CAP && k < SLOTS
    ensures |r| == ENTRY
  {
    data[ENTRY * k..ENTRY * k + ENTRY]
  }

  lemma SliceOfSlice(s: seq<byte>, a: nat, b: nat, lo: nat, hi: nat)
    requires a <= b <= |s| && lo <= hi <= b - a
    ensures s[a..b][lo..hi] == s[a + lo..a + hi]
  {
    forall i | 0 <= i < hi - lo ensures s[a..b][lo..hi][i] == s[a + lo..a + hi][i] {
    }
  }

  /** The fields of entry k, byte range by byte range. */
  lemma EntryAtIs(data: seq<byte>, k: nat)
    requires |data| == CAP && k < SLOTS
    ensures var a := ENTRY * k;
      Entries(data)[k] == Dirent(NameIn(data[a..a + 13]), Number(data[a + 16..a + 24]), Signed(data[a + 24..a + 32]),
                                 Signed(data[a + 32..a + 36]))
  {
    hide NameIn, Number, Signed;
    var a := ENTRY * k;
    SliceOfSlice(data, a, a + ENTRY, 0, 13);
    SliceOfSlice(data, a, a + ENTRY, 16, 24);
    SliceOfSlice(data, a, a + ENTRY, 24, 32);
    SliceOfSlice(data, a, a + ENTRY, 32, 36);
  }

  lemma NumbersOther(data: seq<byte>, k: nat, e: Dirent, j: nat)
    requires |data| == CAP && k < SLOTS && j < SLOTS && j != k
    ensures EntryBytes(WithNumbers(data, k, e), j) == EntryBytes(data, j)
  {
    OverlayOutside(data, ENTRY * k + NUMBERS, Bytes(e.fsize, 8) + Bytes(e.start, 8) + Bytes(e.flag, 4),
                   ENTRY * j, ENTRY * j + ENTRY);
  }

  lemma NumbersHere(data: seq<byte>, k: nat, e: Dirent)
    requires |data| == CAP && k < SLOTS && NumbersFit(e)
    ensures Entries(WithNumbers(data, k, e))[k] == Dirent(Entries(data)[k].fname, e.fsize, e.start, e.flag)
  {
    hide NameIn, Number, Signed, Bytes, Entries, Overlay, Power;
    var a, off, d := ENTRY * k, ENTRY * k + NUMBERS, WithNumbers(data, k, e);
    var x, y, z := Bytes(e.fsize, 8), Bytes(e.start, 8), Bytes(e.flag, 4);
    EntryAtIs(data, k);
    EntryAtIs(d, k);
    OverlayOutside(data, off, x + y + z, a, a + 13);
    OverlayInside(data, off, x + y + z, 0, 8);
    OverlayInside(data, off, x + y + z, 8, 16);
    OverlayInside(data, off, x + y + z, 16, 20);
    assert (x + y + z)[0..8] == x && (x + y + z)[8..16] == y && (x + y + z)[16..20] == z;
    NumberOfBytes(e.fsize, 8);
    SignedOfBytes(e.start, 8);
    SignedOfBytes(e.flag, 4);
  }

  lemma NameOther(data: seq<byte>, k: nat, name: string, j: nat)
    requires |data| == CAP && k < SLOTS && j < SLOTS && j != k
    ensures EntryBytes(WithName(data, k, name), j) == EntryBytes(data, j)
  {
    OverlayOutside(data, ENTRY * k, NameBytes(name), ENTRY * j, ENTRY * j + ENTRY);
  }

  lemma NameHere(data: seq<byte>, k: nat, name: string)
    requires |data| == CAP && k < SLOTS && CString(name) && |name| <= NAME_MAX
    ensures Entries(WithName(data, k, name))[k].fname == name
  {
    hide NameIn, Number, Signed, Entries;
    var a, d := ENTRY * k, WithName(data, k, name);
    EntryAtIs(d, k);
    var s := d[a..a + 13];
    forall i | 0 <= i <= |name| ensures s[i] == NameBytes(name)[i] {
      OverlayAt(data, a, NameBytes(name), a + i);
    }
    NameOfBytes(name, s);
  }

  lemma SameBytesSameEntry(data: seq<byte>, data': seq<byte>, j: nat)
    requires |data| == |data'| == CAP && j < SLOTS && EntryBytes(data, j) == EntryBytes(data', j)
    ensures Entries(data)[j] == Entries(data')[j]
  {
    hide EntryIn40;
  }

  /** Assigning an entry's numbers changes the numbers read there, and nothing else. */
  lemma NumbersReadBack(data: seq<byte>, k: nat, e: Dirent)
    requires |data| == CAP && k < SLOTS && NumbersFit(e)
    ensures Entries(WithNumbers(data, k, e))
         == Entries(data)[k := Dirent(Entries(data)[k].fname, e.fsize, e.start, e.flag)]
  {
    hide Entries, WithNumbers, Power, EntryBytes;
    NumbersHere(data, k, e);
    forall j | 0 <= j < SLOTS && j != k ensures Entries(WithNumbers(data, k, e))[j] == Entries(data)[j] {
      NumbersOther(data, k, e, j);
      SameBytesSameEntry(WithNumbers(data, k, e), data, j);
    }
  }

  /** Every entry that fits is read back as it was written, and the other entries of the block
      are read as before. */
  lemma EntryReadBack(data: seq<byte>, k: nat, e: Dirent)
    requires |data| == CAP && k < SLOTS && Representable(e)
    ensures Entries(WithNumbers(WithName(data, k, e.fname), k, e)) == Entries(data)[k := e]
  {
    hide Entries, WithNumbers, WithName, Power, EntryBytes, CString;
    NameHere(data, k, e.fname);
    NumbersReadBack(WithName(data, k, e.fname), k, e);
    forall j | 0 <= j < SLOTS && j != k ensures Entries(WithName(data, k, e.fname))[j] == Entries(data)[j] {
      NameOther(data, k, e.fname, j);
      SameBytesSameEntry(WithName(data, k, e.fname), data, j);
    }
  }

  // ---- both views of a block

  /** The block's entries are what its bytes are read as. */
  predicate Agree(b: Block) {
    |b.data| == CAP && b.slots == Entries(b.data)
  }

  ghost predicate AllAgree(blk: seq<Block>) {
    forall b :: 0 <= b < |blk| ==> Agree(blk[b])
  }

  lemma FreshAgrees()
    ensures Agree(Fresh())
  {
    var d := Fresh().data;
    forall k | 0 <= k < SLOTS ensures Entries(d)[k] == FREE_ENTRY {
      EntryAtIs(d, k);
      ZeroNumber(d[ENTRY * k + 16..ENTRY * k + 24]);
      ZeroNumber(d[ENTRY * k + 24..ENTRY * k + 32]);
      ZeroNumber(d[ENTRY * k + 32..ENTRY * k + 36]);
    }
    hide Entries;
    assert Entries(d) == Fresh().slots;
  }

  lemma {:induction false} ZeroNumber(s: seq<byte>)
    requires forall i :: 0 <= i < |s| ==> s[i] == 0
    ensures Number(s) == 0 && Signed(s) == 0
    decreases |s|
  {
    if s != [] {
      ZeroNumber(s[1..]);
    }
  }

  lemma WithEntryAgrees(b: Block, k: nat, e: Dirent)
    requires Agree(b) && k < SLOTS && Representable(e)
    ensures Agree(WithEntry(b, k, e))
  {
    hide Entries, Representable, WithNumbers, WithName;
    EntryReadBack(b.data, k, e);
  }

  lemma ModifyAgrees(blk: seq<Block>, b: int, k: int, e: Dirent)
    requires AllAgree(blk) && NumbersFit(e)
    ensures AllAgree(ModifySlot(blk, b, k, e))
  {
    hide Entries, NumbersFit, WithNumbers;
    if 0 <= b < |blk| && 0 <= k < |blk[b].slots| {
      var f := Dirent(blk[b].slots[k].fname, e.fsize, e.start, e.flag);
      SameNumbers(blk[b].data, k, e, f);
      NumbersReadBack(blk[b].data, k, f);
    }
  }

  lemma SameNumbers(data: seq<byte>, k: int, e: Dirent, f: Dirent)
    requires NumbersFit(e) && e.fsize == f.fsize && e.start == f.start && e.flag == f.flag
    ensures NumbersFit(f) && WithNumbers(data, k, e) == WithNumbers(data, k, f)
  {
  }

  /** The numbers read from a block always fit. */
  lemma ReadFits(b: Block, k: nat, size: nat)
    requires Agree(b) && k < SLOTS && size < Power(8)
    ensures NumbersFit(b.slots[k].(fsize := size))
  {
    hide Number, Signed, NameIn, Entries, Power;
    EntryAtIs(b.data, k);
    SignedRange(b.data[ENTRY * k + 24..ENTRY * k + 32]);
    SignedRange(b.data[ENTRY * k + 32..ENTRY * k + 36]);
  }

  // ---- the operations keep the views in line

  lemma {:induction false} FillRunAgrees(blk: seq<Block>, content: Block, buf: seq<byte>, b: int, n: nat)
    requires 0 <= b && b + n <= |blk| && WfBlock(content) && AllAgree(blk)
    ensures AllAgree(FillRun(blk, content, buf, b, n).0)
    decreases n
  {
    hide Entries;
    if n > 0 {
      FillRunAgrees(blk[b := Filled(content, buf, b)], Filled(content, buf, b), Rest(buf), b + 1, n - 1);
    }
  }

  lemma {:induction false} AppendRunsAgrees(blk: seq<Block>, used: set<int>, max: nat, content: Block, buf: seq<byte>,
                                            r: Run)
    requires WfBlock(content) && r.len > 0 && 0 <= r.start && r.start + r.len <= |blk|
    requires max + Asked(|buf|) <= |blk| && buf != [] && AllAgree(blk)
    ensures AllAgree(AppendRuns(blk, used, max, content, buf, r).0)
    decreases |buf|
  {
    hide AllAgree, WfBlock, FillRun, Best, IsBest, Blocks;
    FillRunRest(blk, content, buf, r.start, r.len);
    FillRunAgrees(blk, content, buf, r.start, r.len);
    var (blk1, content1, rest) := FillRun(blk, content, buf, r.start, r.len);
    if rest != [] {
      var r1 := Best(used, FIRST, max - 1, Asked(|rest|));
      if r1.len >= 1 {
        OnDisk(used, max, Asked(|rest|));
        AppendRunsAgrees(blk1, used + Blocks(r1.start, r1.len), max, content1, rest, r1);
      }
    }
  }

  lemma WriteDiskAgrees(s: Fs, o: int, buf: seq<byte>, offset: nat)
    requires Ok(s) && o in s.objs && Room(s, buf) && AllAgree(s.blk)
    ensures AllAgree(WriteDisk(s, o, buf, offset).0)
  {
    var c, k, off := Chain(s, o), offset / CAP, offset % CAP;
    if k < |c| {
      InChain(s, o, c[k]);
      AllWf(s);
      RunStarts(s, off, buf);
      hide Ok, AppendRuns, FirstRun, Entries;
      var b, rest, r := Patched(s.blk[c[k]], off, buf), Surplus(off, buf), FirstRun(s, off, buf);
      if rest != [] && r.len > 0 {
        AppendRunsAgrees(s.blk[c[k] := b.(next := r.start)], s.used + Blocks(r.start, r.len), s.max,
                         b.(next := r.start), rest, r);
      }
    }
  }

  lemma RunStarts(s: Fs, off: nat, buf: seq<byte>)
    requires Ok(s) && off < CAP && Room(s, buf)
    ensures var r := FirstRun(s, off, buf);
      r.len > 0 ==> 0 <= r.start && r.start + r.len <= |s.blk| && s.max + Asked(|Surplus(off, buf)|) <= |s.blk|
  {
    if FirstRun(s, off, buf).len > 0 {
      RunBounds(s, off, buf);
    }
  }

  /** Block numbers fit an entry. */
  predicate Numbered(s: Fs) {
    2 * |s.blk| < Power(8)
  }

  lemma NewFits(s: Fs, name: string, n: int, flag: int)
    requires Numbered(s) && CString(name) && |name| <= NAME_MAX && flag in {1, 2} && 0 <= n < |s.blk|
    ensures Representable(Dirent(name, 0, n, flag))
  {
    assert Power(4) > 8;
  }

  lemma FillAgrees(s: Fs, d: int, name: string, flag: int, n: int)
    requires 0 <= LastBlock(s, d) < |s.blk| && 0 <= d < |s.blk| && 0 <= n < |s.blk|
    requires FreeSlot(LastSlots(s, d), 0) < |LastSlots(s, d)|
    requires AllAgree(s.blk) && Representable(Dirent(name, 0, n, flag))
    ensures AllAgree(Fill(s, d, name, flag, n).blk) && |Fill(s, d, name, flag, n).blk| == |s.blk|
  {
    hide Agree, FreeSlot, Representable, Moved, Fresh, Entries;
    FreshAgrees();
    AgreeSlots(s.blk[LastBlock(s, d)]);
    WithEntryAgrees(s.blk[LastBlock(s, d)], FreeSlot(LastSlots(s, d), 0), Dirent(name, 0, n, flag));
  }

  lemma AgreeSlots(b: Block)
    requires Agree(b)
    ensures WfBlock(b)
  {
  }

  lemma RelinkedAgrees(b: Block, next: int, size: nat)
    requires Agree(b)
    ensures Agree(b.(next := next)) && Agree(b.(next := next, size := size))
  {
  }

  lemma GrowAgrees(s: Fs, d: int, name: string, flag: int, m: int, n: int)
    requires 0 <= LastBlock(s, d) < |s.blk| && 0 <= d < |s.blk| && 0 <= m < |s.blk| && 0 <= n < |s.blk|
    requires AllAgree(s.blk) && Representable(Dirent(name, 0, n, flag))
    ensures AllAgree(Grow(s, d, name, flag, m, n).blk) && |Grow(s, d, name, flag, m, n).blk| == |s.blk|
  {
    hide Agree, Representable, Moved, Fresh, Entries, WithEntry;
    FreshAgrees();
    WithEntryAgrees(Fresh(), 0, Dirent(name, 0, n, flag));
    RelinkedAgrees(s.blk[LastBlock(s, d)], m, 0);
  }

  lemma HalfGrownAgrees(s: Fs, d: int, m: int)
    requires 0 <= LastBlock(s, d) < |s.blk| && 0 <= d < |s.blk| && AllAgree(s.blk)
    ensures AllAgree(HalfGrown(s, d, m).blk) && |HalfGrown(s, d, m).blk| == |s.blk|
  {
    hide Agree;
    RelinkedAgrees(s.blk[LastBlock(s, d)], m, 0);
  }

  lemma InsertAgrees(s: Fs, d: int, name: string, flag: int)
    requires Ok(s) && IsDir(s, d) && flag in {1, 2} && |name| <= NAME_MAX && CString(name)
    requires AllAgree(s.blk) && Numbered(s)
    ensures AllAgree(Insert(s, d, name, flag).0.blk) && |Insert(s, d, name, flag).0.blk| == |s.blk|
  {
    hide Ok, AllAgree, Fill, Grow, HalfGrown, FreeSlot, CString, Representable, Numbered;
    DirBounds(s, d);
    MaxOk(s);
    var first := FreeBlk(s.used, s.max);
    if first.Some? {
      NewFits(s, name, first.value, flag);
      if FreeSlot(LastSlots(s, d), 0) < SLOTS {
        FillAgrees(s, d, name, flag, first.value);
      } else {
        HalfGrownAgrees(s, d, first.value);
        var second := FreeBlk(s.used + {first.value}, s.max);
        if second.Some? {
          NewFits(s, name, second.value, flag);
          GrowAgrees(s, d, name, flag, first.value, second.value);
        }
      }
    }
  }

  lemma CreateAgrees(s: Fs, path: seq<string>, flag: int)
    requires Ok(s) && path != [] && flag in {1, 2} && CString(Last(path)) && AllAgree(s.blk) && Numbered(s)
    ensures AllAgree(Create(s, path, flag).0.blk) && |Create(s, path, flag).0.blk| == |s.blk|
  {
    hide Ok, AllAgree, Insert, Visible, CString, Numbered;
    if Asks(s, path) {
      ResolveMeans(s, Front(path));
      InsertAgrees(s, Resolve(s, Front(path)).value.start, Last(path), flag);
    }
  }

  lemma RemoveAgrees(s: Fs, path: seq<string>, flag: int)
    requires Ok(s) && path != [] && AllAgree(s.blk)
    ensures AllAgree(Remove(s, path, flag).0.blk) && |Remove(s, path, flag).0.blk| == |s.blk|
  {
    hide Ok, AllAgree, EmptyChain, Erase;
    forall o, b, k ensures AllAgree(Erase(s, o, b, k).blk) && |Erase(s, o, b, k).blk| == |s.blk| {
      EraseAgrees(s, o, b, k);
    }
  }

  lemma EraseAgrees(s: Fs, o: int, b: int, k: int)
    requires AllAgree(s.blk)
    ensures AllAgree(Erase(s, o, b, k).blk) && |Erase(s, o, b, k).blk| == |s.blk|
  {
    hide Agree, ModifySlot, Fresh;
    FreshAgrees();
    assert Power(8) > 8 && Power(4) > 8;
    ModifyAgrees(Zeroed(s.blk, SetOf(Chain(s, o))), b, k, Cleared(FREE_ENTRY));
    ModifySize(Zeroed(s.blk, SetOf(Chain(s, o))), b, k, Cleared(FREE_ENTRY));
  }

  lemma ModifySize(blk: seq<Block>, b: int, k: int, e: Dirent)
    ensures |ModifySlot(blk, b, k, e)| == |blk|
  {
  }

  lemma SetSizeAgrees(s: Fs, b: int, k: int, size: nat)
    requires AllAgree(s.blk) && size < Power(8)
    ensures AllAgree(SetSize(s, b, k, size).blk) && |SetSize(s, b, k, size).blk| == |s.blk|
  {
    hide Agree, ModifySlot, NumbersFit, Power;
    if 0 <= k < |SlotsAt(s.blk, b)| {
      AgreeSlots(s.blk[b]);
      ReadFits(s.blk[b], k, size);
      ModifyAgrees(s.blk, b, k, SlotsAt(s.blk, b)[k].(fsize := size));
      ModifySize(s.blk, b, k, SlotsAt(s.blk, b)[k].(fsize := size));
    }
  }

  lemma RelinkAgrees(s: Fs, o: int, buf: seq<byte>, offset: nat)
    requires Ok(s) && o in s.objs && Room(s, buf) && AllAgree(s.blk) && WriteDisk(s, o, buf, offset).2 >= 0
    ensures var (blk', used', _) := WriteDisk(s, o, buf, offset);
      var (start, m) := Added(s, offset % CAP, buf);
      && AllAgree(blk') && |blk'| == |s.blk| && Relink(s, o, offset / CAP, start, m, blk', used').blk == blk'
  {
    hide Ok, Room, AllAgree, WriteDisk, Relink, Power, FirstRun;
    WriteDiskAgrees(s, o, buf, offset);
    ChainReached(s, o, buf, offset);
    var (blk', used', _) := WriteDisk(s, o, buf, offset);
    var (start, m) := Added(s, offset % CAP, buf);
    RelinkShape(s, o, offset / CAP, start, m, blk', used');
  }

  lemma WriteAgrees(s: Fs, path: seq<string>, buf: seq<byte>, offset: nat)
    requires Ok(s) && Room(s, buf) && AllAgree(s.blk) && offset + |buf| < Power(8)
    ensures AllAgree(Write(s, path, buf, offset).0.blk) && |Write(s, path, buf, offset).0.blk| == |s.blk|
  {
    hide Ok, Room, AllAgree, WriteDisk, Relink, SetSize, Power, Resolve, Added;
    if Resolve(s, path).Some? {
      ResolveMeans(s, path);
      var o := Resolve(s, path).value.start;
      WriteDiskAgrees(s, o, buf, offset);
      var (blk', used', res) := WriteDisk(s, o, buf, offset);
      if res >= 0 {
        RelinkAgrees(s, o, buf, offset);
        ChainReached(s, o, buf, offset);
        var (start, m) := Added(s, offset % CAP, buf);
        if o in s.ref {
          SetSizeAgrees(Relink(s, o, offset / CAP, start, m, blk', used'), s.ref[o].0, s.ref[o].1, offset + |buf|);
        }
      }
    }
  }

  lemma ChainReached(s: Fs, o: int, buf: seq<byte>, offset: nat)
    requires Ok(s) && o in s.objs && Room(s, buf) && WriteDisk(s, o, buf, offset).2 >= 0
    ensures offset / CAP < |Chain(s, o)|
  {
    hide Ok, AppendRuns;
  }

  /** What the arguments of a call must fit: names are C strings, sizes fit their field. */
  predicate ArgumentsFit(op: Op)
    requires op.path != []
  {
    match op
    case Make(path, _) => CString(Last(path))
    case Unmake(_, _) => true
    case Put(_, buf, offset) => offset + |buf| < Power(8)
  }

  lemma StepAgrees(s: Fs, op: Op)
    requires Ok(s) && Called(s, op) && ArgumentsFit(op) && AllAgree(s.blk) && Numbered(s)
    ensures AllAgree(Step(s, op).0.blk) && |Step(s, op).0.blk| == |s.blk|
  {
    hide Ok, Create, Remove, Write, AllAgree, Numbered, Room, CString, Power;
    match op
    case Make(path, flag) => CreateAgrees(s, path, flag);
    case Unmake(path, flag) => RemoveAgrees(s, path, flag);
    case Put(path, buf, offset) => WriteAgrees(s, path, buf, offset);
  }

  lemma FormattedAgrees(image: seq<Block>, max: nat)
    requires |image| > ROOT && AllAgree(image)
    ensures AllAgree(Formatted(image, max).blk)
  {
    hide Agree, Fresh;
    FreshAgrees();
  }

  /** On every run, mended accidents included, the entries of every block are what its bytes are
      read as, whatever the block was used for before. */
  lemma {:induction false} RunsAgree(states: seq<Fs>, ops: seq<Op>, i: nat)
    requires IsRun(states, ops) && i < |states| && AllAgree(states[0].blk) && Numbered(states[0])
    requires forall j :: 0 <= j < |ops| ==> ops[j].path != [] && ArgumentsFit(ops[j])
    ensures AllAgree(states[i].blk) && Numbered(states[i])
    decreases i
  {
    hide Ok, Safe, Step, Next, Called, Lucky, Plain, AllAgree, ArgumentsFit, Power;
    if i > 0 {
      RunsAgree(states, ops, i - 1);
      RunsAreSafe(states, ops, i - 1);
      assert LuckyStep(states[i - 1], ops[i - 1], states[i]);
      NextOk(states[i - 1], ops[i - 1]);
      StepAgrees(states[i - 1], ops[i - 1]);
    }
  }
}
