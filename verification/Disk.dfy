/** Disk blocks, the bytes of directory entries, the chains that the blocks' next pointers form, and
    directory lookup along a chain. */
module Disk {
  import opened Paths

  newtype byte = x: int | 0 <= x < 256

  const ROOT: int := 8       // first block of the root directory: 1 + MAX_BITMAP_BLOCK_NUM
  const FIRST: int := 9      // where the search for free blocks begins
  const CAP: nat := 496      // MAX_DATA_IN_BLOCK
  const SLOTS: nat := 12     // entries of 40 bytes that fit in a block's data
  const NAME_MAX: nat := 12  // MAX_FILENAME
  const ENTRY: nat := 40     // sizeof(struct u_fs_inode): name 13, size 8, start 8, flag 4 and padding
  const NUMBERS: nat := 16   // where the size stands in it; start and flag follow

  /** flag 0: unused, 1: file, 2: directory. */
  datatype Dirent = Dirent(fname: string, fsize: nat, start: int, flag: int)

  /** A block's 496 payload bytes are kept in the two views the program takes of them: data are
      the bytes, slots the entries they are read as. Whatever writes the bytes writes both
      (module Layout). */
  datatype Block = Block(size: nat, next: int, data: seq<byte>, slots: seq<Dirent>)

  const FREE_ENTRY := Dirent("", 0, 0, 0)

  /** What init_new_blk leaves on a block: all zero, end of chain. */
  function Fresh(): (b: Block)
    ensures WfBlock(b) && forall k :: 0 <= k < SLOTS ==> b.slots[k] == FREE_ENTRY
  {
    Block(0, -1, seq(CAP, i => 0), seq(SLOTS, i => FREE_ENTRY))
  }

  predicate WfBlock(b: Block) {
    |b.data| == CAP && |b.slots| == SLOTS
  }

  /** data with buf's first bytes laid over it from off on. */
  function Overlay(data: seq<byte>, off: nat, bytes: seq<byte>): (r: seq<byte>)
    requires off + |bytes| <= |data|
    ensures |r| == |data|
  {
    data[..off] + bytes + data[off + |bytes|..]
  }

  // ---- entries as bytes

  /** The w low bytes of n, lowest first; for a negative n those of its two's complement. */
  function Bytes(n: int, w: nat): (r: seq<byte>)
    ensures |r| == w
    decreases w
  {
    if w == 0 then [] else [(n % 256) as byte] + Bytes(n / 256, w - 1)
  }

  function Number(s: seq<byte>): (n: nat) {
    if s == [] then 0 else s[0] as int + 256 * Number(s[1..])
  }

  /** The same bytes as a signed number. */
  function Signed(s: seq<byte>): int {
    if s != [] && s[|s| - 1] >= 128 then Number(s) - Power(|s|) else Number(s)
  }

  /** The numbers that w bytes can hold. */
  function Power(w: nat): (n: int)
    ensures n > 0
  {
    if w == 0 then 1 else 256 * Power(w - 1)
  }

  /** The name as strcpy leaves it: its characters and a NUL. */
  function NameBytes(name: string): (r: seq<byte>)
    ensures |r| <= NAME_MAX + 1
  {
    var n := if |name| <= NAME_MAX then name else name[..NAME_MAX];
    seq(|n|, i requires 0 <= i < |n| => (n[i] as int % 256) as byte) + [0]
  }

  /** The characters up to the first NUL. */
  function NameIn(s: seq<byte>): string {
    if s == [] || s[0] == 0 then "" else [s[0] as char] + NameIn(s[1..])
  }

  /** The entry that 40 bytes are read as. */
  function EntryIn40(s: seq<byte>): Dirent
    requires |s| == ENTRY
  {
    Dirent(NameIn(s[..NAME_MAX + 1]), Number(s[16..24]), Signed(s[24..32]), Signed(s[32..36]))
  }

  function Entries(data: seq<byte>): (r: seq<Dirent>)
    requires |data| == CAP
    ensures |r| == SLOTS
  {
    seq(SLOTS, k requires 0 <= k < SLOTS => EntryIn40(data[ENTRY * k..ENTRY * k + ENTRY]))
  }

  /** The bytes after the numbers of entry k have been assigned. */
  function WithNumbers(data: seq<byte>, k: int, e: Dirent): (r: seq<byte>)
    ensures |r| == |data|
  {
    if 0 <= k && ENTRY * k + ENTRY <= |data|
    then Overlay(data, ENTRY * k + NUMBERS, Bytes(e.fsize, 8) + Bytes(e.start, 8) + Bytes(e.flag, 4))
    else data
  }

  /** The bytes after a name has been copied into entry k. */
  function WithName(data: seq<byte>, k: int, name: string): (r: seq<byte>)
    ensures |r| == |data|
  {
    if 0 <= k && ENTRY * k + ENTRY <= |data| then Overlay(data, ENTRY * k, NameBytes(name)) else data
  }

  /** A block with its bytes replaced. */
  function WithData(b: Block, data: seq<byte>): (r: Block)
    requires |data| == CAP
    ensures WfBlock(r) && r.size == b.size && r.next == b.next && r.data == data
  {
    b.(data := data, slots := Entries(data))
  }

  /** A block with entry k written into it. */
  function WithEntry(b: Block, k: int, e: Dirent): (r: Block)
    requires 0 <= k < |b.slots|
    ensures r.slots == b.slots[k := e] && r.size == b.size && r.next == b.next && |r.data| == |b.data|
  {
    b.(slots := b.slots[k := e], data := WithNumbers(WithName(b.data, k, e.fname), k, e))
  }

  predicate Live(e: Dirent) {
    e.flag != 0
  }

  predicate Named(e: Dirent, name: string) {
    Live(e) && e.fname == name
  }

  // ---- chains

  function Head(c: seq<int>): int {
    if c == [] then -1 else c[0]
  }

  /** The next pointer the i-th block of the chain must hold. */
  function NextIn(c: seq<int>, i: nat): int {
    if i + 1 < |c| then c[i + 1] else -1
  }

  /** Following next pointers from b visits exactly c and ends in -1. */
  ghost predicate IsChain(blk: seq<Block>, b: int, c: seq<int>) {
    && b == Head(c)
    && forall i :: 0 <= i < |c| ==> 0 <= c[i] < |blk| && blk[c[i]].next == NextIn(c, i)
  }

  lemma ChainTail(blk: seq<Block>, b: int, c: seq<int>, n: nat)
    requires IsChain(blk, b, c) && n <= |c|
    ensures IsChain(blk, Head(c[n..]), c[n..])
  {
    forall i | 0 <= i < |c[n..]|
      ensures 0 <= c[n..][i] < |blk| && blk[c[n..][i]].next == NextIn(c[n..], i)
    {
      assert c[n..][i] == c[n + i];
    }
  }

  lemma ChainCons(blk: seq<Block>, b: int, c: seq<int>)
    requires 0 <= b < |blk| && IsChain(blk, blk[b].next, c)
    ensures IsChain(blk, b, [b] + c)
  {
    var d := [b] + c;
    forall i | 0 <= i < |d| ensures 0 <= d[i] < |blk| && blk[d[i]].next == NextIn(d, i) {
      if i > 0 {
        assert d[i] == c[i - 1] && NextIn(d, i) == NextIn(c, i - 1);
      }
    }
  }

  /** A start block has at most one chain. */
  lemma {:induction false} ChainUnique(blk: seq<Block>, b: int, c: seq<int>, d: seq<int>)
    requires IsChain(blk, b, c) && IsChain(blk, b, d)
    ensures c == d
    decreases |c|
  {
    if c != [] {
      assert c[0] == b == d[0];
      ChainTail(blk, b, c, 1);
      ChainTail(blk, b, d, 1);
      assert Head(c[1..]) == NextIn(c, 0) && Head(d[1..]) == NextIn(d, 0);
      ChainUnique(blk, Head(c[1..]), c[1..], d[1..]);
    }
  }

  /** A chain that ends is acyclic: no block occurs twice. */
  lemma ChainDistinct(blk: seq<Block>, b: int, c: seq<int>, i: nat, j: nat)
    requires IsChain(blk, b, c) && i < j < |c|
    ensures c[i] != c[j]
  {
    if c[i] == c[j] {
      ChainTail(blk, b, c, i);
      ChainTail(blk, b, c, j);
      ChainUnique(blk, c[i], c[i..], c[j..]);
    }
  }

  /** Blocks outside a chain do not matter to it. */
  lemma ChainFrame(blk: seq<Block>, blk': seq<Block>, b: int, c: seq<int>)
    requires IsChain(blk, b, c) && |blk| <= |blk'|
    requires forall x :: x in c ==> blk'[x].next == blk[x].next
    ensures IsChain(blk', b, c)
  {
    forall i | 0 <= i < |c|
      ensures 0 <= c[i] < |blk'| && blk'[c[i]].next == NextIn(c, i)
    {
      assert c[i] in c;
    }
  }

  function SetOf(c: seq<int>): (r: set<int>)
    ensures forall b :: b in r <==> b in c
  {
    set b | b in c
  }

  // ---- directory lookup

  /** First live slot at or after k that carries the name, or the number of slots. */
  function FindSlot(slots: seq<Dirent>, name: string, k: nat): (r: nat)
    requires k <= |slots|
    ensures k <= r <= |slots|
    ensures r < |slots| ==> Named(slots[r], name)
    ensures forall j :: k <= j < r ==> !Named(slots[j], name)
    decreases |slots| - k
  {
    if k == |slots| || Named(slots[k], name) then k else FindSlot(slots, name, k + 1)
  }

  /** First free slot at or after k, or the number of slots. */
  function FreeSlot(slots: seq<Dirent>, k: nat): (r: nat)
    requires k <= |slots|
    ensures k <= r <= |slots|
    ensures r < |slots| ==> !Live(slots[r])
    ensures forall j :: k <= j < r ==> Live(slots[j])
    decreases |slots| - k
  {
    if k == |slots| || !Live(slots[k]) then k else FreeSlot(slots, k + 1)
  }

  /** Lookups agree on slot lists that agree on who carries the name. */
  lemma {:induction false} FindSlotSame(slots: seq<Dirent>, slots': seq<Dirent>, name: string, k: nat)
    requires |slots| == |slots'| && k <= |slots|
    requires forall j :: 0 <= j < |slots| ==> (Named(slots[j], name) <==> Named(slots'[j], name))
    ensures FindSlot(slots, name, k) == FindSlot(slots', name, k)
    decreases |slots| - k
  {
    if k < |slots| && !Named(slots[k], name) {
      FindSlotSame(slots, slots', name, k + 1);
    }
  }

  function SlotsAt(blk: seq<Block>, b: int): seq<Dirent> {
    if 0 <= b < |blk| then blk[b].slots else []
  }

  /** What op_modify_attr writes into slot k of block b: the entry's name stays. */
  function ModifySlot(blk: seq<Block>, b: int, k: int, inode: Dirent): seq<Block> {
    if 0 <= b < |blk| && 0 <= k < |blk[b].slots|
    then
      var e := Dirent(blk[b].slots[k].fname, inode.fsize, inode.start, inode.flag);
      blk[b := blk[b].(slots := blk[b].slots[k := e], data := WithNumbers(blk[b].data, k, e))]
    else blk
  }

  /** The slot a lookup along the chain stops at: first block, then first slot. */
  function FindIn(blk: seq<Block>, c: seq<int>, name: string): (r: Option<(int, nat)>)
    ensures r.Some? ==> var (b, k) := r.value;
      b in c && k < |SlotsAt(blk, b)| && Named(SlotsAt(blk, b)[k], name)
    ensures r.None? ==>
        forall b :: b in c ==> forall k :: 0 <= k < |SlotsAt(blk, b)| ==> !Named(SlotsAt(blk, b)[k], name)
    decreases |c|
  {
    if c == [] then None
    else
      var k := FindSlot(SlotsAt(blk, c[0]), name, 0);
      if k < |SlotsAt(blk, c[0])| then Some((c[0], k)) else FindIn(blk, c[1..], name)
  }

  function EntryIn(blk: seq<Block>, c: seq<int>, name: string): Option<Dirent> {
    match FindIn(blk, c, name)
    case None => None
    case Some((b, k)) => Some(SlotsAt(blk, b)[k])
  }

  lemma {:induction false} FindFrame(blk: seq<Block>, blk': seq<Block>, c: seq<int>, name: string)
    requires forall b :: b in c ==> SlotsAt(blk', b) == SlotsAt(blk, b)
    ensures FindIn(blk', c, name) == FindIn(blk, c, name)
    decreases |c|
  {
    if c != [] {
      assert c[0] in c;
      FindFrame(blk, blk', c[1..], name);
    }
  }

  /** Leading blocks without the name are passed over. */
  lemma {:induction false} FindSkips(blk: seq<Block>, c: seq<int>, n: nat, name: string)
    requires n <= |c|
    requires forall i ::
        0 <= i < n ==> forall k :: 0 <= k < |SlotsAt(blk, c[i])| ==> !Named(SlotsAt(blk, c[i])[k], name)
    ensures FindIn(blk, c, name) == FindIn(blk, c[n..], name)
    decreases n
  {
    if n == 0 {
      assert c[0..] == c;
    } else {
      assert c[1..][n - 1..] == c[n..];
      forall i | 0 <= i < n - 1
        ensures forall k :: 0 <= k < |SlotsAt(blk, c[1..][i])| ==> !Named(SlotsAt(blk, c[1..][i])[k], name)
      {
        assert c[1..][i] == c[i + 1];
      }
      FindSkips(blk, c[1..], n - 1, name);
    }
  }

  // ---- file contents

  function DataAt(blk: seq<Block>, b: int): seq<byte> {
    if 0 <= b < |blk| then blk[b].data else []
  }

  /** The payload of a chain's blocks, in order. */
  function Content(blk: seq<Block>, c: seq<int>): seq<byte> {
    if c == [] then [] else DataAt(blk, c[0]) + Content(blk, c[1..])
  }

  function Take<T>(s: seq<T>, n: nat): seq<T> {
    if n <= |s| then s[..n] else s
  }

  lemma {:induction false} ContentFrame(blk: seq<Block>, blk': seq<Block>, c: seq<int>)
    requires forall b :: b in c ==> DataAt(blk', b) == DataAt(blk, b)
    ensures Content(blk', c) == Content(blk, c)
    decreases |c|
  {
    if c != [] {
      assert c[0] in c;
      ContentFrame(blk, blk', c[1..]);
    }
  }

  lemma {:induction false} ContentAppend(blk: seq<Block>, c: seq<int>, d: seq<int>)
    ensures Content(blk, c + d) == Content(blk, c) + Content(blk, d)
    decreases |c|
  {
    if c == [] {
      assert c + d == d;
    } else {
      assert (c + d)[1..] == c[1..] + d;
      ContentAppend(blk, c[1..], d);
    }
  }

  lemma {:induction false} ContentLength(blk: seq<Block>, c: seq<int>)
    requires forall b :: b in c ==> |DataAt(blk, b)| == CAP
    ensures |Content(blk, c)| == CAP * |c|
    decreases |c|
  {
    if c != [] {
      assert c[0] in c;
      ContentLength(blk, c[1..]);
    }
  }
}
