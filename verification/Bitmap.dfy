/** The bitmap blocks and the allocator that scans them. */
module Bitmaps {
  import opened Words
  import opened Runs

  /** The block numbers a bitmap marks used. */
  ghost function UsedIn(bs: seq<bv8>): set<int> {
    set b | 0 <= b < 8 * |bs| && BitSet(bs, b)
  }

  lemma ChangedBit(bs: seq<bv8>, blk: nat, flag: bool, b: nat)
    requires blk < 8 * |bs| && b < 8 * |bs|
    ensures BitSet(bs[blk / 8 := ChangedByte(bs[blk / 8], ByteMask(blk % 8), flag)], b)
       <==> if b == blk then flag else BitSet(bs, b)
  {
    hide ChangedByte, ByteMask, ByteBit;
    if b / 8 == blk / 8 {
      MaskedByte(bs[b / 8], blk % 8, b % 8, flag);
    }
  }

  lemma ChangeByte(bs: seq<bv8>, blk: nat, flag: bool)
    requires blk < 8 * |bs|
    ensures UsedIn(bs[blk / 8 := ChangedByte(bs[blk / 8], ByteMask(blk % 8), flag)])
         == if flag then UsedIn(bs) + {blk} else UsedIn(bs) - {blk}
  {
    hide ChangedByte, ByteMask, BitSet;
    var bs' := bs[blk / 8 := ChangedByte(bs[blk / 8], ByteMask(blk % 8), flag)];
    forall b: nat | b < 8 * |bs|
      ensures b in UsedIn(bs') <==> if b == blk then flag else b in UsedIn(bs)
    {
      ChangedBit(bs, blk, flag, b);
    }
  }

  /** A first byte of ones and zeros behind it mark blocks 0 to 7. */
  lemma FormattedBits(bs: seq<bv8>)
    requires |bs| > 0 && bs[0] == 0xFF && forall i :: 1 <= i < |bs| ==> bs[i] == 0
    ensures UsedIn(bs) == Blocks(0, 8)
  {
    hide ByteBit, BitSet;
    forall b: nat | b < 8 * |bs| ensures BitSet(bs, b) <==> b < 8 {
      ConstantByte(b % 8);
      BitOfByte(bs, b / 8, b % 8);
    }
  }

  lemma ConstantByte(r: nat)
    requires r < 8
    ensures ByteBit(0xFF, r) && !ByteBit(0, r)
  {
    ByteMaskValues();
  }

  lemma Splice4<T>(bs: seq<T>, at: nat, x: T)
    requires at + 4 <= |bs|
    ensures bs[..at] + [x, bs[at + 1], bs[at + 2], bs[at + 3]] + bs[at + 4..] == bs[at := x]
  {
  }

  /** One read-modify-write of a window changes one byte, and in it one bit. */
  lemma ChangeWindow(bs: seq<bv8>, at: nat, r: nat, flag: bool)
    requires at + 4 <= |bs| && r < 8
    ensures bs[..at] + Unpack(ChangedWord(Window(bs, at), WordMask(r), flag)) + bs[at + 4..]
         == bs[at := ChangedByte(bs[at], ByteMask(r), flag)]
  {
    hide ChangedWord, ChangedByte, Pack, Unpack, WordMask, ByteMask;
    LowWordMask(r);
    ChangeLowByte(bs[at], bs[at + 1], bs[at + 2], bs[at + 3], ByteMask(r), flag);
    Splice4(bs, at, ChangedByte(bs[at], ByteMask(r), flag));
  }

  /** The word w answers for the 32 blocks from base on. */
  ghost predicate Shows(w: bv32, used: set<int>, base: int) {
    forall k: nat | k < 32 :: Hit(w, WordMask(k)) <==> base + k in used
  }

  lemma WindowShows(bs: seq<bv8>, at: nat)
    requires at + 4 <= |bs|
    ensures Shows(Window(bs, at), UsedIn(bs), 8 * at)
  {
    hide Hit, Window, WordMask, BitSet;
    forall k: nat | k < 32
      ensures Hit(Window(bs, at), WordMask(k)) <==> 8 * at + k in UsedIn(bs)
    {
      WindowTestsBit(bs, at, k);
    }
  }

  class Bitmap {
    const bytes: array<bv8>
    const first: nat   // where the search begins
    const blocks: nat  // max_filesystem_in_block

    constructor (image: array<bv8>, first: nat, blocks: nat)
      ensures this.bytes == image && this.first == first && this.blocks == blocks
    {
      this.bytes, this.first, this.blocks := image, first, blocks;
    }

    ghost function Used(): set<int>
      reads bytes
    {
      UsedIn(bytes[..])
    }

    method ReadWord(at: nat) returns (w: bv32)
      requires at + 4 <= bytes.Length
      ensures w == Window(bytes[..], at) && Shows(w, Used(), 8 * at)
    {
      WindowShows(bytes[..], at);
      w := Window(bytes[..], at);
    }

    method WriteWord(at: nat, w: bv32)
      requires at + 4 <= bytes.Length
      modifies bytes
      ensures bytes[..] == old(bytes[..at]) + Unpack(w) + old(bytes[at + 4..])
    {
      var out := Unpack(w);
      bytes[at], bytes[at + 1], bytes[at + 2], bytes[at + 3] := out[0], out[1], out[2], out[3];
    }

    /** Reads a 32-bit window, changes one of its low eight bits, writes it back. */
    method SetBlk(blk: int, flag: bool) returns (res: int)
      requires -1 <= blk && blk / 8 + 4 <= bytes.Length
      modifies bytes
      ensures res == if blk == -1 then -1 else 0
      ensures Used() == if blk == -1 then old(Used()) else if flag then old(Used()) + {blk} else old(Used()) - {blk}
    {
      if blk == -1 {
        return -1;
      }
      var start, left := blk / 8, blk % 8;
      var f := ReadWord(start);
      WriteWord(start, ChangedWord(f, WordMask(left), flag));
      ChangeWindow(old(bytes[..]), start, left, flag);
      ChangeByte(old(bytes[..]), blk, flag);
      return 0;
    }

    /** Moves the mask up one bit, reading the next word when it was on the top bit. */
    method Roll(f: bv32, mask: bv32, at: nat, ghost k: nat) returns (f': bv32, mask': bv32, at': nat, ghost k': nat)
      requires at + 8 <= bytes.Length && k < 32
      requires Shows(f, Used(), 8 * at) && mask == WordMask(k)
      ensures at' <= at + 4 && k' < 32 && 8 * at' + k' == 8 * at + k + 1
      ensures Shows(f', Used(), 8 * at') && mask' == WordMask(k')
    {
      hide Shows, Used, Window, WordMask, AtTop, Shifted;
      RollMask(k);
      if AtTop(mask) {
        at', k' := at + 4, 0;
        f' := ReadWord(at');
        mask' := 1;
      } else {
        f', mask', at', k' := f, Shifted(mask), at, k + 1;
      }
    }

    /** The bit-by-bit scan from one start position. */
    method ScanRun(s: nat, num: nat) returns (temp: nat)
      requires s + num + 64 <= 8 * bytes.Length
      ensures temp == RunLen(Used(), s, num)
    {
      hide Hit, WordMask, Window, BitSet, RunLen;
      var start, left := s / 8, s % 8;
      var f := ReadWord(start);
      var mask, at: nat := WordMask(left), start;
      ghost var k: nat := left;
      temp := 0;
      while temp < num
        invariant 0 <= temp <= num && 0 <= k < 32 && 0 <= at && at + 4 <= bytes.Length
        invariant 8 * at + k == s + temp
        invariant Shows(f, Used(), 8 * at) && mask == WordMask(k)
        invariant forall j :: s <= j < s + temp ==> j !in Used()
      {
        if Hit(f, mask) {
          break;
        }
        f, mask, at, k := Roll(f, mask, at, k);
        temp := temp + 1;
      }
      RunLenUnique(Used(), s, num, temp);
    }

    /** Finds a run, marks it used and returns its length and start. */
    method SearchFreeBlk(num: nat) returns (max: nat, start_blk: int)
      requires blocks + num + 64 <= 8 * bytes.Length
      modifies bytes
      ensures Run(max, start_blk) == Best(old(Used()), first, blocks - 1, num)
      ensures Used() == old(Used()) + Blocks(start_blk, max)
    {
      ghost var hi := blocks - 1;
      var s, max_start := first, -1;
      max := 0;
      while s < blocks - 1
        invariant first <= s
        invariant IsBest(Used(), first, if s < hi then s else hi, num, Run(max, max_start))
        invariant Used() == old(Used())
      {
        var temp := ScanRun(s, num);
        if temp < num {
          forall b | s <= b <= s + temp ensures RunLen(Used(), b, num) <= temp {
            SkipIsSafe(Used(), s, num, temp, b);
          }
        }
        if temp > max {
          max, max_start := temp, s;
        }
        if temp == num {
          break;
        }
        s := temp + 1 + s;
      }
      BestUnique(Used(), first, hi, num, Run(max, max_start));
      start_blk := max_start;
      MarkRun(max_start, max);
    }

    method MarkRun(start: int, max: nat)
      requires max > 0 ==> 0 <= start && start + max + 64 <= 8 * bytes.Length
      modifies bytes
      ensures Used() == old(Used()) + Blocks(start, max)
    {
      var j := start;
      for i := 0 to max
        invariant j == start + i
        invariant Used() == old(Used()) + Blocks(start, i)
      {
        var _ := SetBlk(j, true);
        j := j + 1;
      }
    }
  }
}
