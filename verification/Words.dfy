/** The packed bitmap as the program sees it: a byte string, read and written through
    32-bit little-endian windows that may start at any byte. */
module Words {

  /** The bit selected inside one byte. */
  function ByteMask(r: nat): (m: bv8)
    requires r < 8
    decreases r
  {
    if r == 0 then 1 else ByteMask(r - 1) << 1
  }

  /** The bit selected inside a window: 1 shifted left k times. */
  function WordMask(k: nat): (m: bv32)
    requires k < 32
    decreases k
  {
    if k == 0 then 1 else WordMask(k - 1) << 1
  }

  /** The search's test: the selected bit of w is set. */
  predicate Hit(w: bv32, mask: bv32) {
    w & mask == mask
  }

  /** The search's refill test. */
  predicate AtTop(mask: bv32) {
    mask & 0x80000000 == 0x80000000
  }

  function Shifted(mask: bv32): bv32 {
    mask << 1
  }

  /** A word with the selected bit set or cleared. */
  function ChangedWord(w: bv32, mask: bv32, flag: bool): bv32 {
    if flag then w | mask else w & !mask
  }

  function ChangedByte(b: bv8, mask: bv8, flag: bool): bv8 {
    if flag then b | mask else b & !mask
  }

  /** Four bytes read as one word, low byte first. */
  function Pack(b0: bv8, b1: bv8, b2: bv8, b3: bv8): bv32 {
    (b0 as bv32) | ((b1 as bv32) << 8) | ((b2 as bv32) << 16) | ((b3 as bv32) << 24)
  }

  function Window(bs: seq<bv8>, at: nat): bv32
    requires at + 4 <= |bs|
  {
    Pack(bs[at], bs[at + 1], bs[at + 2], bs[at + 3])
  }

  /** Bit r of a byte. */
  predicate ByteBit(x: bv8, r: nat)
    requires r < 8
  {
    x & ByteMask(r) != 0
  }

  /** Block b is marked used: bit b % 8 of byte b / 8. */
  predicate BitSet(bs: seq<bv8>, b: nat)
    requires b < 8 * |bs|
  {
    ByteBit(bs[b / 8], b % 8)
  }

  lemma ByteMaskValues()
    ensures ByteMask(0) == 1 && ByteMask(1) == 2 && ByteMask(2) == 4 && ByteMask(3) == 8
    ensures ByteMask(4) == 16 && ByteMask(5) == 32 && ByteMask(6) == 64 && ByteMask(7) == 128
  {
    assert ByteMask(2) == 4;
    assert ByteMask(4) == 16;
    assert ByteMask(6) == 64;
  }

  lemma {:induction false} LowWordMask(r: nat)
    requires r < 8
    ensures WordMask(r) == ByteMask(r) as bv32
  {
    if r > 0 {
      LowWordMask(r - 1);
      ByteMaskValues();
    }
  }

  predicate HasAll(x: bv8, m: bv8) {
    x & m == m
  }

  /** A byte-wide mask moved to byte q of a word. */
  function Lane(m: bv8, q: nat): bv32
    requires q < 4
  {
    if q == 0 then m as bv32 else if q == 1 then (m as bv32) << 8
    else if q == 2 then (m as bv32) << 16 else (m as bv32) << 24
  }

  lemma HitByte0(b0: bv8, b1: bv8, b2: bv8, b3: bv8, m: bv8)
    ensures Hit(Pack(b0, b1, b2, b3), Lane(m, 0)) <==> HasAll(b0, m)
  {
  }

  lemma HitByte1(b0: bv8, b1: bv8, b2: bv8, b3: bv8, m: bv8)
    ensures Hit(Pack(b0, b1, b2, b3), Lane(m, 1)) <==> HasAll(b1, m)
  {
  }

  lemma HitByte2(b0: bv8, b1: bv8, b2: bv8, b3: bv8, m: bv8)
    ensures Hit(Pack(b0, b1, b2, b3), Lane(m, 2)) <==> HasAll(b2, m)
  {
  }

  lemma HitByte3(b0: bv8, b1: bv8, b2: bv8, b3: bv8, m: bv8)
    ensures Hit(Pack(b0, b1, b2, b3), Lane(m, 3)) <==> HasAll(b3, m)
  {
  }

  /** Bit 8 * q + r of a word is bit r of its byte q. */
  lemma {:induction false} WordMaskAt(q: nat, r: nat)
    requires q < 4 && r < 8
    ensures WordMask(8 * q + r) == Lane(ByteMask(r), q)
    decreases q, r
  {
    ByteMaskValues();
    if q == 0 {
      LowWordMask(r);
    } else if r == 0 {
      WordMaskAt(q - 1, 7);
    } else {
      WordMaskAt(q, r - 1);
    }
  }

  lemma HitLane(b0: bv8, b1: bv8, b2: bv8, b3: bv8, m: bv8, q: nat)
    requires q < 4
    ensures Hit(Pack(b0, b1, b2, b3), Lane(m, q)) <==> HasAll([b0, b1, b2, b3][q], m)
  {
    hide *;
    if q == 0 {
      HitByte0(b0, b1, b2, b3, m);
    } else if q == 1 {
      HitByte1(b0, b1, b2, b3, m);
    } else if q == 2 {
      HitByte2(b0, b1, b2, b3, m);
    } else {
      HitByte3(b0, b1, b2, b3, m);
    }
  }

  lemma OneBitMask(b: bv8, r: nat)
    requires r < 8
    ensures HasAll(b, ByteMask(r)) <==> ByteBit(b, r)
  {
    ByteMaskValues();
  }

  lemma PackHits(b0: bv8, b1: bv8, b2: bv8, b3: bv8, q: nat, r: nat)
    requires q < 4 && r < 8
    ensures Hit(Pack(b0, b1, b2, b3), WordMask(8 * q + r)) <==> ByteBit([b0, b1, b2, b3][q], r)
  {
    hide *;
    WordMaskAt(q, r);
    HitLane(b0, b1, b2, b3, ByteMask(r), q);
    OneBitMask([b0, b1, b2, b3][q], r);
  }

  /** The test the search makes: the window at byte `at`, under the mask for its bit k,
      answers for block 8 * at + k and for no other. */
  lemma WindowTestsBit(bs: seq<bv8>, at: nat, k: nat)
    requires at + 4 <= |bs| && k < 32
    ensures Hit(Window(bs, at), WordMask(k)) <==> BitSet(bs, 8 * at + k)
  {
    hide Hit, Pack, WordMask, ByteBit, BitSet;
    var q, r := k / 8, k % 8;
    PackHits(bs[at], bs[at + 1], bs[at + 2], bs[at + 3], q, r);
    BitOfByte(bs, at + q, r);
    assert [bs[at], bs[at + 1], bs[at + 2], bs[at + 3]][q] == bs[at + q];
  }

  lemma BitOfByte(bs: seq<bv8>, i: nat, r: nat)
    requires i < |bs| && r < 8
    ensures BitSet(bs, 8 * i + r) <==> ByteBit(bs[i], r)
  {
    hide ByteBit;
    assert (8 * i + r) / 8 == i && (8 * i + r) % 8 == r;
  }

  lemma TopBit(k: nat)
    requires k < 32
    ensures WordMask(k) & 0x80000000 == 0x80000000 <==> k == 31
  {
    WordMaskAt(k / 8, k % 8);
    ByteMaskValues();
  }

  /** Rolling: the refill test fires exactly on the window's last bit, and otherwise the
      shifted mask selects the next bit. */
  lemma RollMask(k: nat)
    requires k < 32
    ensures AtTop(WordMask(k)) <==> k == 31
    ensures k < 31 ==> Shifted(WordMask(k)) == WordMask(k + 1)
    ensures WordMask(0) == 1
  {
    assert AtTop(WordMask(k)) <==> k == 31 by {
      hide WordMask;
      TopBit(k);
    }
    assert WordMask(0) == 1;
  }

  /** The four bytes a word is written back as. */
  function Unpack(w: bv32): seq<bv8> {
    [(w & 0xFF) as bv8, ((w >> 8) & 0xFF) as bv8, ((w >> 16) & 0xFF) as bv8, ((w >> 24) & 0xFF) as bv8]
  }

  lemma OrLowByte(b0: bv8, b1: bv8, b2: bv8, b3: bv8, m: bv8)
    ensures Unpack(Pack(b0, b1, b2, b3) | (m as bv32)) == [b0 | m, b1, b2, b3]
  {
  }

  lemma AndNotLowByte(b0: bv8, b1: bv8, b2: bv8, b3: bv8, m: bv8)
    ensures Unpack(Pack(b0, b1, b2, b3) & !(m as bv32)) == [b0 & !m, b1, b2, b3]
  {
  }

  lemma ChangeLowByte(b0: bv8, b1: bv8, b2: bv8, b3: bv8, m: bv8, flag: bool)
    ensures Unpack(ChangedWord(Pack(b0, b1, b2, b3), m as bv32, flag)) == [ChangedByte(b0, m, flag), b1, b2, b3]
  {
    hide Pack, Unpack;
    if flag {
      OrLowByte(b0, b1, b2, b3, m);
    } else {
      AndNotLowByte(b0, b1, b2, b3, m);
    }
  }

  lemma MaskedBits(b: bv8, r: nat, t: nat)
    requires r < 8 && t < 8
    ensures (b | ByteMask(r)) & ByteMask(t) != 0 <==> t == r || b & ByteMask(t) != 0
    ensures (b & !ByteMask(r)) & ByteMask(t) != 0 <==> t != r && b & ByteMask(t) != 0
  {
    ByteMaskValues();
  }

  /** Setting or clearing one bit of a byte leaves the byte's other bits alone. */
  lemma MaskedByte(b: bv8, r: nat, t: nat, flag: bool)
    requires r < 8 && t < 8
    ensures ByteBit(ChangedByte(b, ByteMask(r), flag), t) <==> if t == r then flag else ByteBit(b, t)
  {
    hide ByteMask;
    MaskedBits(b, r, t);
  }
}
