/** The outer loop of the older write, round by round: when it ends. And inputs on which that
    write does not store what it was given. */
module OldRounds {
  import opened Runs
  import opened Disk
  import opened FileData
  import opened OldUfs

  /** What the outer loop carries from one round to the next. */
  datatype Turn = Turn(blk: seq<Block>, used: set<int>, content: Block, rest: seq<byte>)

  predicate Roomy(t: Turn, max: nat) {
    |t.content.data| == OLD_CAP && max + Request(|t.rest|) <= |t.blk|
  }

  /** One round: a search for all that is left, then as many blocks as it found. */
  function Round(t: Turn, max: nat): (q: Turn)
    requires Roomy(t, max)
    ensures Roomy(q, max) && |q.rest| <= |t.rest|
  {
    var r := Best(t.used, OLD_FIRST, max - 1, Request(|t.rest|));
    BestMeans(t.used, OLD_FIRST, max - 1, Request(|t.rest|));
    var (blk, content, rest) := LayRun(t.blk, t.content, t.rest, r.start, r.len);
    FewerWanted(|rest|, |t.rest|);
    Turn(blk, t.used + Blocks(r.start, r.len), content, rest)
  }

  lemma FewerWanted(m: nat, n: nat)
    requires m <= n
    ensures Request(m) <= Request(n)
  {
  }

  /** At most n rounds; the loop stops when nothing is left. */
  function Rounds(t: Turn, max: nat, n: nat): (q: Turn)
    requires Roomy(t, max)
    ensures Roomy(q, max)
    decreases n
  {
    if n == 0 || t.rest == [] then t else Rounds(Round(t, max), max, n - 1)
  }

  lemma RoundsOne(t: Turn, max: nat, n: nat)
    requires Roomy(t, max)
    ensures t.rest == [] || n == 0 ==> Rounds(t, max, n) == t
    ensures t.rest != [] && n > 0 ==> Rounds(t, max, n) == Rounds(Round(t, max), max, n - 1)
  {
    hide Round;
  }

  /** A round whose search finds nothing leaves the disk, the bitmap and the rest of the buffer
      as they were. */
  lemma EmptyRound(t: Turn, max: nat)
    requires Roomy(t, max) && t.rest != []
    ensures Round(t, max) == t <==> forall b :: OLD_FIRST <= b < max - 1 ==> b in t.used
  {
    BestMeans(t.used, OLD_FIRST, max - 1, Request(|t.rest|));
    var r := Best(t.used, OLD_FIRST, max - 1, Request(|t.rest|));
    assert Blocks(r.start, 0) == {};
  }

  /** So on a full disk every later round is the same. */
  lemma {:induction false} SameForEver(t: Turn, max: nat, n: nat)
    requires Roomy(t, max) && t.rest != [] && forall b :: OLD_FIRST <= b < max - 1 ==> b in t.used
    ensures Rounds(t, max, n) == t
    decreases n
  {
    if n > 0 {
      EmptyRound(t, max);
      SameForEver(t, max, n - 1);
    }
  }

  lemma RoundsOn(t: Turn, max: nat)
    requires Roomy(t, max) && t.rest != []
    ensures NeverStuck(t.used, max, t.rest)
        <==> Round(t, max) != t && NeverStuck(Round(t, max).used, max, Round(t, max).rest)
    ensures Round(t, max) != t ==> |Round(t, max).rest| < |t.rest|
  {
    EmptyRound(t, max);
    BestMeans(t.used, OLD_FIRST, max - 1, Request(|t.rest|));
    hide LayRun;
  }

  /** The loop ends exactly when no search on the way comes back empty. */
  lemma LoopEndsExactly(t: Turn, max: nat)
    requires Roomy(t, max)
    ensures NeverStuck(t.used, max, t.rest) <==> exists n :: Rounds(t, max, n).rest == []
  {
    hide NeverStuck;
    if NeverStuck(t.used, max, t.rest) {
      var n := LoopEnds(t, max);
    }
    if n :| Rounds(t, max, n).rest == [] {
      EndedNotStuck(t, max, n);
    }
  }

  lemma {:induction false} EndedNotStuck(t: Turn, max: nat, n: nat)
    requires Roomy(t, max) && Rounds(t, max, n).rest == []
    ensures NeverStuck(t.used, max, t.rest)
    decreases n
  {
    hide NeverStuck, Round, Rounds;
    RoundsOne(t, max, n);
    if t.rest == [] {
      NothingLeft(t.used, max);
    } else {
      RoundsOn(t, max);
      if Round(t, max) == t {
        Stays(t, max, n);
      }
      EndedNotStuck(Round(t, max), max, n - 1);
    }
  }

  lemma NothingLeft(used: set<int>, max: nat)
    ensures NeverStuck(used, max, [])
  {
  }

  lemma {:induction false} Stays(t: Turn, max: nat, n: nat)
    requires Roomy(t, max) && Round(t, max) == t
    ensures Rounds(t, max, n) == t
    decreases n
  {
    hide Round;
    if n > 0 && t.rest != [] {
      Stays(t, max, n - 1);
    }
  }

  /** The write's specification, from the round on that t begins. */
  function LaidFrom(t: Turn, max: nat): (seq<Block>, set<int>)
    requires Roomy(t, max) && NeverStuck(t.used, max, t.rest)
  {
    if t.rest == [] then (t.blk, t.used)
    else
      NotStuck(t.used, max, t.rest);
      var r := Best(t.used, OLD_FIRST, max - 1, Request(|t.rest|));
      LayRuns(t.blk, t.used + Blocks(r.start, r.len), max, t.content, t.rest, r)
  }

  lemma RoundLays(t: Turn, max: nat)
    requires Roomy(t, max) && NeverStuck(t.used, max, t.rest) && NeverStuck(Round(t, max).used, max, Round(t, max).rest)
    ensures t.rest != [] ==> LaidFrom(t, max) == LaidFrom(Round(t, max), max)
  {
    hide NeverStuck, LayRun, Best, IsBest, Blocks, AfterRun, Request;
    if t.rest != [] {
      NotStuck(t.used, max, t.rest);
    }
  }

  /** And then it leaves what the specification of the write says, after at most as many rounds
      as there are bytes. */
  lemma {:induction false} LoopEnds(t: Turn, max: nat) returns (n: nat)
    requires Roomy(t, max) && NeverStuck(t.used, max, t.rest)
    ensures n <= |t.rest| && Rounds(t, max, n).rest == []
    ensures (Rounds(t, max, n).blk, Rounds(t, max, n).used) == LaidFrom(t, max)
    decreases |t.rest|
  {
    hide NeverStuck, LayRuns, Round, Rounds;
    if t.rest == [] {
      n := 0;
      RoundsOne(t, max, n);
    } else {
      hide LaidFrom;
      RoundsOn(t, max);
      var m := LoopEnds(Round(t, max), max);
      RoundLays(t, max);
      n := m + 1;
      RoundsOne(t, max, n);
    }
  }

  // ---- inputs

  /** strncpy drops what stands behind a NUL. */
  lemma NulCutsOff()
    ensures Received(OLD_CAP, [0, 1]) == [0, 0]
  {
    var buf: seq<byte> := [0, 1];
    assert buf[..2] == buf && buf[2..] == [];
    assert Pieces([]) == [];
  }

  /** A write into a file of one block, which it fits. */
  lemma OneBlock(f: File, b: int, max: nat, buf: seq<byte>, offset: nat)
    requires Stands(f, max) && f.chain == [b] && offset + |buf| < OLD_CAP && offset <= f.fsize && max + 1 <= |f.blk|
    ensures Callable(f.blk, f.used, max, [b], buf, offset) && OneRunDoes(f.blk, f.used, max, [b], buf, offset)
    ensures NewChain(f.blk, f.used, max, [b], buf, offset) == [b]
    ensures var (blk', _, r, fsize') := Write(f.blk, f.used, max, [b], f.fsize, buf, offset);
      r == |buf| && fsize' == offset + |buf| && Sum(blk', [b]) == f.fsize + |buf|
  {
    hide LayRuns, Copied;
    TextOne(f.blk, b);
    var blk' := f.blk[b := PatchedAt(f.blk[b], offset, buf).(next := -1)];
    TextOne(blk', b);
    assert Walk(f.blk, [b], offset) == (0, offset);
    assert Remainder(offset, buf) == [];
    assert [b][..1] + RunSeq(-1, 0) == [b];
  }

  /** An empty file, then two bytes at its end, then one byte at offset 1: the block has size 3,
      the recorded size is 2. */
  lemma MiddleWritten(f: File, b: int, max: nat) returns (f1: File)
    requires 0 <= b < |f.blk| && max + 1 <= |f.blk| && b in f.used && f.chain == [b] && f.fsize == 0
    requires f.blk[b].size == 0 && f.blk[b].next == -1 && |f.blk[b].data| == OLD_CAP
    ensures Stands(f, max) && AppendStep(f, f1, max, [1, 2]) && Stands(f1, max)
    ensures Callable(f1.blk, f1.used, max, f1.chain, [9], 1)
    ensures var (blk', used', r, fsize') := Write(f1.blk, f1.used, max, f1.chain, f1.fsize, [9], 1);
      var c' := NewChain(f1.blk, f1.used, max, f1.chain, [9], 1);
      r == 1 && fsize' == 2 && Sum(blk', c') == 3 && !IsFile(blk', used', max, c', fsize')
  {
    hide Callable, OneRunDoes, NewChain, Write, Walk, Text, Sum, Sound, FullToLast;
    EmptyFile(f, b, max);
    OneBlock(f, b, max, [1, 2], 0);
    var (blk', used', _, fsize') := Write(f.blk, f.used, max, [b], 0, [1, 2], 0);
    f1 := File(blk', used', [b], fsize');
    AppendAddsText(f, f1, max, [1, 2]);
    OneBlock(f1, b, max, [9], 1);
  }

  /** A volume of 1300 blocks, all in use, and one byte to write. */
  function FullVolume(): Turn {
    var zero := Block(0, -1, seq(OLD_CAP, i => 0), []);
    Turn(seq(1400, i => zero), Blocks(0, 1300), zero, [1])
  }

  lemma NeverEnds(n: nat)
    ensures Roomy(FullVolume(), 1300) && Rounds(FullVolume(), 1300, n) == FullVolume() && FullVolume().rest != []
    ensures !NeverStuck(FullVolume().used, 1300, FullVolume().rest)
  {
    hide Blocks, Rounds, NeverStuck;
    var t := FullVolume();
    SameForEver(t, 1300, n);
    if NeverStuck(t.used, 1300, t.rest) {
      var m := LoopEnds(t, 1300);
      SameForEver(t, 1300, m);
    }
  }
}
