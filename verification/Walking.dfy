/** What path resolution needs of the disk, also in the middle of an operation, when the
    objects' lists do not match the blocks yet. */
module Walking {
  import opened Disk
  import opened Tree
  import opened Creating
  import opened Removing

  /** Directory d can be scanned: its chain is on the disk and its slots are well formed. */
  ghost predicate Scannable(s: Fs, d: int) {
    && IsDir(s, d) && Chain(s, d) != [] && Chain(s, d)[0] == d && IsChain(s.blk, d, Chain(s, d))
    && (forall b :: b in Chain(s, d) ==> 0 <= b < |s.blk| && |s.blk[b].slots| == SLOTS)
    && (forall b, k :: b in Chain(s, d) && 0 <= k < SLOTS ==> 0 <= s.blk[b].slots[k].flag <= 2)
  }

  /** Every proper prefix of the path that leads anywhere leads to such a directory. */
  ghost predicate Walkable(s: Fs, c: seq<string>) {
    forall i :: 0 <= i < |c| && Resolve(s, c[..i]).Some? ==>
      Resolve(s, c[..i]).value.flag == 2 && Scannable(s, Resolve(s, c[..i]).value.start)
  }

  /** What the kernel checks before it hands a path on: only directories have children. */
  ghost predicate PrefixDirs(s: Fs, c: seq<string>) {
    forall i :: 0 <= i < |c| && Resolve(s, c[..i]).Some? ==> Resolve(s, c[..i]).value.flag == 2
  }

  lemma DirScannable(s: Fs, d: int)
    requires Ok(s) && IsDir(s, d)
    ensures Scannable(s, d)
  {
    DirBounds(s, d);
    assert ObjOk(s, d);
    forall b, k | b in Chain(s, d) && 0 <= k < SLOTS
      ensures 0 <= b < |s.blk| && |s.blk[b].slots| == SLOTS && 0 <= s.blk[b].slots[k].flag <= 2
    {
      InChain(s, d, b);
      AllWf(s);
      DirSlot(s, b, k);
    }
  }

  lemma OkWalkable(s: Fs, c: seq<string>)
    requires Ok(s) && PrefixDirs(s, c)
    ensures Walkable(s, c)
  {
    hide Ok, Scannable, Resolve;
    forall i | 0 <= i < |c| && Resolve(s, c[..i]).Some? ensures Scannable(s, Resolve(s, c[..i]).value.start) {
      ResolveMeans(s, c[..i]);
      DirScannable(s, Resolve(s, c[..i]).value.start);
    }
  }

  /** The directories on the way to c are untouched by a change of blocks. */
  ghost predicate WayKept(s: Fs, blk': seq<Block>, c: seq<string>) {
    && |blk'| == |s.blk|
    && forall i, b ::
        0 <= i < |c| && Resolve(s, c[..i]).Some? && b in Chain(s, Resolve(s, c[..i]).value.start) && 0 <= b < |blk'| ==>
          blk'[b] == s.blk[b]
  }

  lemma {:induction false} ResolveKept(s: Fs, blk': seq<Block>, c: seq<string>)
    requires Walkable(s, c) && WayKept(s, blk', c)
    ensures Resolve(s.(blk := blk'), c) == Resolve(s, c)
    decreases |c|
  {
    if c != [] {
      var f := Front(c);
      assert forall i :: 0 <= i < |f| ==> f[..i] == c[..i];
      ResolveKept(s, blk', f);
      var r := Resolve(s, f);
      assert f == c[..|c| - 1];
      if r.Some? {
        FindFrame(s.blk, blk', Chain(s, r.value.start), Last(c));
        if FindIn(s.blk, Chain(s, r.value.start), Last(c)).Some? {
          assert FindIn(s.blk, Chain(s, r.value.start), Last(c)).value.0 in Chain(s, r.value.start);
        }
      }
    }
  }

  lemma WalkableKept(s: Fs, blk': seq<Block>, c: seq<string>)
    requires Walkable(s, c) && WayKept(s, blk', c)
    ensures Walkable(s.(blk := blk'), c)
  {
    var s' := s.(blk := blk');
    forall i | 0 <= i < |c| && Resolve(s', c[..i]).Some?
      ensures Resolve(s', c[..i]).value.flag == 2 && Scannable(s', Resolve(s', c[..i]).value.start)
    {
      assert forall j :: 0 <= j < i ==> c[..i][..j] == c[..j];
      ResolveKept(s, blk', c[..i]);
      ChainFrame(s.blk, blk', Resolve(s, c[..i]).value.start, Chain(s, Resolve(s, c[..i]).value.start));
    }
  }

  /** Only the lists of objects and the blocks matter to resolution. */
  lemma {:induction false} ResolveUsed(s: Fs, t: Fs, c: seq<string>)
    requires t.blk == s.blk && t.objs == s.objs
    ensures Resolve(t, c) == Resolve(s, c)
    decreases |c|
  {
    if c != [] {
      ResolveUsed(s, t, Front(c));
    }
  }

  lemma WalkableUsed(s: Fs, t: Fs, c: seq<string>)
    requires t.blk == s.blk && t.objs == s.objs && Walkable(s, c)
    ensures Walkable(t, c)
  {
    forall i | 0 <= i < |c| ensures Resolve(t, c[..i]) == Resolve(s, c[..i]) {
      ResolveUsed(s, t, c[..i]);
    }
  }

  lemma FrontWalkable(s: Fs, c: seq<string>)
    requires Walkable(s, c) && c != []
    ensures Walkable(s, Front(c))
    ensures Resolve(s, Front(c)).Some? ==>
        Resolve(s, Front(c)).value.flag == 2 && Scannable(s, Resolve(s, Front(c)).value.start)
  {
    assert forall i :: 0 <= i < |Front(c)| ==> Front(c)[..i] == c[..i];
    assert c[..|c| - 1] == Front(c);
  }

  /** op_modify_attr: the entry found under the path gets a new size, start and kind. */
  function Modified(s: Fs, c: seq<string>, inode: Dirent): (seq<Block>, int)
    requires c != []
  {
    match Resolve(s, Front(c))
    case None => (s.blk, -ENOENT)
    case Some(p) =>
      match FindIn(s.blk, Chain(s, p.start), Last(c))
      case None => (s.blk, -ENOENT)
      case Some((b, k)) => (ModifySlot(s.blk, b, k, inode), 0)
  }

  // ---- following next pointers that may run in circles

  /** From b, next pointers stay inside the region or end. */
  ghost predicate Closed(blk: seq<Block>, b: int, region: set<int>) {
    && (b == -1 || b in region)
    && forall x :: x in region ==> ROOT <= x < |blk| && (blk[x].next == -1 || blk[x].next in region)
  }

  /** t visits distinct blocks, each the next of the one before, and `next` is where it goes on. */
  ghost predicate TrailTo(blk: seq<Block>, b: int, t: seq<int>, next: int) {
    && (forall i :: 0 <= i < |t| ==> ROOT <= t[i] < |blk|)
    && (forall i, j :: 0 <= i < j < |t| ==> t[i] != t[j])
    && (t != [] ==> t[0] == b)
    && (forall i :: 0 <= i < |t| - 1 ==> blk[t[i]].next == NextIn(t, i))
    && (if t == [] then next == b else next == blk[t[|t| - 1]].next || (next == -1 && blk[t[|t| - 1]].next in t))
  }

  /** All blocks reached from b, in order, each once. */
  ghost predicate IsTrail(blk: seq<Block>, b: int, t: seq<int>) {
    TrailTo(blk, b, t, -1)
  }

  /** Blocks of the region that lead on. */
  ghost function Pending(blk: seq<Block>, region: set<int>): set<int> {
    set x | x in region && 0 <= x < |blk| && blk[x].next != -1
  }

  lemma ZeroNothing(blk: seq<Block>)
    ensures Zeroed(blk, SetOf([])) == blk
  {
  }

  lemma ZeroAgain(blk: seq<Block>, b: int, t: seq<int>, next: int)
    requires TrailTo(blk, b, t, next) && next in t
    ensures TrailTo(blk, b, t, -1)
  {
  }

  lemma ZeroFirst(blk: seq<Block>, b: int, t: seq<int>, next: int)
    requires TrailTo(blk, b, t, next) && 0 <= next < |blk| && ROOT <= next && next !in t
    ensures TrailTo(blk, b, t + [next], blk[next].next)
  {
    var u := t + [next];
    forall i | 0 <= i < |u| - 1 ensures blk[u[i]].next == NextIn(u, i) {
      assert u[i] == t[i] && (i < |t| - 1 ==> blk[t[i]].next == NextIn(t, i) == NextIn(u, i));
    }
    hide NextIn;
  }

  lemma ZeroOneMore(blk: seq<Block>, b: int, t: seq<int>, next: int)
    requires TrailTo(blk, b, t, next) && 0 <= next < |blk| && ROOT <= next
    ensures next in t ==>
        Zeroed(blk, SetOf(t))[next := Fresh()] == Zeroed(blk, SetOf(t)) && Zeroed(blk, SetOf(t))[next].next == -1
    ensures next !in t ==> Zeroed(blk, SetOf(t))[next := Fresh()] == Zeroed(blk, SetOf(t + [next]))
    ensures next !in t ==> Zeroed(blk, SetOf(t))[next] == blk[next]
    ensures next in t ==> TrailTo(blk, b, t, -1)
    ensures next !in t ==> TrailTo(blk, b, t + [next], blk[next].next)
  {
    hide TrailTo;
    if next in t {
      ZeroAgain(blk, b, t, next);
    } else {
      ZeroFirst(blk, b, t, next);
    }
  }

  lemma PendingDrops(blk: seq<Block>, region: set<int>, b: int)
    requires b in region && 0 <= b < |blk|
    ensures blk[b].next != -1 ==> Pending(blk[b := Fresh()], region) < Pending(blk, region)
    ensures blk[b].next == -1 ==> Pending(blk[b := Fresh()], region) == Pending(blk, region)
  {
    if blk[b].next != -1 {
      assert b in Pending(blk, region) && b !in Pending(blk[b := Fresh()], region);
    }
  }

  /** On a disk whose next pointers are all -1 or in range, every start block qualifies. */
  lemma WholeDiskClosed(blk: seq<Block>, b: int)
    requires b == -1 || ROOT <= b < |blk|
    requires forall x :: ROOT <= x < |blk| ==> blk[x].next == -1 || ROOT <= blk[x].next < |blk|
    ensures Closed(blk, b, SetOf(RangeSeq(ROOT, |blk|)))
  {
    forall x | ROOT <= x < |blk| ensures x in SetOf(RangeSeq(ROOT, |blk|)) {
      assert RangeSeq(ROOT, |blk|)[x - ROOT] == x;
    }
  }

  function RangeSeq(lo: int, hi: int): (r: seq<int>)
    ensures forall x :: x in r <==> lo <= x < hi
    ensures forall i :: 0 <= i < |r| ==> r[i] == lo + i
    ensures |r| == if lo <= hi then hi - lo else 0
    decreases hi - lo
  {
    if lo >= hi then [] else RangeSeq(lo, hi - 1) + [hi - 1]
  }

  /** The block n steps after b; -1 when the pointers have ended. */
  function After(blk: seq<Block>, b: int, n: nat): int
    decreases n
  {
    if n == 0 || !(0 <= b < |blk|) then b else After(blk, blk[b].next, n - 1)
  }

  /** A trail holds exactly the blocks that some number of steps leads to, cycles or not. */
  lemma TrailReaches(blk: seq<Block>, b: int, t: seq<int>)
    requires IsTrail(blk, b, t)
    ensures forall i :: 0 <= i < |t| ==> After(blk, b, i) == t[i]
    ensures forall n: nat :: After(blk, b, n) == -1 || After(blk, b, n) in t
  {
    forall i | 0 <= i < |t| ensures After(blk, b, i) == t[i] {
      AfterAt(blk, b, t, i);
    }
    forall n: nat ensures After(blk, b, n) == -1 || After(blk, b, n) in t {
      AfterStays(blk, b, t, n);
    }
  }

  lemma {:induction false} AfterStep(blk: seq<Block>, b: int, n: nat)
    requires After(blk, b, n) == -1 || 0 <= After(blk, b, n) < |blk|
    ensures After(blk, b, n + 1) == if After(blk, b, n) == -1 then -1 else blk[After(blk, b, n)].next
    decreases n
  {
    if n > 0 && 0 <= b < |blk| {
      AfterStep(blk, blk[b].next, n - 1);
    }
  }

  lemma {:induction false} AfterAt(blk: seq<Block>, b: int, t: seq<int>, i: nat)
    requires IsTrail(blk, b, t) && i < |t|
    ensures After(blk, b, i) == t[i]
    decreases i
  {
    if i > 0 {
      AfterAt(blk, b, t, i - 1);
      AfterStep(blk, b, i - 1);
      assert blk[t[i - 1]].next == NextIn(t, i - 1) == t[i];
    }
  }

  lemma {:induction false} AfterStays(blk: seq<Block>, b: int, t: seq<int>, n: nat)
    requires IsTrail(blk, b, t)
    ensures After(blk, b, n) == -1 || After(blk, b, n) in t
    decreases n
  {
    if n > 0 {
      hide IsTrail;
      AfterStays(blk, b, t, n - 1);
      if After(blk, b, n - 1) != -1 {
        StepInTrail(blk, b, t, After(blk, b, n - 1));
      }
      AfterStep(blk, b, n - 1);
    } else {
      assert b == -1 || t[0] == b;
    }
  }

  lemma StepInTrail(blk: seq<Block>, b: int, t: seq<int>, x: int)
    requires IsTrail(blk, b, t) && x in t
    ensures 0 <= x < |blk| && (blk[x].next == -1 || blk[x].next in t)
  {
    var i :| 0 <= i < |t| && t[i] == x;
    assert i < |t| - 1 ==> blk[t[i]].next == NextIn(t, i) == t[i + 1];
  }

  /** On an acyclic chain the blocks reached are exactly the chain's. */
  lemma TrailOfChain(blk: seq<Block>, b: int, c: seq<int>, t: seq<int>)
    requires IsChain(blk, b, c) && IsTrail(blk, b, t)
    ensures t == c
  {
    forall i | 0 <= i < |t| ensures i < |c| && t[i] == c[i] {
      TrailAt(blk, b, c, t, i);
    }
    if |t| < |c| && t != [] {
      var n := |t|;
      assert blk[c[n - 1]].next == NextIn(c, n - 1) == c[n];
      forall j | 0 <= j < n ensures t[j] != c[n] {
        ChainDistinct(blk, b, c, j, n);
      }
    }
  }

  lemma {:induction false} TrailAt(blk: seq<Block>, b: int, c: seq<int>, t: seq<int>, i: nat)
    requires IsChain(blk, b, c) && IsTrail(blk, b, t) && i < |t|
    ensures i < |c| && t[i] == c[i]
    decreases i
  {
    if i > 0 {
      TrailAt(blk, b, c, t, i - 1);
      assert blk[t[i - 1]].next == NextIn(t, i - 1) == t[i];
      assert blk[c[i - 1]].next == NextIn(c, i - 1);
    }
  }

  lemma ChainClosed(blk: seq<Block>, b: int, c: seq<int>)
    requires IsChain(blk, b, c) && forall x :: x in c ==> ROOT <= x
    ensures Closed(blk, b, SetOf(c))
  {
    forall x | x in c ensures ROOT <= x < |blk| && (blk[x].next == -1 || blk[x].next in c) {
      var i :| 0 <= i < |c| && c[i] == x;
      assert blk[c[i]].next == NextIn(c, i);
    }
  }
}
