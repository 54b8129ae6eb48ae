/** The control-block tree of vfs.c: what its commands do to the table of control blocks, the
    table of free blocks and the current directory. */
module Vfs {
  const RECORDS: nat := 10    // MAXLENGTH: entries of a directory, or blocks of a file
  const BLOCKS: nat := 1024   // blocks on the disk, and characters in one
  const SYSTEM: nat := 102    // 2 + FCBBLOCKNUM: superblock, free-block table, control blocks

  const NO_SPACE: int := 99
  const MKDIR_IS_FULL: int := 100
  const MKDIR_CONFLICT_NAME: int := 101
  const MKFILE_IS_FULL: int := 103
  const PATH_NOT_FOUND: int := 104
  const DIR_IS_NOT_EMPTY: int := 106
  const WRITE_FILE_NOT_FOUND: int := 110
  const SRCFILE_NOT_FOUND: int := 116
  const DSTFILE_IS_EXIST: int := 117

  /** id is -1 for a free control block. A directory's first two records are the numbers of
      its "." and ".." entries; a record of -1 is empty. */
  datatype Fcb = Fcb(id: int, filename: string, isdir: bool, size: nat, record: seq<int>, length: int)

  /** fcb, used and cur are the program's. parent says under which directory a file or
      directory was made, depth how far below the root it is, owner to which directory a "."
      or ".." entry belongs. */
  datatype Vol = Vol(fcb: seq<Fcb>, used: seq<bool>, cur: int, parent: map<int, int>, depth: map<int, nat>,
    owner: map<int, int>)

  function Nones(n: nat): (r: seq<int>)
    ensures |r| == n && forall i :: 0 <= i < n ==> r[i] == -1
  {
    seq(n, i => -1)
  }

  function FreeFcb(isdir: bool): Fcb {
    Fcb(-1, "", isdir, 0, Nones(RECORDS), 0)
  }

  // ---- the invariant of the tree

  predicate IsDirNode(s: Vol, d: int) {
    (d == 0 || d in s.parent) && 0 <= d < |s.fcb| && s.fcb[d].isdir
  }

  /** Where ".." leads. */
  function Up(s: Vol, d: int): int {
    if d in s.parent then s.parent[d] else 0
  }

  /** What was made under a directory and has not been removed. */
  function Kids(s: Vol, d: int): set<int> {
    set x | x in s.parent && s.parent[x] == d
  }

  ghost predicate LiveOk(s: Vol, x: int)
    requires 0 <= x < |s.fcb|
  {
    && |s.fcb[x].record| == RECORDS
    && if x == 0 || x in s.parent || x in s.owner then s.fcb[x].id == x else s.fcb[x] == FreeFcb(s.fcb[x].isdir)
  }

  ghost predicate NodeOk(s: Vol, x: int)
    requires x in s.parent
  {
    && 0 < x < |s.fcb| && x !in s.owner && IsDirNode(s, s.parent[x])
    && x in s.depth && s.parent[x] in s.depth && s.depth[x] == s.depth[s.parent[x]] + 1
  }

  ghost predicate DotOk(s: Vol, a: int)
    requires a in s.owner
  {
    && 0 < a < |s.fcb| && IsDirNode(s, s.owner[a]) && |s.fcb[s.owner[a]].record| == RECORDS
    && a in s.fcb[s.owner[a]].record[..2]
  }

  ghost predicate DotIs(s: Vol, a: int, d: int, name: string, to: int) {
    && a in s.owner && s.owner[a] == d && 0 <= a < |s.fcb|
    && s.fcb[a].isdir && s.fcb[a].filename == name && s.fcb[a].record == Nones(RECORDS)[0 := to] && s.fcb[a].length == 1
  }

  ghost predicate RecordsOk(s: Vol, d: int, r: seq<int>) {
    && |r| == RECORDS
    && (forall i :: 2 <= i < RECORDS && r[i] != -1 ==> r[i] in s.parent && s.parent[r[i]] == d)
    && (forall i, j :: 2 <= i < j < RECORDS && r[i] != -1 ==> r[i] != r[j])
  }

  /** A directory: its length is 2 plus the number of things made under it, whether or not its
      records still show them. */
  ghost predicate DirOk(s: Vol, d: int)
    requires 0 <= d < |s.fcb|
  {
    var f := s.fcb[d];
    && RecordsOk(s, d, f.record)
    && DotIs(s, f.record[0], d, ".", d) && DotIs(s, f.record[1], d, "..", Up(s, d)) && f.record[0] != f.record[1]
    && f.length == 2 + |Kids(s, d)| <= RECORDS
  }

  ghost predicate Inv(s: Vol) {
    && RECORDS <= |s.fcb| && 0 !in s.parent && 0 !in s.owner && 0 in s.depth && s.depth[0] == 0
    && IsDirNode(s, 0) && IsDirNode(s, s.cur)
    && (forall x :: 0 <= x < |s.fcb| ==> LiveOk(s, x))
    && (forall x :: x in s.parent ==> NodeOk(s, x))
    && (forall a :: a in s.owner ==> DotOk(s, a))
    && (forall d :: IsDirNode(s, d) ==> DirOk(s, d))
  }

  // ---- the invariant of the blocks

  /** A file's records are data blocks marked used, one for each of its length. */
  ghost predicate FileOk(s: Vol, x: int)
    requires 0 <= x < |s.fcb|
  {
    var f := s.fcb[x];
    && 0 <= f.length <= RECORDS == |f.record|
    && (forall i :: 0 <= i < f.length ==> SYSTEM <= f.record[i] < |s.used| && s.used[f.record[i]])
    && (forall i :: f.length <= i < RECORDS ==> f.record[i] == -1)
  }

  predicate IsFile(s: Vol, x: int) {
    x in s.parent && 0 <= x < |s.fcb| && !s.fcb[x].isdir
  }

  ghost predicate Holds(s: Vol, x: int, i: int, b: int) {
    IsFile(s, x) && 0 <= i < |s.fcb[x].record| && s.fcb[x].record[i] == b != -1
  }

  /** No block is recorded twice, every recorded block is marked used, and the system's own
      blocks are marked used and never recorded. */
  ghost predicate BlocksOk(s: Vol) {
    && |s.used| == BLOCKS && (forall b :: 0 <= b < SYSTEM ==> s.used[b])
    && (forall x :: IsFile(s, x) ==> FileOk(s, x))
    && (forall x, i, y, j, b :: Holds(s, x, i, b) && Holds(s, y, j, b) ==> x == y && i == j)
  }

  // ---- the searches

  function FirstFree(fcb: seq<Fcb>, i: nat): (r: nat)
    requires i <= |fcb|
    ensures i <= r <= |fcb| && (r < |fcb| ==> fcb[r].id == -1) && forall j :: i <= j < r ==> fcb[j].id != -1
    decreases |fcb| - i
  {
    if i == |fcb| || fcb[i].id == -1 then i else FirstFree(fcb, i + 1)
  }

  predicate Carries(fcb: seq<Fcb>, r: int, name: string) {
    0 <= r < |fcb| && fcb[r].filename == name
  }

  /** The first record from i on whose entry carries the name. Empty records are skipped. */
  function FindName(fcb: seq<Fcb>, record: seq<int>, name: string, i: nat): (k: nat)
    requires i <= |record|
    ensures i <= k <= |record| && (k < |record| ==> Carries(fcb, record[k], name))
    ensures forall j :: i <= j < k ==> !Carries(fcb, record[j], name)
    decreases |record| - i
  {
    if i == |record| || Carries(fcb, record[i], name) then i else FindName(fcb, record, name, i + 1)
  }

  /** Takes the first n free blocks from block i on, as far as there are any. */
  function Grab(used: seq<bool>, i: nat, n: nat): (r: (seq<bool>, seq<int>))
    requires i <= |used|
    ensures |r.0| == |used| && |r.1| <= n
    decreases |used| - i
  {
    if i == |used| || n == 0 then (used, [])
    else if used[i] then Grab(used, i + 1, n)
    else var (u, r) := Grab(used[i := true], i + 1, n - 1); (u, [i] + r)
  }

  /** The block array after the search: where blocks are missing it holds what it was
      initialised with, which is `first` in front and 0 behind. */
  function Padded(found: seq<int>, n: nat, first: int): (r: seq<int>)
    requires |found| <= n
    ensures |r| == n && forall i :: 0 <= i < |found| ==> r[i] == found[i]
  {
    seq(n, i requires 0 <= i < n => if i < |found| then found[i] else if i == 0 then first else 0)
  }

  // ---- the commands

  function Formatted(n: nat): Vol
    requires n >= RECORDS
  {
    var dots := Nones(RECORDS)[0 := 0];
    Vol(seq(n, i requires 0 <= i < n =>
          if i == 0 then Fcb(0, "\\", true, 0, Nones(RECORDS)[0 := 1][1 := 2], 2)
          else if i == 1 then Fcb(1, ".", true, 0, dots, 1)
          else if i == 2 then Fcb(2, "..", true, 0, dots, 1)
          else FreeFcb(false)),
        seq(BLOCKS, i => i < SYSTEM), 0, map[], map[0 := 0], map[1 := 0, 2 := 0])
  }

  /** The current directory's control block with number i in the record behind its length. */
  function Recorded(f: Fcb, i: int): Fcb
    requires 0 <= f.length < |f.record|
  {
    f.(record := f.record[f.length := i], length := f.length + 1)
  }

  /** The current directory is not full. */
  predicate HasRecord(s: Vol) {
    0 <= s.cur < |s.fcb| && 0 <= s.fcb[s.cur].length < |s.fcb[s.cur].record|
  }

  /** The current directory records i as made under it. */
  function Linked(s: Vol, i: int): Vol
    requires HasRecord(s) && s.cur in s.depth
  {
    s.(fcb := s.fcb[s.cur := Recorded(s.fcb[s.cur], i)], parent := s.parent[i := s.cur],
      depth := s.depth[i := s.depth[s.cur] + 1])
  }

  function Added(s: Vol, i: int, f: Fcb): Vol
    requires HasRecord(s) && 0 <= i < |s.fcb| && s.cur in s.depth
  {
    s.(fcb := s.fcb[i := f][s.cur := Recorded(s.fcb[s.cur], i)], parent := s.parent[i := s.cur],
      depth := s.depth[i := s.depth[s.cur] + 1])
  }

  function Mkfile(s: Vol, name: string): (Vol, int)
    requires Inv(s)
  {
    CurOk(s);
    var i := FirstFree(s.fcb, 0);
    if s.fcb[s.cur].length == RECORDS then (s, MKFILE_IS_FULL)
    else if i == |s.fcb| then (s, NO_SPACE)
    else (Added(s, i, Fcb(i, name, false, 0, s.fcb[i].record, 0)), 1)
  }

  /** The three control blocks a new directory takes. */
  function Three(fcb: seq<Fcb>): (r: (nat, nat, nat))
    ensures r.0 <= r.1 <= r.2 <= |fcb|
    ensures r.2 < |fcb| ==> r.0 < r.1 < r.2 && fcb[r.0].id == -1 && fcb[r.1].id == -1 && fcb[r.2].id == -1
    ensures forall x :: 0 <= x < r.2 && fcb[x].id == -1 ==> x == r.0 || x == r.1
  {
    var i := FirstFree(fcb, 0);
    var a := FirstFree(fcb, if i < |fcb| then i + 1 else i);
    (i, a, FirstFree(fcb, if a < |fcb| then a + 1 else a))
  }

  /** The "." and ".." entries of directory i, made under the current one. */
  function WithDots(s: Vol, i: int, a: int, b: int): (s': Vol)
    requires 0 <= s.cur < |s.fcb| && 0 <= a < |s.fcb| && 0 <= b < |s.fcb|
    ensures |s'.fcb| == |s.fcb|
  {
    s.(fcb := s.fcb[a := Fcb(a, ".", true, 0, Nones(RECORDS)[0 := i], 1)]
                   [b := Fcb(b, "..", true, 0, Nones(RECORDS)[0 := s.fcb[s.cur].id], 1)],
       owner := s.owner[a := i][b := i])
  }

  /** mkdir looks for the name in the control block whose number is the current length. */
  function Mkdir(s: Vol, name: string): (Vol, int)
    requires Inv(s) && Three(s.fcb).2 < |s.fcb|
  {
    CurOk(s);
    hide Inv, Three;
    var n, (i, a, b) := s.fcb[s.cur].length, Three(s.fcb);
    if n == RECORDS then (s, MKDIR_IS_FULL)
    else if s.fcb[n].filename == name then (s, MKDIR_CONFLICT_NAME)
    else
      (Added(WithDots(s, i, a, b), i, Fcb(i, name, true, 0, Nones(RECORDS)[0 := a][1 := b], 2)), 1)
  }

  function Cd(s: Vol, name: string): (Vol, int)
    requires Inv(s)
  {
    CurOk(s);
    var f := s.fcb[s.cur];
    if name == "\\" then (s.(cur := 0), 1)
    else if name == "." then (s, 1)
    else if name == ".." then (s.(cur := s.fcb[f.record[1]].record[0]), 1)
    else
      var k := FindName(s.fcb, f.record, name, 2);
      if k == RECORDS || !s.fcb[f.record[k]].isdir then (s, PATH_NOT_FOUND) else (s.(cur := f.record[k]), 1)
  }

  function Overwritten(s: Vol, x: int, n: nat): Vol
    requires 0 <= x < |s.fcb| && n < RECORDS * BLOCKS
  {
    var m := n / BLOCKS + 1;
    var (used', found) := Grab(s.used, 0, m);
    var f := s.fcb[x].(size := n % BLOCKS, record := Padded(found, m, -1) + Nones(RECORDS - m), length := m);
    s.(used := used', fcb := s.fcb[x := f])
  }

  /** write takes new blocks for all of the n characters and forgets the file's old ones. Only
      the last block's characters are counted in the size. */
  function Write(s: Vol, name: string, n: nat): (Vol, int)
    requires Inv(s) && n < RECORDS * BLOCKS
  {
    CurOk(s);
    var f := s.fcb[s.cur];
    var k := FindName(s.fcb, f.record, name, 0);
    if k == RECORDS || s.fcb[f.record[k]].isdir then (s, WRITE_FILE_NOT_FOUND)
    else (Overwritten(s, f.record[k], n), 1)
  }

  function Cp(s: Vol, src: string, dst: string): (Vol, int)
    requires Inv(s) && BlocksOk(s) && s.fcb[s.cur].length < RECORDS
  {
    CurOk(s);
    var f := s.fcb[s.cur];
    var k, i := FindName(s.fcb, f.record, src, 0), FirstFree(s.fcb, 0);
    if k == RECORDS || s.fcb[f.record[k]].isdir then (s, SRCFILE_NOT_FOUND)
    else if FindName(s.fcb, f.record, dst, 0) != RECORDS then (s, DSTFILE_IS_EXIST)
    else if i == |s.fcb| then (s, NO_SPACE)
    else
      FoundKid(s, src, 0);
      FreeHere(s, i);
      var x := f.record[k];
      FileHere(s, x);
      hide Inv, BlocksOk;
      var m := s.fcb[x].length;
      var (used', found) := Grab(s.used, 0, m);
      (Added(s.(used := used'), i, Fcb(i, dst, false, s.fcb[x].size, Padded(found, m, 0) + s.fcb[i].record[m..], m)), 1)
  }

  function Freed(used: seq<bool>, record: seq<int>): (r: seq<bool>)
    ensures |r| == |used|
  {
    seq(|used|, i requires 0 <= i < |used| => used[i] && i !in record)
  }

  /** The current directory without the entry in record k. */
  function Dropped(f: Fcb, k: nat): Fcb
    requires k < |f.record|
  {
    f.(record := f.record[k := -1], length := f.length - 1)
  }

  /** The directory x, in record k of the current one, and its two dot entries freed. */
  function WithoutDir(s: Vol, k: nat, x: int, a: int, b: int): Vol
    requires 0 <= s.cur < |s.fcb| && k < |s.fcb[s.cur].record| && 0 <= x < |s.fcb| && 0 <= a < |s.fcb|
    requires 0 <= b < |s.fcb|
  {
    s.(fcb := s.fcb[a := FreeFcb(s.fcb[a].isdir)][b := FreeFcb(s.fcb[b].isdir)][x := FreeFcb(s.fcb[x].isdir)]
                   [s.cur := Dropped(s.fcb[s.cur], k)],
       parent := s.parent - {x}, depth := s.depth - {x}, owner := s.owner - {a, b})
  }

  function WithoutFile(s: Vol, k: nat, x: int): Vol
    requires 0 <= s.cur < |s.fcb| && k < |s.fcb[s.cur].record| && 0 <= x < |s.fcb|
  {
    s.(used := Freed(s.used, s.fcb[x].record),
      fcb := s.fcb[x := FreeFcb(s.fcb[x].isdir)][s.cur := Dropped(s.fcb[s.cur], k)],
       parent := s.parent - {x}, depth := s.depth - {x})
  }

  /** A name that is "." or ".." is found too; its control block, whose length is 1, is then
      taken for a file's. */
  function Rm(s: Vol, name: string): (Vol, int)
    requires Inv(s)
  {
    CurOk(s);
    var f := s.fcb[s.cur];
    var k := FindName(s.fcb, f.record, name, 0);
    if k == RECORDS then (s, PATH_NOT_FOUND)
    else
      FoundDir(s, k);
      var x := f.record[k];
      if s.fcb[x].isdir && s.fcb[x].length > 2 then (s, DIR_IS_NOT_EMPTY)
      else if s.fcb[x].isdir && s.fcb[x].length == 2 then
        DirHere(s, x);
        (WithoutDir(s, k, x, s.fcb[x].record[0], s.fcb[x].record[1]), 1)
      else (WithoutFile(s, k, x), 1)
  }

  // ---- consequences of the invariant

  lemma CurOk(s: Vol)
    requires Inv(s)
    ensures 0 <= s.cur < |s.fcb| && |s.fcb[s.cur].record| == RECORDS && 2 <= s.fcb[s.cur].length <= RECORDS
    ensures s.cur in s.depth
    ensures s.fcb[s.cur].length < |s.fcb| || s.fcb[s.cur].length == RECORDS
    ensures forall i :: 0 <= i < RECORDS && s.fcb[s.cur].record[i] != -1 ==> 0 < s.fcb[s.cur].record[i] < |s.fcb|
    ensures |s.fcb[s.fcb[s.cur].record[1]].record| == RECORDS && s.fcb[s.cur].record[1] != -1
    ensures s.fcb[s.cur].id == s.cur
  {
    assert DirOk(s, s.cur) && LiveOk(s, s.cur);
    assert s.cur != 0 ==> NodeOk(s, s.cur);
    forall i | 0 <= i < RECORDS && s.fcb[s.cur].record[i] != -1 ensures 0 < s.fcb[s.cur].record[i] < |s.fcb| {
      if i >= 2 {
        assert NodeOk(s, s.fcb[s.cur].record[i]);
      } else {
        assert DotOk(s, s.fcb[s.cur].record[i]);
      }
    }
  }

  /** A name found in the current directory, other than "." and "..", is something made under
      it; and so is every file found. */
  lemma FoundKid(s: Vol, name: string, i: nat)
    requires Inv(s) && i <= RECORDS && 0 <= s.cur < |s.fcb| && |s.fcb[s.cur].record| == RECORDS
    ensures var r := s.fcb[s.cur].record; var k := FindName(s.fcb, r, name, i);
      k < RECORDS && ((name != "." && name != "..") || !s.fcb[r[k]].isdir || i >= 2) ==>
        k >= 2 && r[k] in s.parent && s.parent[r[k]] == s.cur && 0 < r[k] < |s.fcb| && r[k] != s.cur && r[k] !in s.owner
  {
    var r := s.fcb[s.cur].record;
    var k := FindName(s.fcb, r, name, i);
    assert DirOk(s, s.cur);
    if k < RECORDS && ((name != "." && name != "..") || !s.fcb[r[k]].isdir || i >= 2) {
      assert k != 0 && k != 1;
      assert NodeOk(s, r[k]);
    }
  }

  /** A record of the current directory that leads to a directory is one of the two dot entries
      or leads to a node. */
  lemma FoundDir(s: Vol, k: nat)
    requires Inv(s) && k < RECORDS && 0 <= s.cur < |s.fcb| && |s.fcb[s.cur].record| == RECORDS
    requires 0 <= s.fcb[s.cur].record[k] < |s.fcb|
    ensures var x := s.fcb[s.cur].record[k];
        s.fcb[x].isdir ==> (if k < 2 then s.fcb[x].length == 1 else IsDirNode(s, x))
    ensures k < 2 ==> s.fcb[s.cur].record[k] in s.owner && s.fcb[s.fcb[s.cur].record[k]].isdir
    ensures 0 <= s.fcb[s.cur].record[0] < |s.fcb| && s.fcb[s.fcb[s.cur].record[0]].filename == "."
    ensures 0 <= s.fcb[s.cur].record[1] < |s.fcb| && s.fcb[s.fcb[s.cur].record[1]].filename == ".."
  {
    assert DirOk(s, s.cur);
    if k >= 2 {
      assert NodeOk(s, s.fcb[s.cur].record[k]);
    }
  }

  lemma FreeHere(s: Vol, i: int)
    requires Inv(s) && 0 <= i < |s.fcb| && s.fcb[i].id == -1
    ensures s.fcb[i] == FreeFcb(s.fcb[i].isdir) && i != 0 && i !in s.parent && i !in s.owner && i != s.cur
  {
    assert LiveOk(s, i);
  }

  lemma FileHere(s: Vol, x: int)
    requires BlocksOk(s) && IsFile(s, x)
    ensures FileOk(s, x)
  {
  }

  lemma DirHere(s: Vol, d: int)
    requires Inv(s) && IsDirNode(s, d)
    ensures DirOk(s, d)
    ensures var r := s.fcb[d].record; |r| == RECORDS && 0 < r[0] < |s.fcb| && 0 < r[1] < |s.fcb| && r[0] != r[1]
  {
    assert DirOk(s, d);
    assert DotOk(s, s.fcb[d].record[0]) && DotOk(s, s.fcb[d].record[1]);
  }
}
