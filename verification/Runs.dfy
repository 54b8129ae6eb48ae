/** What the free-block search is meant to find, stated without any skipping: for every
    start position the length of the free run there, and over all positions the leftmost
    longest one. */
module Runs {

  datatype Run = Run(len: nat, start: int)

  /** Free blocks from b onwards, counted up to num. */
  function RunLen(used: set<int>, b: int, num: nat): (n: nat)
    ensures n <= num
    ensures forall j :: b <= j < b + n ==> j !in used
    ensures n < num ==> b + n in used
    decreases num
  {
    if num == 0 || b in used then 0 else 1 + RunLen(used, b + 1, num - 1)
  }

  lemma {:induction false} RunLenUnique(used: set<int>, b: int, num: nat, n: nat)
    requires n <= num
    requires forall j :: b <= j < b + n ==> j !in used
    requires n < num ==> b + n in used
    ensures RunLen(used, b, num) == n
    decreases num
  {
    if n > 0 {
      RunLenUnique(used, b + 1, num - 1, n - 1);
    }
  }

  /** r is the leftmost longest run that starts in [lo, hi). */
  ghost predicate IsBest(used: set<int>, lo: int, hi: int, num: nat, r: Run) {
    && (forall b :: lo <= b < hi ==> RunLen(used, b, num) <= r.len)
    && (if r.len == 0 then r.start == -1 else
          && lo <= r.start < hi
          && RunLen(used, r.start, num) == r.len
          && forall b :: lo <= b < r.start ==> RunLen(used, b, num) < r.len)
  }

  /** The naive search: compare every start position. */
  function Best(used: set<int>, lo: int, hi: int, num: nat): (r: Run)
    ensures IsBest(used, lo, hi, num, r)
    decreases hi - lo
  {
    if lo >= hi then Run(0, -1)
    else
      var rest := Best(used, lo + 1, hi, num);
      var here := RunLen(used, lo, num);
      if here > 0 && here >= rest.len then Run(here, lo) else rest
  }

  lemma BestUnique(used: set<int>, lo: int, hi: int, num: nat, r: Run)
    requires IsBest(used, lo, hi, num, r)
    ensures r == Best(used, lo, hi, num)
  {
    var s := Best(used, lo, hi, num);
    if r.len > 0 && s.len > 0 {
      assert RunLen(used, r.start, num) == r.len && RunLen(used, s.start, num) == s.len;
    }
  }

  /** Over all start positions: a run of the full length is found exactly when there is
      one, and then it is the leftmost; otherwise nothing longer exists anywhere; and
      nothing at all is found exactly when every start position is taken. */
  lemma BestMeans(used: set<int>, lo: int, hi: int, num: nat)
    requires num > 0
    ensures var r := Best(used, lo, hi, num);
      && (r.len == num <==> exists b :: lo <= b < hi && RunLen(used, b, num) == num)
      && (r.len == num ==> forall b :: lo <= b < hi && RunLen(used, b, num) == num ==> r.start <= b)
      && (r.len == 0 <==> forall b :: lo <= b < hi ==> b in used)
      && (forall j :: r.start <= j < r.start + r.len ==> j !in used)
      && (0 < r.len < num ==> r.start + r.len in used)
  {
    hide RunLen, Best;
    var r := Best(used, lo, hi, num);
    if b :| lo <= b < hi && b !in used {
      FreeRun(used, b, num);
    }
    if r.len > 0 {
      FreeRun(used, r.start, num);
    }
  }

  lemma FreeRun(used: set<int>, b: int, num: nat)
    requires num > 0
    ensures RunLen(used, b, num) > 0 <==> b !in used
  {
  }

  /** Why the scan may jump past the used block that ends a run: no start position in
      between can do better. */
  lemma {:induction false} SkipIsSafe(used: set<int>, s: int, num: nat, t: nat, b: int)
    requires RunLen(used, s, num) == t < num
    requires s <= b <= s + t
    ensures RunLen(used, b, num) == s + t - b
  {
    RunLenUnique(used, b, num, s + t - b);
  }

  /** The block numbers of a run. */
  function Blocks(start: int, len: nat): (r: set<int>)
    ensures forall b :: b in r <==> start <= b < start + len
    decreases len
  {
    if len == 0 then {} else Blocks(start, len - 1) + {start + len - 1}
  }

  lemma {:induction false} BlocksCount(start: int, len: nat)
    ensures |Blocks(start, len)| == len
    decreases len
  {
    if len > 0 {
      BlocksCount(start, len - 1);
    }
  }
}
