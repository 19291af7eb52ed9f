/**
 * Block bookkeeping for the memory pool
 * (include/assessment/memory/memory_pool.h): a bitmap with one flag per
 * fixed-size block (true = in use), first-fit search for a contiguous free
 * run, and the map from the first block of each live allocation to its
 * length in blocks.
 */
module Blocks {
  import opened Wrappers

  /** The number of blocks needed for `size` bytes: `size` rounded up to whole blocks. */
  function BlocksFor(size: nat, blockSize: nat): (n: nat)
    requires blockSize > 0
    ensures size <= n * blockSize
    ensures n == 0 || (n - 1) * blockSize < size
  {
    var n := (size + blockSize - 1) / blockSize;
    assert n * blockSize + (size + blockSize - 1) % blockSize == size + blockSize - 1;
    assert (n - 1) * blockSize == n * blockSize - blockSize;
    n
  }

  /** Blocks `start .. start + n` exist and are all free. */
  predicate RunFree(used: seq<bool>, start: nat, n: nat) {
    start + n <= |used| && forall i | start <= i < start + n :: !used[i]
  }

  /** Blocks `start .. start + n` exist and are all in use. */
  predicate RunUsed(used: seq<bool>, start: nat, n: nat) {
    start + n <= |used| && forall i | start <= i < start + n :: used[i]
  }

  /** The first start at or after `from` of a free run of `n` blocks, if any. */
  function FirstFitFrom(used: seq<bool>, n: nat, from: nat): (r: Option<nat>)
    ensures r.Some? ==> from <= r.value && RunFree(used, r.value, n)
    ensures r.Some? ==> forall s: nat | from <= s < r.value :: !RunFree(used, s, n)
    ensures r.None? ==> forall s: nat | from <= s :: !RunFree(used, s, n)
    decreases |used| - from
  {
    if from + n > |used| then None
    else if RunFree(used, from, n) then Some(from)
    else FirstFitFrom(used, n, from + 1)
  }

  /** First fit: the lowest start of a free run of `n` blocks, if there is one. */
  function FirstFit(used: seq<bool>, n: nat): (r: Option<nat>)
    ensures r.Some? ==> RunFree(used, r.value, n) && forall s: nat | s < r.value :: !RunFree(used, s, n)
    ensures r.None? <==> forall s: nat :: !RunFree(used, s, n)
  {
    FirstFitFrom(used, n, 0)
  }

  /** `used` with blocks `start .. start + n` set to `v`. */
  function Mark(used: seq<bool>, start: nat, n: nat, v: bool): seq<bool>
    requires start + n <= |used|
  {
    seq(|used|, i requires 0 <= i < |used| => if start <= i < start + n then v else used[i])
  }

  /** The number of blocks in use. */
  function Count(used: seq<bool>): (c: nat)
    ensures c <= |used|
  {
    if used == [] then 0 else (if used[0] then 1 else 0) + Count(used[1..])
  }

  lemma {:induction false} CountAppend(a: seq<bool>, b: seq<bool>)
    ensures Count(a + b) == Count(a) + Count(b)
  {
    if a != [] {
      assert (a + b)[1..] == a[1..] + b;
      CountAppend(a[1..], b);
    } else {
      assert a + b == b;
    }
  }

  /** No block is in use exactly when the count is zero. */
  lemma {:induction false} CountZero(used: seq<bool>)
    ensures Count(used) == 0 <==> forall i | 0 <= i < |used| :: !used[i]
  {
    if used != [] {
      CountZero(used[1..]);
      if Count(used) == 0 {
        forall i | 0 <= i < |used| ensures !used[i] {
          if i > 0 { assert used[i] == used[1..][i - 1]; }
        }
      }
      if forall i | 0 <= i < |used| :: !used[i] {
        forall i | 0 <= i < |used[1..]| ensures !used[1..][i] {
          assert used[1..][i] == used[i + 1];
        }
      }
    }
  }

  /** Every block is in use exactly when the count is the number of blocks. */
  lemma {:induction false} CountFull(used: seq<bool>)
    ensures Count(used) == |used| <==> forall i | 0 <= i < |used| :: used[i]
  {
    if used != [] {
      CountFull(used[1..]);
      if Count(used) == |used| {
        forall i | 0 <= i < |used| ensures used[i] {
          if i > 0 { assert used[i] == used[1..][i - 1]; }
        }
      }
      if forall i | 0 <= i < |used| :: used[i] {
        forall i | 0 <= i < |used[1..]| ensures used[1..][i] {
          assert used[1..][i] == used[i + 1];
        }
      }
    }
  }

  /** The count splits at the two ends of a run. */
  lemma CountAround(used: seq<bool>, start: nat, n: nat)
    requires start + n <= |used|
    ensures Count(used) == Count(used[..start]) + Count(used[start..start + n]) + Count(used[start + n..])
  {
    var pre, mid, post := used[..start], used[start..start + n], used[start + n..];
    assert used == pre + mid + post;
    CountAppend(pre + mid, post);
    CountAppend(pre, mid);
  }

  /** A run of equal flags counts all of its blocks, or none. */
  lemma {:induction false} CountUniform(run: seq<bool>, v: bool)
    requires forall i | 0 <= i < |run| :: run[i] == v
    ensures Count(run) == if v then |run| else 0
  {
    if run != [] {
      var tail := run[1..];
      forall i | 0 <= i < |tail| ensures tail[i] == v {
        assert tail[i] == run[i + 1];
      }
      CountUniform(tail, v);
    }
  }

  /** Marking changes only the marked run, which becomes uniform. */
  lemma MarkSlices(used: seq<bool>, start: nat, n: nat, v: bool)
    requires start + n <= |used|
    ensures var m := Mark(used, start, n, v);
      && |m| == |used|
      && m[..start] == used[..start]
      && m[start + n..] == used[start + n..]
      && forall i | start <= i < start + n :: m[i] == v
  {
  }

  /**
   * Marking a free run in use adds its length to the count; freeing a run
   * in use takes its length off.
   */
  lemma MarkCount(used: seq<bool>, start: nat, n: nat, v: bool)
    requires if v then RunFree(used, start, n) else RunUsed(used, start, n)
    ensures v ==> Count(Mark(used, start, n, v)) == Count(used) + n
    ensures !v ==> Count(Mark(used, start, n, v)) + n == Count(used)
  {
    var m := Mark(used, start, n, v);
    CountAround(used, start, n);
    CountAround(m, start, n);
    MarkSlices(used, start, n, v);
    var mid := used[start..start + n];
    assert forall i | 0 <= i < n :: mid[i] == !v;
    CountUniform(mid, !v);
    var mid' := m[start..start + n];
    assert forall i | 0 <= i < n :: mid'[i] == v;
    CountUniform(mid', v);
  }

  /** Block `i` belongs to one of the live allocations. */
  ghost predicate Covered(live: map<nat, nat>, i: nat) {
    exists s | s in live :: s <= i < s + live[s]
  }

  /** Each live allocation is a non-empty run of blocks inside a pool of `count` blocks. */
  ghost predicate RunsInside(live: map<nat, nat>, count: nat) {
    forall s | s in live :: 0 < live[s] && s + live[s] <= count
  }

  /** No two live allocations overlap. */
  ghost predicate RunsDisjoint(live: map<nat, nat>) {
    forall s, t | s in live && t in live && s < t :: s + live[s] <= t
  }

  /** A block is marked in use exactly when some live allocation covers it. */
  ghost predicate MarksCovered(used: seq<bool>, live: map<nat, nat>) {
    forall i | 0 <= i < |used| :: used[i] <==> Covered(live, i)
  }

  /** The bitmap and the live allocations agree. */
  ghost predicate Tracks(used: seq<bool>, live: map<nat, nat>) {
    RunsInside(live, |used|) && RunsDisjoint(live) && MarksCovered(used, live)
  }

  /** Outside the run of `start`, a block is covered the same way with or without that allocation. */
  lemma CoveredElsewhere(live: map<nat, nat>, live': map<nat, nat>, start: nat, i: nat)
    requires forall s | s != start :: (s in live <==> s in live') && (s in live ==> live[s] == live'[s])
    requires start in live' ==> !(start <= i < start + live'[start])
    requires start in live ==> !(start <= i < start + live[start])
    ensures Covered(live', i) <==> Covered(live, i)
  {
    if Covered(live', i) {
      var s :| s in live' && s <= i < s + live'[s];
      assert s != start && s in live && live[s] == live'[s];
    }
    if Covered(live, i) {
      var s :| s in live && s <= i < s + live[s];
      assert s != start && s in live' && live[s] == live'[s];
    }
  }

  /** A new allocation over a free run overlaps none of the live ones. */
  lemma AllocateDisjoint(used: seq<bool>, live: map<nat, nat>, start: nat, n: nat)
    requires RunsInside(live, |used|) && RunsDisjoint(live) && MarksCovered(used, live)
    requires 0 < n && RunFree(used, start, n)
    ensures start !in live
    ensures RunsDisjoint(live[start := n])
  {
    var live' := live[start := n];
    assert !used[start];
    assert !Covered(live, start);
    forall s, t | s in live' && t in live' && s < t ensures s + live'[s] <= t {
      if s == start {
        assert Covered(live, t);
        assert used[t];
      } else if t == start {
        assert s in live;
      }
    }
  }

  /** Marking a free run in use matches recording it as a live allocation. */
  lemma AllocateCovered(used: seq<bool>, live: map<nat, nat>, start: nat, n: nat)
    requires MarksCovered(used, live) && start !in live
    requires RunFree(used, start, n)
    ensures MarksCovered(Mark(used, start, n, true), live[start := n])
  {
    var m, live' := Mark(used, start, n, true), live[start := n];
    forall i | 0 <= i < |m| ensures m[i] <==> Covered(live', i) {
      if start <= i < start + n {
        assert start in live' && start <= i < start + live'[start];
      } else {
        CoveredElsewhere(live, live', start, i);
      }
    }
  }

  /** Allocating a free run records a new allocation that starts there. */
  lemma TracksAllocate(used: seq<bool>, live: map<nat, nat>, start: nat, n: nat)
    requires Tracks(used, live)
    requires 0 < n && RunFree(used, start, n)
    ensures start !in live
    ensures Tracks(Mark(used, start, n, true), live[start := n])
    ensures |live[start := n]| == |live| + 1
  {
    AllocateDisjoint(used, live, start, n);
    AllocateCovered(used, live, start, n);
    assert live[start := n].Keys == live.Keys + {start};
  }

  /** Freeing a live allocation releases exactly its blocks, all of which were in use. */
  lemma TracksFree(used: seq<bool>, live: map<nat, nat>, start: nat)
    requires Tracks(used, live)
    requires start in live
    ensures RunUsed(used, start, live[start])
    ensures Tracks(Mark(used, start, live[start], false), live - {start})
    ensures |live - {start}| + 1 == |live|
  {
    var n, live' := live[start], live - {start};
    var m := Mark(used, start, n, false);
    forall i | start <= i < start + n ensures used[i] {
      assert Covered(live, i);
    }
    forall i | 0 <= i < |m| ensures m[i] <==> Covered(live', i) {
      if start <= i < start + n {
        forall s | s in live' ensures !(s <= i < s + live'[s]) {
          if s < start {
            assert s + live[s] <= start;
          } else {
            assert start + n <= s;
          }
        }
      } else {
        CoveredElsewhere(live, live', start, i);
      }
    }
    assert live.Keys == live'.Keys + {start};
  }

  /** There is no live allocation exactly when no block is in use. */
  lemma TracksEmpty(used: seq<bool>, live: map<nat, nat>)
    requires Tracks(used, live)
    ensures live == map[] <==> forall i | 0 <= i < |used| :: !used[i]
  {
    if live != map[] {
      var s :| s in live;
      assert Covered(live, s);
      assert used[s];
    }
  }

  /**
   * No allocation of any size can succeed exactly when a single block
   * cannot be found, that is, when every block is in use.
   */
  lemma NoFitIffFull(used: seq<bool>, blockSize: nat)
    requires blockSize > 0
    ensures (forall size: nat | 0 < size :: FirstFit(used, BlocksFor(size, blockSize)) == None)
            <==> forall i | 0 <= i < |used| :: used[i]
  {
    if forall i | 0 <= i < |used| :: used[i] {
      forall size: nat | 0 < size ensures FirstFit(used, BlocksFor(size, blockSize)) == None {
        var n := BlocksFor(size, blockSize);
        forall s: nat ensures !RunFree(used, s, n) {
          if s + n <= |used| {
            assert used[s];
          }
        }
      }
    } else {
      var i :| 0 <= i < |used| && !used[i];
      assert RunFree(used, i, 1);
      assert BlocksFor(1, blockSize) == 1;
      assert FirstFit(used, BlocksFor(1, blockSize)) != None;
    }
  }
}
