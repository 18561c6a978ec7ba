/**
 * The search space of one worker (parallel_worker.c, lines 15-249).
 *
 * A worker is given a `part_id`. Its bits orient pairs (or triples) of
 * relations into order constraints, and the constraints select which
 * intermediate join results, i.e. relation subsets, the worker may build.
 * Every routine here only accumulates a fresh list from its inputs, so each
 * is a function; the loops of the source are the recursions below.
 */
module WorkerSpace {
  import opened Bits
  import opened ParallelUtils

  /* ---------------- ptr_less and list_qsort ---------------- */

  /** ptr_less: negative, zero or positive as `one` is shorter than, as long as, or longer than `two`. */
  function PtrLess(one: seq<int>, two: seq<int>): (r: int)
    ensures r < 0 <==> |one| < |two|
    ensures r == 0 <==> |one| == |two|
    ensures r > 0 <==> |one| > |two|
  {
    |one| - |two|
  }

  predicate SortedBySize(s: seq<seq<int>>)
  {
    forall i, j :: 0 <= i < j < |s| ==> |s[i]| <= |s[j]|
  }

  function InsertBySize(x: seq<int>, s: seq<seq<int>>): (r: seq<seq<int>>)
    requires SortedBySize(s)
    ensures SortedBySize(r)
    ensures multiset(r) == multiset(s) + multiset{x}
    ensures |r| == |s| + 1 && (r[0] == x || (|s| > 0 && r[0] == s[0]))
  {
    if s == [] then
      [x]
    else if PtrLess(x, s[0]) <= 0 then
      ConsSorted(x, s);
      [x] + s
    else
      assert s == [s[0]] + s[1..];
      var rest := InsertBySize(x, s[1..]);
      ConsSorted(s[0], rest);
      assert multiset([s[0]] + rest) == multiset([s[0]]) + multiset(s[1..]) + multiset{x};
      [s[0]] + rest
  }

  /** A subset no longer than the head of a sorted list keeps it sorted when put in front. */
  lemma ConsSorted(a: seq<int>, s: seq<seq<int>>)
    requires SortedBySize(s) && (|s| > 0 ==> |a| <= |s[0]|)
    ensures SortedBySize([a] + s)
  {
    var r := [a] + s;
    forall i, j | 0 <= i < j < |r| ensures |r[i]| <= |r[j]| {
      assert r[j] == s[j - 1];
      if i == 0 {
        assert |s[0]| <= |s[j - 1]|;
      } else {
        assert r[i] == s[i - 1];
      }
    }
  }

  /**
   * list_qsort(join_res, ptr_less): the subsets in non-decreasing order of
   * length, a rearrangement of the input. The source's quicksort does not
   * promise any order among equally long subsets; this model keeps them in
   * one particular order, and nothing below depends on which.
   */
  function SortBySize(s: seq<seq<int>>): (r: seq<seq<int>>)
    ensures SortedBySize(r)
    ensures multiset(r) == multiset(s)
  {
    if s == [] then
      []
    else
      assert s == [s[0]] + s[1..];
      InsertBySize(s[0], SortBySize(s[1..]))
  }

  /* ---------------- constrained_power_set(_b) ---------------- */

  /** Every constraint has at least `width` entries (the source reads entry 1, or entries 0 and 1). */
  predicate Tuples(constr: seq<seq<int>>, width: nat)
  {
    forall i :: 0 <= i < |constr| ==> |constr[i]| >= width
  }

  /** Some constraint has `q` as its second entry. */
  predicate SecondIs(constr: seq<seq<int>>, q: int)
    requires Tuples(constr, 2)
  {
    exists i :: 0 <= i < |constr| && constr[i][1] == q
  }

  /**
   * The scan over the constraints in constrained_power_set (and its bushy
   * twin): a constraint whose second entry is `q1` clears the first flag;
   * otherwise, one whose second entry is `q2` clears the second flag.
   */
  function ScanFlags(constr: seq<seq<int>>, q1: int, q2: int): (flags: (bool, bool))
    requires Tuples(constr, 2)
    ensures flags.0 <==> !SecondIs(constr, q1)
    ensures flags.1 <==> q1 == q2 || !SecondIs(constr, q2)
  {
    if |constr| == 0 then
      (true, true)
    else
      var init := constr[..|constr| - 1];
      var c := constr[|constr| - 1];
      var flags := ScanFlags(init, q1, q2);
      assert forall q :: SecondIs(constr, q) <==> SecondIs(init, q) || c[1] == q by {
        forall q ensures SecondIs(constr, q) <==> SecondIs(init, q) || c[1] == q {
          if SecondIs(constr, q) {
            var i :| 0 <= i < |constr| && constr[i][1] == q;
            if i < |init| {
              assert init[i] == constr[i];
            }
          }
          if SecondIs(init, q) {
            var i :| 0 <= i < |init| && init[i][1] == q;
            assert constr[i] == init[i];
          }
        }
      }
      if c[1] == q1 then (false, flags.1)
      else if c[1] == q2 then (flags.0, false)
      else flags
  }

  /**
   * constrained_power_set: the admissible non-empty subsets of `{q1, q2}`,
   * as `[q1]`, `[q2]`, `[q1, q2]` in that order, where a singleton is
   * dropped when some constraint puts another relation before it.
   */
  function ConstrainedPowerSet(constr: seq<seq<int>>, q1: int, q2: int): (cps: seq<seq<int>>)
    requires Tuples(constr, 2)
    ensures 1 <= |cps| <= 3
    ensures cps[|cps| - 1] == [q1, q2]
  {
    var flags := ScanFlags(constr, q1, q2);
    (if flags.0 then [[q1]] else []) + (if flags.1 then [[q2]] else []) + [[q1, q2]]
  }

  /**
   * For two distinct relations, `[q1]` is offered exactly when no constraint
   * has `q1` second, and `[q2]` exactly when none has `q2` second.
   */
  lemma ConstrainedPowerSetChoices(constr: seq<seq<int>>, q1: int, q2: int)
    requires Tuples(constr, 2)
    requires q1 != q2
    ensures ConstrainedPowerSet(constr, q1, q2) ==
              (if SecondIs(constr, q1) then [] else [[q1]]) +
              (if SecondIs(constr, q2) then [] else [[q2]]) +
              [[q1, q2]]
  {
  }

  /**
   * constrained_power_set_b: `[q1]`, `[q2]`, `[q3]`, `[q1, q2]`, then
   * `[q1, q3]` and `[q2, q3]` where allowed, then `[q1, q2, q3]`.
   */
  function ConstrainedPowerSetB(constr: seq<seq<int>>, q1: int, q2: int, q3: int): (cps: seq<seq<int>>)
    requires Tuples(constr, 2)
    ensures 5 <= |cps| <= 7
    ensures cps[..4] == [[q1], [q2], [q3], [q1, q2]]
    ensures cps[|cps| - 1] == [q1, q2, q3]
  {
    var flags := ScanFlags(constr, q1, q2);
    [[q1], [q2], [q3], [q1, q2]] +
    (if flags.0 then [[q1, q3]] else []) + (if flags.1 then [[q2, q3]] else []) +
    [[q1, q2, q3]]
  }

  /**
   * For distinct `q1` and `q2`, `[q1, q3]` is offered exactly when no
   * constraint has `q1` second, and `[q2, q3]` exactly when none has `q2` second.
   */
  lemma ConstrainedPowerSetBChoices(constr: seq<seq<int>>, q1: int, q2: int, q3: int)
    requires Tuples(constr, 2)
    requires q1 != q2
    ensures ConstrainedPowerSetB(constr, q1, q2, q3) ==
              [[q1], [q2], [q3], [q1, q2]] +
              (if SecondIs(constr, q1) then [] else [[q1, q3]]) +
              (if SecondIs(constr, q2) then [] else [[q2, q3]]) +
              [[q1, q2, q3]]
  {
  }

  /* ---------------- part_constraints(_b) ---------------- */

  /** Pair `i` for a worker: `(2i, 2i+1)` when bit `i` of `part_id` is clear, `(2i+1, 2i)` when set. */
  function OrientedPair(partId: int, i: nat): (r: seq<int>)
    requires IsInt32(partId)
  {
    if HasBit(Int32Bits(partId), i) then [2 * i + 1, 2 * i] else [2 * i, 2 * i + 1]
  }

  /** Triple `i`: `(3i, 3i+1, 3i+2)` when bit `i` is clear, `(3i+1, 3i, 3i+2)` when set. */
  function OrientedTriple(partId: int, i: nat): (r: seq<int>)
    requires IsInt32(partId)
  {
    if HasBit(Int32Bits(partId), i) then [3 * i + 1, 3 * i, 3 * i + 2] else [3 * i, 3 * i + 1, 3 * i + 2]
  }

  /**
   * The shift `1 << i` of the loop condition stays defined. The condition
   * computes the shift before it tests `levels_needed`, so the shift at
   * the index where the loop stops is evaluated too. It reaches `1 << 31`
   * only when `n_workers > 2^30` and `levels_needed > 61`.
   */
  predicate PairLoopDefined(levelsNeeded: int, nWorkers: int)
  {
    nWorkers <= 0x4000_0000 || levelsNeeded <= 61
  }

  /** The loop condition of part_constraints at index `i`: `(1 << i) < n_workers && 2i + 1 < levels_needed`. */
  predicate PairLoopContinues(levelsNeeded: int, nWorkers: int, i: nat)
  {
    Pow2(i) < nWorkers && 2 * i + 1 < levelsNeeded
  }

  /** The loop of part_constraints from index `i` on: it runs until its condition fails. */
  function PartConstraintsFrom(levelsNeeded: int, partId: int, nWorkers: int, i: nat): (pc: seq<seq<int>>)
    requires IsInt32(partId) && PairLoopDefined(levelsNeeded, nWorkers)
    requires i <= 31
    ensures !PairLoopContinues(levelsNeeded, nWorkers, i + |pc|)
    decreases 31 - i
  {
    if PairLoopContinues(levelsNeeded, nWorkers, i) then
      PairLoopBound(levelsNeeded, nWorkers, i);
      [OrientedPair(partId, i)] + PartConstraintsFrom(levelsNeeded, partId, nWorkers, i + 1)
    else
      []
  }

  /** An iteration that runs has `i < 30`, so the next test shifts by at most 30. */
  lemma PairLoopBound(levelsNeeded: int, nWorkers: int, i: nat)
    requires PairLoopDefined(levelsNeeded, nWorkers) && PairLoopContinues(levelsNeeded, nWorkers, i)
    ensures i < 30
  {
    if nWorkers <= 0x4000_0000 {
      ShiftBound(i, nWorkers);
    }
  }

  /** Started at `i`, iteration `k` of the loop ran, because its condition held, and added pair `k` at position `k - i`. */
  lemma {:induction false} PartConstraintsFromAt(levelsNeeded: int, partId: int, nWorkers: int, i: nat, k: nat)
    requires IsInt32(partId) && PairLoopDefined(levelsNeeded, nWorkers)
    requires i <= k && i <= 31 && k - i < |PartConstraintsFrom(levelsNeeded, partId, nWorkers, i)|
    ensures PairLoopContinues(levelsNeeded, nWorkers, k)
    ensures PartConstraintsFrom(levelsNeeded, partId, nWorkers, i)[k - i] == OrientedPair(partId, k)
    decreases k - i
  {
    PairLoopBound(levelsNeeded, nWorkers, i);
    if i < k {
      PartConstraintsFromAt(levelsNeeded, partId, nWorkers, i + 1, k);
    }
  }

  /** The whole loop, from index 0: iteration `i` ran and added pair `i`. */
  lemma PartConstraintsFromStart(levelsNeeded: int, partId: int, nWorkers: int)
    requires IsInt32(partId) && PairLoopDefined(levelsNeeded, nWorkers)
    ensures var pc := PartConstraintsFrom(levelsNeeded, partId, nWorkers, 0);
            forall i :: 0 <= i < |pc| ==> PairLoopContinues(levelsNeeded, nWorkers, i) && pc[i] == OrientedPair(partId, i)
  {
    var pc := PartConstraintsFrom(levelsNeeded, partId, nWorkers, 0);
    forall i | 0 <= i < |pc| ensures PairLoopContinues(levelsNeeded, nWorkers, i) && pc[i] == OrientedPair(partId, i) {
      PartConstraintsFromAt(levelsNeeded, partId, nWorkers, 0, i);
    }
  }

  /**
   * part_constraints: pair `i` for every `i` with `2^i < n_workers` and
   * `2i + 1 < levels_needed`, stopping at the first `i` that fails either test.
   */
  function PartConstraints(levelsNeeded: int, partId: int, nWorkers: int): (pc: seq<seq<int>>)
    requires IsInt32(partId) && PairLoopDefined(levelsNeeded, nWorkers)
    ensures forall i :: 0 <= i < |pc| ==> PairLoopContinues(levelsNeeded, nWorkers, i) && pc[i] == OrientedPair(partId, i)
    ensures !PairLoopContinues(levelsNeeded, nWorkers, |pc|)
  {
    PartConstraintsFromStart(levelsNeeded, partId, nWorkers);
    PartConstraintsFrom(levelsNeeded, partId, nWorkers, 0)
  }

  /**
   * Every shift the loop condition computes, the failing test at index
   * `|pc|` included, is `1 << i` with `i <= 30`, so it fits a C `int`.
   */
  lemma PairLoopShifts(levelsNeeded: int, partId: int, nWorkers: int)
    requires IsInt32(partId) && PairLoopDefined(levelsNeeded, nWorkers)
    ensures |PartConstraints(levelsNeeded, partId, nWorkers)| <= 30
  {
    var n := |PartConstraints(levelsNeeded, partId, nWorkers)|;
    if n > 0 {
      PairLoopBound(levelsNeeded, nWorkers, n - 1);
    }
  }

  /** With four workers, worker 2 puts relation 0 before 1 and relation 3 before 2. */
  lemma PartConstraintsExample(levelsNeeded: int)
    requires levelsNeeded >= 4
    ensures PartConstraints(levelsNeeded, 2, 4) == [[0, 1], [3, 2]]
  {
    assert Pow2(2) == 4;
    assert !HasBit(2, 0) && HasBit(2, 1);
    var pc := PartConstraints(levelsNeeded, 2, 4);
    assert PairLoopContinues(levelsNeeded, 4, 0) && PairLoopContinues(levelsNeeded, 4, 1);
    assert !PairLoopContinues(levelsNeeded, 4, 2);
    assert |pc| == 2;
  }

  /** The loop condition of part_constraints_b at index `i`: `(1 << i) < n_workers`. */
  predicate TripleLoopContinues(nWorkers: int, i: nat)
  {
    Pow2(i) < nWorkers
  }

  /** The loop of part_constraints_b from index `i` on: it runs until its condition fails. */
  function PartConstraintsBFrom(partId: int, nWorkers: int, i: nat): (pc: seq<seq<int>>)
    requires IsInt32(partId) && nWorkers <= 0x4000_0000
    requires i <= 30
    ensures !TripleLoopContinues(nWorkers, i + |pc|)
    decreases 30 - i
  {
    if TripleLoopContinues(nWorkers, i) then
      ShiftBound(i, nWorkers);
      [OrientedTriple(partId, i)] + PartConstraintsBFrom(partId, nWorkers, i + 1)
    else
      []
  }

  /** Started at `i`, iteration `k` of the loop ran, because its condition held, and added triple `k` at position `k - i`. */
  lemma {:induction false} PartConstraintsBFromAt(partId: int, nWorkers: int, i: nat, k: nat)
    requires IsInt32(partId) && nWorkers <= 0x4000_0000
    requires i <= k && i <= 30 && k - i < |PartConstraintsBFrom(partId, nWorkers, i)|
    ensures TripleLoopContinues(nWorkers, k)
    ensures PartConstraintsBFrom(partId, nWorkers, i)[k - i] == OrientedTriple(partId, k)
    decreases k - i
  {
    ShiftBound(i, nWorkers);
    if i < k {
      PartConstraintsBFromAt(partId, nWorkers, i + 1, k);
    }
  }

  /** The whole loop, from index 0: iteration `i` ran and added triple `i`. */
  lemma PartConstraintsBFromStart(partId: int, nWorkers: int)
    requires IsInt32(partId) && nWorkers <= 0x4000_0000
    ensures var pc := PartConstraintsBFrom(partId, nWorkers, 0);
            forall i :: 0 <= i < |pc| ==> TripleLoopContinues(nWorkers, i) && pc[i] == OrientedTriple(partId, i)
  {
    var pc := PartConstraintsBFrom(partId, nWorkers, 0);
    forall i | 0 <= i < |pc| ensures TripleLoopContinues(nWorkers, i) && pc[i] == OrientedTriple(partId, i) {
      PartConstraintsBFromAt(partId, nWorkers, 0, i);
    }
  }

  /**
   * part_constraints_b: triple `i` for every `i` with `2^i < n_workers`.
   * `levels_needed` is accepted and not consulted, so the triples may name
   * relations beyond the query.
   */
  function PartConstraintsB(levelsNeeded: int, partId: int, nWorkers: int): (pc: seq<seq<int>>)
    requires IsInt32(partId) && nWorkers <= 0x4000_0000
    ensures forall i :: 0 <= i < |pc| ==> TripleLoopContinues(nWorkers, i) && pc[i] == OrientedTriple(partId, i)
    ensures !TripleLoopContinues(nWorkers, |pc|)
  {
    PartConstraintsBFromStart(partId, nWorkers);
    PartConstraintsBFrom(partId, nWorkers, 0)
  }

  /** With four workers, worker 2 gets the triples `(0, 1, 2)` and `(4, 3, 5)`, whatever `levels_needed` is. */
  lemma PartConstraintsBExample(levelsNeeded: int)
    ensures PartConstraintsB(levelsNeeded, 2, 4) == [[0, 1, 2], [4, 3, 5]]
  {
    assert Pow2(2) == 4;
    assert !HasBit(2, 0) && HasBit(2, 1);
    var pc := PartConstraintsB(levelsNeeded, 2, 4);
    assert TripleLoopContinues(4, 0) && TripleLoopContinues(4, 1);
    assert !TripleLoopContinues(4, 2);
    assert |pc| == 2;
  }
}
