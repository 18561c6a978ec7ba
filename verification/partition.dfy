/**
 * How part_constraints divides the left-deep join orders among workers.
 *
 * With `n_workers = 2^b` and at least `2b` relations, worker `part_id`
 * orients pair `i` (relations `2i` and `2i+1`) by bit `i` of its id, for
 * every `i < b`. An ordering of the relations orients each of those pairs
 * one way or the other, so it obeys the constraints of exactly one worker,
 * and no two workers receive the same constraints. When `n_workers` is not
 * a power of two, some orientations belong to no worker at all.
 */
module Partition {
  import opened Bits
  import opened ParallelUtils
  import opened WorkerSpace
  import opened WorkerDP

  /** `p` lists each relation `0 .. levelsNeeded - 1` exactly once, and nothing else. */
  predicate Ordering(p: seq<int>, levelsNeeded: nat)
  {
    && NoDup(p)
    && (forall x :: x in p ==> 0 <= x < levelsNeeded)
    && (forall v :: 0 <= v < levelsNeeded ==> v in p)
  }

  /** The position of `x` in `p`. */
  function IndexOf(p: seq<int>, x: int): (k: nat)
    requires x in p
    ensures k < |p| && p[k] == x
  {
    if p[0] == x then 0 else 1 + IndexOf(p[1..], x)
  }

  /** In an ordering, a relation sits at one position only. */
  lemma IndexOfUnique(p: seq<int>, levelsNeeded: nat, a: nat)
    requires Ordering(p, levelsNeeded) && a < |p|
    ensures IndexOf(p, p[a]) == a
  {
    var k := IndexOf(p, p[a]);
    if k != a {
      assert false;
    }
  }

  /** In `p`, relation `2i+1` comes before relation `2i`. */
  predicate Swapped(p: seq<int>, i: nat)
    requires 2 * i in p && 2 * i + 1 in p
  {
    IndexOf(p, 2 * i + 1) < IndexOf(p, 2 * i)
  }

  /** The worker id whose bits `0 .. k-1` orient pairs `0 .. k-1` the way `p` does. */
  function PartOf(p: seq<int>, levelsNeeded: nat, k: nat): (id: nat)
    requires Ordering(p, levelsNeeded) && 2 * k <= levelsNeeded
    ensures id < Pow2(k)
  {
    if k == 0 then
      0
    else
      PartOf(p, levelsNeeded, k - 1) + (if Swapped(p, k - 1) then Pow2(k - 1) else 0)
  }

  /** Bit `i` of `PartOf(p, _, k)` is set exactly when `p` puts `2i+1` before `2i`. */
  lemma {:induction false} PartOfBits(p: seq<int>, levelsNeeded: nat, k: nat, i: nat)
    requires Ordering(p, levelsNeeded) && 2 * k <= levelsNeeded && i < k
    ensures HasBit(PartOf(p, levelsNeeded, k), i) <==> Swapped(p, i)
    decreases k
  {
    var prev := PartOf(p, levelsNeeded, k - 1);
    NoBitsAbove(prev, k - 1, k - 1);
    if i < k - 1 {
      PartOfBits(p, levelsNeeded, k - 1, i);
      NoBitsAbove(prev, k - 1, k - 1);
    }
    if Swapped(p, k - 1) {
      AddPow2Bits(prev, k - 1, i);
    } else if i == k - 1 {
      NoBitsAbove(prev, k - 1, i);
    }
  }

  /** With `2^b` workers and `2b` relations or more, every worker gets exactly `b` constraints. */
  lemma PartLength(levelsNeeded: nat, partId: int, b: nat)
    requires 2 * b <= levelsNeeded && Pow2(b) <= 0x4000_0000
    requires IsInt32(partId)
    ensures |PartConstraints(levelsNeeded, partId, Pow2(b))| == b
  {
    var n := |PartConstraints(levelsNeeded, partId, Pow2(b))|;
    assert !PairLoopContinues(levelsNeeded, Pow2(b), n);
    if n < b {
      Pow2Below(n, b);
      assert false;
    } else if b < n {
      var ranAtB := PairLoopContinues(levelsNeeded, Pow2(b), b);
      assert false;
    }
  }

  /** Different workers receive different constraint lists. */
  lemma PartsDistinct(levelsNeeded: nat, b: nat, id1: int, id2: int)
    requires 2 * b <= levelsNeeded && Pow2(b) <= 0x4000_0000
    requires 0 <= id1 < Pow2(b) && 0 <= id2 < Pow2(b) && id1 != id2
    ensures PartConstraints(levelsNeeded, id1, Pow2(b)) != PartConstraints(levelsNeeded, id2, Pow2(b))
  {
    var pc1 := PartConstraints(levelsNeeded, id1, Pow2(b));
    var pc2 := PartConstraints(levelsNeeded, id2, Pow2(b));
    PartLength(levelsNeeded, id1, b);
    if pc1 == pc2 {
      forall j | 0 <= j < b ensures HasBit(id1, j) <==> HasBit(id2, j) {
        assert pc1[j][0] == pc2[j][0];
      }
      SameBitsEqual(id1, id2, b);
    }
  }

  /** An ordering obeys pair `j` of worker `partId` exactly when bit `j` of the id matches how it orients the pair. */
  lemma ObeysPair(p: seq<int>, levelsNeeded: nat, b: nat, partId: int, j: nat)
    requires Ordering(p, levelsNeeded) && 2 * b <= levelsNeeded && Pow2(b) <= 0x4000_0000
    requires 0 <= partId < Pow2(b) && j < b
    ensures var pc := PartConstraints(levelsNeeded, partId, Pow2(b));
            j < |pc| && IndexOf(p, pc[j][0]) < IndexOf(p, pc[j][1]) <==> (HasBit(partId, j) <==> Swapped(p, j))
  {
    PartLength(levelsNeeded, partId, b);
    var x, y := IndexOf(p, 2 * j), IndexOf(p, 2 * j + 1);
    assert x != y;
  }

  /**
   * The partition property of part_constraints: with `n_workers = 2^b`
   * and at least `2b` relations, an ordering of the relations obeys the
   * constraints of worker `partId` exactly when `partId` is the one worker
   * `PartOf(p, _, b)` below `n_workers`.
   */
  lemma {:induction false} PartitionExact(p: seq<int>, levelsNeeded: nat, b: nat, partId: int)
    requires Ordering(p, levelsNeeded) && 2 * b <= levelsNeeded && Pow2(b) <= 0x4000_0000
    requires 0 <= partId < Pow2(b)
    ensures PartOf(p, levelsNeeded, b) < Pow2(b)
    ensures RespectsOrder(p, PartConstraints(levelsNeeded, partId, Pow2(b))) <==> partId == PartOf(p, levelsNeeded, b)
  {
    var pc := PartConstraints(levelsNeeded, partId, Pow2(b));
    var id := PartOf(p, levelsNeeded, b);
    PartLength(levelsNeeded, partId, b);
    if RespectsOrder(p, pc) {
      forall j | 0 <= j < b ensures HasBit(partId, j) <==> HasBit(id, j) {
        ObeysPair(p, levelsNeeded, b, partId, j);
        PartOfBits(p, levelsNeeded, b, j);
        var a, c := IndexOf(p, pc[j][0]), IndexOf(p, pc[j][1]);
        assert p[a] == pc[j][0] && p[c] == pc[j][1];
      }
      SameBitsEqual(partId, id, b);
    }
    if partId == id {
      forall j, a, c | 0 <= j < |pc| && 0 <= a < |p| && 0 <= c < |p| && p[a] == pc[j][0] && p[c] == pc[j][1]
        ensures a < c
      {
        ObeysPair(p, levelsNeeded, b, partId, j);
        PartOfBits(p, levelsNeeded, b, j);
        IndexOfUnique(p, levelsNeeded, a);
        IndexOfUnique(p, levelsNeeded, c);
      }
    }
  }

  /**
   * With three workers and four relations, the ordering `1, 0, 3, 2`
   * obeys no worker's constraints: bit pattern 3, which would orient both
   * pairs backwards, is not a worker id.
   */
  lemma PartitionGap()
    ensures Ordering([1, 0, 3, 2], 4)
    ensures forall partId :: 0 <= partId < 3 ==> !RespectsOrder([1, 0, 3, 2], PartConstraints(4, partId, 3))
  {
    var p := [1, 0, 3, 2];
    forall partId | 0 <= partId < 3 ensures !RespectsOrder(p, PartConstraints(4, partId, 3)) {
      var pc := PartConstraints(4, partId, 3);
      assert PairLoopContinues(4, 3, 0) && PairLoopContinues(4, 3, 1);
      assert !PairLoopContinues(4, 3, 2);
      assert |pc| == 2;
      assert HasBit(partId, 0) ==> partId == 1;
      if partId == 1 {
        assert !HasBit(1, 1);
        assert p[3] == pc[1][0] && p[2] == pc[1][1];
      } else {
        assert p[1] == pc[0][0] && p[0] == pc[0][1];
      }
    }
  }
}
