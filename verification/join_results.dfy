/**
 * adm_join_results and adm_join_results_b (parallel_worker.c, lines 206-249).
 *
 * Both fold `cartesian_product` over a list of groups, from the left and
 * starting from NIL: group `i` is the list of local choices for the block of
 * relations `{2i, 2i+1}` (or `{3i, 3i+1, 3i+2}` in bushy mode). The lemmas
 * are first proved for any fold whose groups draw from pairwise disjoint
 * blocks and then applied to the two enumerations.
 */
module JoinResults {
  import opened Bits
  import opened ParallelUtils
  import opened WorkerSpace

  /** `cartesian_product` folded over `groups` from the left, starting from NIL. */
  function ProductFold(groups: seq<seq<seq<int>>>): (r: seq<seq<int>>)
  {
    if |groups| == 0 then [] else CartesianProduct(ProductFold(groups[..|groups| - 1]), groups[|groups| - 1])
  }

  /** The relations of all blocks together. */
  ghost function Union(blocks: seq<set<int>>): set<int>
  {
    if |blocks| == 0 then {} else Union(blocks[..|blocks| - 1]) + blocks[|blocks| - 1]
  }

  /** The relation sets a group offers. */
  ghost function Choices(g: seq<seq<int>>): set<set<int>>
  {
    set x | x in g :: Elems(x)
  }

  /**
   * Group `i` offers non-empty, duplicate-free subsets of block `i` that
   * stand for pairwise different sets, and no two blocks share a relation.
   */
  ghost predicate Blocks(groups: seq<seq<seq<int>>>, blocks: seq<set<int>>)
  {
    && |groups| == |blocks|
    && (forall i :: 0 <= i < |groups| ==> Proper(groups[i]) && DistinctSets(groups[i]))
    && (forall i, x :: 0 <= i < |groups| && x in groups[i] ==> Elems(x) <= blocks[i])
    && (forall i, j :: 0 <= i < j < |blocks| ==> blocks[i] !! blocks[j])
  }

  /**
   * `s` is a non-empty set of relations of the blocks that meets each block
   * either not at all or in one of the choices its group offers.
   */
  ghost predicate Picks(groups: seq<seq<seq<int>>>, blocks: seq<set<int>>, s: set<int>)
  {
    && |groups| == |blocks|
    && s != {}
    && s <= Union(blocks)
    && forall i :: 0 <= i < |groups| ==> s * blocks[i] == {} || s * blocks[i] in Choices(groups[i])
  }

  /** `(|g_0| + 1) * ... * (|g_{n-1}| + 1)` */
  function ChoiceProduct(groups: seq<seq<seq<int>>>): (n: nat)
  {
    if |groups| == 0 then 1 else ChoiceProduct(groups[..|groups| - 1]) * (|groups[|groups| - 1]| + 1)
  }

  /* ---------------- blocks ---------------- */

  lemma {:induction false} UnionMember(blocks: seq<set<int>>, i: nat)
    requires i < |blocks|
    ensures blocks[i] <= Union(blocks)
  {
    if i < |blocks| - 1 {
      UnionMember(blocks[..|blocks| - 1], i);
    }
  }

  lemma {:induction false} UnionDisjoint(blocks: seq<set<int>>, t: set<int>)
    requires forall i :: 0 <= i < |blocks| ==> blocks[i] !! t
    ensures Union(blocks) !! t
  {
    if |blocks| > 0 {
      UnionDisjoint(blocks[..|blocks| - 1], t);
    }
  }

  /** Dropping the last group keeps the block structure, and the last block is apart from the rest. */
  lemma BlocksPrefix(groups: seq<seq<seq<int>>>, blocks: seq<set<int>>)
    requires Blocks(groups, blocks) && |groups| > 0
    ensures Blocks(groups[..|groups| - 1], blocks[..|blocks| - 1])
    ensures Union(blocks[..|blocks| - 1]) !! blocks[|blocks| - 1]
    ensures Union(blocks) == Union(blocks[..|blocks| - 1]) + blocks[|blocks| - 1]
  {
    var n := |blocks|;
    UnionDisjoint(blocks[..n - 1], blocks[n - 1]);
  }

  /* ---------------- soundness ---------------- */

  lemma PicksFromLeft(groups: seq<seq<seq<int>>>, blocks: seq<set<int>>, s: set<int>)
    requires Blocks(groups, blocks) && |groups| > 0
    requires Picks(groups[..|groups| - 1], blocks[..|blocks| - 1], s)
    ensures Picks(groups, blocks, s)
  {
    var n := |groups|;
    BlocksPrefix(groups, blocks);
    assert s * blocks[n - 1] == {};
    forall i | 0 <= i < n - 1
      ensures s * blocks[i] == {} || s * blocks[i] in Choices(groups[i])
    {
      assert groups[..n - 1][i] == groups[i] && blocks[..n - 1][i] == blocks[i];
    }
  }

  lemma PicksFromRight(groups: seq<seq<seq<int>>>, blocks: seq<set<int>>, c: seq<int>)
    requires Blocks(groups, blocks) && |groups| > 0
    requires c in groups[|groups| - 1]
    ensures Picks(groups, blocks, Elems(c))
  {
    var n := |groups|;
    BlocksPrefix(groups, blocks);
    var s := Elems(c);
    assert c[0] in s;
    assert s * blocks[n - 1] == s;
    forall i | 0 <= i < n - 1 ensures s * blocks[i] == {} {
      assert blocks[i] !! blocks[n - 1];
    }
  }

  lemma PicksFromBoth(groups: seq<seq<seq<int>>>, blocks: seq<set<int>>, c: seq<int>, y: seq<int>)
    requires Blocks(groups, blocks) && |groups| > 0
    requires c in groups[|groups| - 1]
    requires Picks(groups[..|groups| - 1], blocks[..|blocks| - 1], Elems(y))
    ensures Picks(groups, blocks, Elems(c + y))
  {
    var n := |groups|;
    BlocksPrefix(groups, blocks);
    ElemsConcat(c, y);
    var s := Elems(c + y);
    assert Elems(c) <= blocks[n - 1];
    assert s * blocks[n - 1] == Elems(c);
    forall i | 0 <= i < n - 1
      ensures s * blocks[i] == {} || s * blocks[i] in Choices(groups[i])
    {
      assert blocks[i] !! blocks[n - 1];
      assert s * blocks[i] == Elems(y) * blocks[i];
      assert groups[..n - 1][i] == groups[i] && blocks[..n - 1][i] == blocks[i];
    }
  }

  /**
   * Every subset of the fold is non-empty and duplicate-free, no two stand
   * for the same set, and each picks from every block nothing or one of
   * that block's choices.
   */
  lemma {:induction false} FoldSound(groups: seq<seq<seq<int>>>, blocks: seq<set<int>>)
    requires Blocks(groups, blocks)
    ensures Proper(ProductFold(groups)) && DistinctSets(ProductFold(groups))
    ensures forall x :: x in ProductFold(groups) ==> Picks(groups, blocks, Elems(x))
  {
    var n := |groups|;
    if n > 0 {
      var groups', blocks' := groups[..n - 1], blocks[..n - 1];
      BlocksPrefix(groups, blocks);
      FoldSound(groups', blocks');
      var a, b := ProductFold(groups'), groups[n - 1];
      assert Separated(a, b) by {
        forall y, c | y in a && c in b ensures Elems(y) !! Elems(c) {
          assert Elems(y) <= Union(blocks');
          assert Elems(c) <= blocks[n - 1];
        }
      }
      CartesianDistinct(a, b);
      forall x | x in ProductFold(groups) ensures Picks(groups, blocks, Elems(x)) {
        CartesianMembers(a, b, x);
        if x in a {
          PicksFromLeft(groups, blocks, Elems(x));
        } else if x in b {
          PicksFromRight(groups, blocks, x);
        } else {
          var i, j :| 0 <= i < |b| && 0 <= j < |a| && x == b[i] + a[j];
          assert b[i] in b && a[j] in a;
          PicksFromBoth(groups, blocks, b[i], a[j]);
        }
      }
    }
  }

  /* ---------------- completeness ---------------- */

  /** The part of a picking set that lies in the earlier blocks picks from those blocks. */
  lemma PicksLeftPart(groups: seq<seq<seq<int>>>, blocks: seq<set<int>>, s: set<int>)
    requires Blocks(groups, blocks) && |groups| > 0
    requires Picks(groups, blocks, s)
    requires s * Union(blocks[..|blocks| - 1]) != {}
    ensures Picks(groups[..|groups| - 1], blocks[..|blocks| - 1], s * Union(blocks[..|blocks| - 1]))
  {
    var n := |groups|;
    var groups', blocks' := groups[..n - 1], blocks[..n - 1];
    var left := s * Union(blocks');
    forall i | 0 <= i < n - 1
      ensures left * blocks'[i] == {} || left * blocks'[i] in Choices(groups'[i])
    {
      UnionMember(blocks', i);
      assert left * blocks'[i] == s * blocks[i];
    }
  }

  /** A subset of the fold and a choice of the next group combine into a subset of the next fold. */
  lemma CombineParts(a: seq<seq<int>>, b: seq<seq<int>>, y: seq<int>, c: seq<int>)
    requires y in a && c in b
    ensures c + y in CartesianProduct(a, b)
    ensures Elems(c + y) == Elems(c) + Elems(y)
  {
    var i :| 0 <= i < |b| && b[i] == c;
    var j :| 0 <= j < |a| && a[j] == y;
    CartesianMembers(a, b, c + y);
    ElemsConcat(c, y);
  }

  /** Every set that picks from each block nothing or one of its choices is produced by the fold. */
  lemma {:induction false} FoldComplete(groups: seq<seq<seq<int>>>, blocks: seq<set<int>>, s: set<int>)
    requires Blocks(groups, blocks)
    requires Picks(groups, blocks, s)
    ensures exists x :: x in ProductFold(groups) && Elems(x) == s
  {
    var n := |groups|;
    assert n > 0;
    var groups', blocks' := groups[..n - 1], blocks[..n - 1];
    BlocksPrefix(groups, blocks);
    var a, b := ProductFold(groups'), groups[n - 1];
    assert ProductFold(groups) == CartesianProduct(a, b);
    var left, right := s * Union(blocks'), s * blocks[n - 1];
    assert s == left + right;
    if right == {} {
      PicksLeftPart(groups, blocks, s);
      FoldComplete(groups', blocks', left);
      var y :| y in a && Elems(y) == left;
      CartesianMembers(a, b, y);
    } else {
      assert right in Choices(b);
      var c :| c in b && Elems(c) == right;
      if left == {} {
        CartesianMembers(a, b, c);
      } else {
        PicksLeftPart(groups, blocks, s);
        FoldComplete(groups', blocks', left);
        var y :| y in a && Elems(y) == left;
        CombineParts(a, b, y, c);
      }
    }
  }

  /* ---------------- counting ---------------- */

  /** The fold has one subset fewer than the product of (choices + 1) over the groups. */
  lemma {:induction false} FoldCount(groups: seq<seq<seq<int>>>)
    ensures |ProductFold(groups)| + 1 == ChoiceProduct(groups)
  {
    if |groups| > 0 {
      FoldCount(groups[..|groups| - 1]);
      CartesianLength(ProductFold(groups[..|groups| - 1]), groups[|groups| - 1]);
    }
  }

  /* ---------------- adm_join_results ---------------- */

  /** The groups of adm_join_results: constrained_power_set(constr, 2i, 2i+1) for each `i < k`. */
  function PairGroups(constr: seq<seq<int>>, k: nat): (groups: seq<seq<seq<int>>>)
    requires Tuples(constr, 2)
    ensures |groups| == k
    ensures forall i :: 0 <= i < k ==> groups[i] == ConstrainedPowerSet(constr, 2 * i, 2 * i + 1)
  {
    if k == 0 then [] else PairGroups(constr, k - 1) + [ConstrainedPowerSet(constr, 2 * (k - 1), 2 * (k - 1) + 1)]
  }

  /** The blocks `{2i, 2i+1}` for `i < k`. */
  function PairBlocks(k: nat): (blocks: seq<set<int>>)
    ensures |blocks| == k
    ensures forall i :: 0 <= i < k ==> blocks[i] == {2 * i, 2 * i + 1}
  {
    seq(k, i => {2 * i, 2 * i + 1})
  }

  /**
   * adm_join_results: one group for each `i` with `2i + 1 < levels_needed`,
   * that is `levels_needed / 2` groups; with an odd count the last relation
   * is in no group.
   */
  function AdmJoinResults(levelsNeeded: nat, constr: seq<seq<int>>): (r: seq<seq<int>>)
    requires Tuples(constr, 2)
  {
    ProductFold(PairGroups(constr, levelsNeeded / 2))
  }

  /** A set of relations the constraints allow as an intermediate join result of a left-deep plan. */
  ghost predicate Admissible(levelsNeeded: nat, constr: seq<seq<int>>, s: set<int>)
    requires Tuples(constr, 2)
  {
    Picks(PairGroups(constr, levelsNeeded / 2), PairBlocks(levelsNeeded / 2), s)
  }

  lemma {:induction false} UnionPairBlocks(k: nat)
    ensures forall v :: v in Union(PairBlocks(k)) <==> 0 <= v < 2 * k
  {
    if k > 0 {
      assert PairBlocks(k)[..k - 1] == PairBlocks(k - 1);
      UnionPairBlocks(k - 1);
    }
  }

  /** Two lists differing in whether they hold `w` stand for different sets. */
  lemma ElemsDiffer(x: seq<int>, y: seq<int>, w: int)
    requires (w in x) != (w in y)
    ensures Elems(x) != Elems(y)
  {
    assert w in Elems(x) <==> w in x;
    assert w in Elems(y) <==> w in y;
  }

  /** The lists constrained_power_set can return for `q1 < q2` hold proper, distinct subsets of `{q1, q2}`. */
  lemma PairListChoices(q1: int, q2: int, f1: bool, f2: bool)
    requires q1 < q2
    ensures var g := (if f1 then [[q1]] else []) + (if f2 then [[q2]] else []) + [[q1, q2]];
            Proper(g) && DistinctSets(g) && forall x :: x in g ==> Elems(x) <= {q1, q2}
  {
    var g := (if f1 then [[q1]] else []) + (if f2 then [[q2]] else []) + [[q1, q2]];
    forall p, q | 0 <= p < q < |g| ensures Elems(g[p]) != Elems(g[q]) {
      if (q1 in g[p]) != (q1 in g[q]) {
        ElemsDiffer(g[p], g[q], q1);
      } else {
        ElemsDiffer(g[p], g[q], q2);
      }
    }
  }

  /** constrained_power_set of a pair offers proper, distinct subsets of that pair. */
  lemma PairChoices(constr: seq<seq<int>>, i: nat)
    requires Tuples(constr, 2)
    ensures var g := ConstrainedPowerSet(constr, 2 * i, 2 * i + 1);
            Proper(g) && DistinctSets(g) && forall x :: x in g ==> Elems(x) <= {2 * i, 2 * i + 1}
  {
    var flags := ScanFlags(constr, 2 * i, 2 * i + 1);
    PairListChoices(2 * i, 2 * i + 1, flags.0, flags.1);
  }

  /** The pairs `{2i, 2i+1}` share no relation. */
  lemma PairBlocksDisjoint(k: nat)
    ensures forall i, j :: 0 <= i < j < k ==> PairBlocks(k)[i] !! PairBlocks(k)[j]
  {
    var blocks := PairBlocks(k);
    forall i, j | 0 <= i < j < k ensures blocks[i] !! blocks[j] {
      assert blocks[i] == {2 * i, 2 * i + 1};
      assert blocks[j] == {2 * j, 2 * j + 1};
    }
  }

  lemma PairBlocksOK(constr: seq<seq<int>>, k: nat)
    requires Tuples(constr, 2)
    ensures Blocks(PairGroups(constr, k), PairBlocks(k))
  {
    var groups, blocks := PairGroups(constr, k), PairBlocks(k);
    forall i | 0 <= i < k
      ensures Proper(groups[i]) && DistinctSets(groups[i])
      ensures forall x :: x in groups[i] ==> Elems(x) <= blocks[i]
    {
      PairChoices(constr, i);
    }
    PairBlocksDisjoint(k);
  }

  /**
   * Every subset adm_join_results produces is non-empty, duplicate-free,
   * uses only relations below `2 * (levels_needed / 2)` and is admissible;
   * no two of them stand for the same set of relations.
   */
  lemma AdmJoinResultsSound(levelsNeeded: nat, constr: seq<seq<int>>)
    requires Tuples(constr, 2)
    ensures Proper(AdmJoinResults(levelsNeeded, constr))
    ensures DistinctSets(AdmJoinResults(levelsNeeded, constr))
    ensures forall x :: x in AdmJoinResults(levelsNeeded, constr) ==>
              Admissible(levelsNeeded, constr, Elems(x)) &&
              forall v :: v in x ==> 0 <= v < 2 * (levelsNeeded / 2)
  {
    var k := levelsNeeded / 2;
    PairBlocksOK(constr, k);
    FoldSound(PairGroups(constr, k), PairBlocks(k));
    UnionPairBlocks(k);
    forall x, v | x in AdmJoinResults(levelsNeeded, constr) && v in x ensures 0 <= v < 2 * k {
      assert v in Elems(x);
    }
  }

  /** Every admissible set is produced by adm_join_results. */
  lemma AdmJoinResultsComplete(levelsNeeded: nat, constr: seq<seq<int>>, s: set<int>)
    requires Tuples(constr, 2)
    requires Admissible(levelsNeeded, constr, s)
    ensures exists x :: x in AdmJoinResults(levelsNeeded, constr) && Elems(x) == s
  {
    var k := levelsNeeded / 2;
    PairBlocksOK(constr, k);
    FoldComplete(PairGroups(constr, k), PairBlocks(k), s);
  }

  /** `|adm_join_results| = (|cps_0| + 1) * ... * (|cps_{k-1}| + 1) - 1` with `k = levels_needed / 2`. */
  lemma AdmJoinResultsCount(levelsNeeded: nat, constr: seq<seq<int>>)
    requires Tuples(constr, 2)
    ensures |AdmJoinResults(levelsNeeded, constr)| + 1 == ChoiceProduct(PairGroups(constr, levelsNeeded / 2))
  {
    FoldCount(PairGroups(constr, levelsNeeded / 2));
  }

  /** No two subsets adm_join_results produces have the same bitmap. */
  lemma AdmJoinResultsMasks(levelsNeeded: nat, constr: seq<seq<int>>)
    requires Tuples(constr, 2)
    ensures var r := AdmJoinResults(levelsNeeded, constr);
            (forall x, v :: x in r && v in x ==> 0 <= v) &&
            forall p, q :: 0 <= p < q < |r| ==> Bitmap(r[p]) != Bitmap(r[q])
  {
    var r := AdmJoinResults(levelsNeeded, constr);
    AdmJoinResultsSound(levelsNeeded, constr);
    forall p, q | 0 <= p < q < |r| ensures Bitmap(r[p]) != Bitmap(r[q]) {
      assert r[p] in r && r[q] in r;
      BitmapEqual(r[p], r[q], 2 * (levelsNeeded / 2));
      assert Elems(r[p]) != Elems(r[q]);
    }
  }

  /* ---------------- adm_join_results_b ---------------- */

  /** The groups of adm_join_results_b: constrained_power_set_b(constr, 3i, 3i+1, 3i+2) for each `i < k`. */
  function TripleGroups(constr: seq<seq<int>>, k: nat): (groups: seq<seq<seq<int>>>)
    requires Tuples(constr, 2)
    ensures |groups| == k
    ensures forall i :: 0 <= i < k ==> groups[i] == ConstrainedPowerSetB(constr, 3 * i, 3 * i + 1, 3 * i + 2)
  {
    if k == 0 then []
    else TripleGroups(constr, k - 1) + [ConstrainedPowerSetB(constr, 3 * (k - 1), 3 * (k - 1) + 1, 3 * (k - 1) + 2)]
  }

  /** The blocks `{3i, 3i+1, 3i+2}` for `i < k`. */
  function TripleBlocks(k: nat): (blocks: seq<set<int>>)
    ensures |blocks| == k
    ensures forall i :: 0 <= i < k ==> blocks[i] == {3 * i, 3 * i + 1, 3 * i + 2}
  {
    seq(k, i => {3 * i, 3 * i + 1, 3 * i + 2})
  }

  /** adm_join_results_b: one group for each `i` with `3i + 2 < levels_needed`, that is `levels_needed / 3` groups. */
  function AdmJoinResultsB(levelsNeeded: nat, constr: seq<seq<int>>): (r: seq<seq<int>>)
    requires Tuples(constr, 2)
  {
    ProductFold(TripleGroups(constr, levelsNeeded / 3))
  }

  lemma {:induction false} UnionTripleBlocks(k: nat)
    ensures forall v :: v in Union(TripleBlocks(k)) <==> 0 <= v < 3 * k
  {
    if k > 0 {
      assert TripleBlocks(k)[..k - 1] == TripleBlocks(k - 1);
      UnionTripleBlocks(k - 1);
    }
  }

  /** The lists constrained_power_set_b can return for `q1 < q2 < q3` hold proper, distinct subsets of `{q1, q2, q3}`. */
  lemma TripleListChoices(q1: int, q2: int, q3: int, f1: bool, f2: bool)
    requires q1 < q2 < q3
    ensures var g := [[q1], [q2], [q3], [q1, q2]] + (if f1 then [[q1, q3]] else []) +
                     (if f2 then [[q2, q3]] else []) + [[q1, q2, q3]];
            Proper(g) && DistinctSets(g) && forall x :: x in g ==> Elems(x) <= {q1, q2, q3}
  {
    var g := [[q1], [q2], [q3], [q1, q2]] + (if f1 then [[q1, q3]] else []) +
             (if f2 then [[q2, q3]] else []) + [[q1, q2, q3]];
    TripleListDistinct(q1, q2, q3, f1, f2);
    forall x | x in g ensures |x| > 0 && NoDup(x) && Elems(x) <= {q1, q2, q3} {
      assert forall w :: w in Elems(x) <==> w in x;
    }
  }

  /** Any two of those lists differ in whether they hold `q1`, `q2` or `q3`. */
  lemma TripleListDistinct(q1: int, q2: int, q3: int, f1: bool, f2: bool)
    requires q1 < q2 < q3
    ensures DistinctSets([[q1], [q2], [q3], [q1, q2]] + (if f1 then [[q1, q3]] else []) +
                         (if f2 then [[q2, q3]] else []) + [[q1, q2, q3]])
  {
    var g := [[q1], [q2], [q3], [q1, q2]] + (if f1 then [[q1, q3]] else []) +
             (if f2 then [[q2, q3]] else []) + [[q1, q2, q3]];
    forall p, q | 0 <= p < q < |g| ensures Elems(g[p]) != Elems(g[q]) {
      if (q1 in g[p]) != (q1 in g[q]) {
        ElemsDiffer(g[p], g[q], q1);
      } else if (q2 in g[p]) != (q2 in g[q]) {
        ElemsDiffer(g[p], g[q], q2);
      } else {
        ElemsDiffer(g[p], g[q], q3);
      }
    }
  }

  /** constrained_power_set_b of a triple offers proper, distinct subsets of that triple. */
  lemma TripleChoices(constr: seq<seq<int>>, i: nat)
    requires Tuples(constr, 2)
    ensures var g := ConstrainedPowerSetB(constr, 3 * i, 3 * i + 1, 3 * i + 2);
            Proper(g) && DistinctSets(g) && forall x :: x in g ==> Elems(x) <= {3 * i, 3 * i + 1, 3 * i + 2}
  {
    var flags := ScanFlags(constr, 3 * i, 3 * i + 1);
    TripleListChoices(3 * i, 3 * i + 1, 3 * i + 2, flags.0, flags.1);
  }

  /** The triples `{3i, 3i+1, 3i+2}` share no relation. */
  lemma TripleBlocksDisjoint(k: nat)
    ensures forall i, j :: 0 <= i < j < k ==> TripleBlocks(k)[i] !! TripleBlocks(k)[j]
  {
    var blocks := TripleBlocks(k);
    forall i, j | 0 <= i < j < k ensures blocks[i] !! blocks[j] {
      assert 3 * i + 2 < 3 * j;
      assert blocks[i] == {3 * i, 3 * i + 1, 3 * i + 2};
      assert blocks[j] == {3 * j, 3 * j + 1, 3 * j + 2};
    }
  }

  lemma TripleBlocksOK(constr: seq<seq<int>>, k: nat)
    requires Tuples(constr, 2)
    ensures Blocks(TripleGroups(constr, k), TripleBlocks(k))
  {
    var groups, blocks := TripleGroups(constr, k), TripleBlocks(k);
    forall i | 0 <= i < k
      ensures Proper(groups[i]) && DistinctSets(groups[i])
      ensures forall x :: x in groups[i] ==> Elems(x) <= blocks[i]
    {
      TripleChoices(constr, i);
    }
    TripleBlocksDisjoint(k);
  }

  /**
   * A set of relations the bushy enumeration allows: it meets every triple
   * either not at all or in one of constrained_power_set_b's choices.
   */
  ghost predicate AdmissibleB(levelsNeeded: nat, constr: seq<seq<int>>, s: set<int>)
    requires Tuples(constr, 2)
  {
    Picks(TripleGroups(constr, levelsNeeded / 3), TripleBlocks(levelsNeeded / 3), s)
  }

  /**
   * Every subset adm_join_results_b produces is non-empty, duplicate-free,
   * allowed by the triples' choices and uses only relations below
   * `3 * (levels_needed / 3)`; no two of them stand for the same set or
   * have the same bitmap.
   */
  lemma AdmJoinResultsBSound(levelsNeeded: nat, constr: seq<seq<int>>)
    requires Tuples(constr, 2)
    ensures Proper(AdmJoinResultsB(levelsNeeded, constr))
    ensures DistinctSets(AdmJoinResultsB(levelsNeeded, constr))
    ensures forall x :: x in AdmJoinResultsB(levelsNeeded, constr) ==> AdmissibleB(levelsNeeded, constr, Elems(x))
    ensures forall x, v :: x in AdmJoinResultsB(levelsNeeded, constr) && v in x ==> 0 <= v < 3 * (levelsNeeded / 3)
    ensures var r := AdmJoinResultsB(levelsNeeded, constr);
            (forall x, v :: x in r && v in x ==> 0 <= v) &&
            forall p, q :: 0 <= p < q < |r| ==> Bitmap(r[p]) != Bitmap(r[q])
  {
    var k := levelsNeeded / 3;
    var r := AdmJoinResultsB(levelsNeeded, constr);
    TripleBlocksOK(constr, k);
    FoldSound(TripleGroups(constr, k), TripleBlocks(k));
    UnionTripleBlocks(k);
    forall x, v | x in r && v in x ensures 0 <= v < 3 * k {
      assert v in Elems(x);
    }
    forall p, q | 0 <= p < q < |r| ensures Bitmap(r[p]) != Bitmap(r[q]) {
      assert r[p] in r && r[q] in r;
      BitmapEqual(r[p], r[q], 3 * k);
      assert Elems(r[p]) != Elems(r[q]);
    }
  }

  /** Every set the triples' choices allow is produced by adm_join_results_b. */
  lemma AdmJoinResultsBComplete(levelsNeeded: nat, constr: seq<seq<int>>, s: set<int>)
    requires Tuples(constr, 2)
    requires AdmissibleB(levelsNeeded, constr, s)
    ensures exists x :: x in AdmJoinResultsB(levelsNeeded, constr) && Elems(x) == s
  {
    var k := levelsNeeded / 3;
    TripleBlocksOK(constr, k);
    FoldComplete(TripleGroups(constr, k), TripleBlocks(k), s);
  }

  /** `|adm_join_results_b| = (|cps_0| + 1) * ... * (|cps_{k-1}| + 1) - 1` with `k = levels_needed / 3`. */
  lemma AdmJoinResultsBCount(levelsNeeded: nat, constr: seq<seq<int>>)
    requires Tuples(constr, 2)
    ensures |AdmJoinResultsB(levelsNeeded, constr)| + 1 == ChoiceProduct(TripleGroups(constr, levelsNeeded / 3))
  {
    FoldCount(TripleGroups(constr, levelsNeeded / 3));
  }
}
