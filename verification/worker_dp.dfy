/**
 * The dynamic program of a worker (parallel_worker.c, try_splits and worker).
 *
 * The DP table `P` is an array indexed by subset bitmaps; an entry is the
 * best plan found so far for that subset, or `None` for the source's NULL.
 * The cost function `parallel_eval` is a parameter `eval` of the model: it
 * asks the host planner for a cost the model cannot see.
 */
module WorkerDP {
  import opened Wrappers
  import opened Bits
  import opened ParallelUtils
  import opened ParallelTree
  import opened WorkerSpace
  import opened JoinResults

  /** The plan space a worker searches: `p_type` 2 (left-deep) or 3 (bushy). */
  datatype PlanType = Linear | Bushy

  /** The contents of the DP table. */
  type Table = seq<Option<ParallelPlan>>

  /** Every index in `s` names a relation of the query. */
  predicate InRange(s: seq<int>, levelsNeeded: nat)
  {
    forall x :: x in s ==> 0 <= x < levelsNeeded
  }

  /** Every constraint has two entries, both relations of the query. */
  predicate ConstraintsIn(constr: seq<seq<int>>, levelsNeeded: nat)
  {
    && Tuples(constr, 2)
    && forall i :: 0 <= i < |constr| ==> 0 <= constr[i][0] < levelsNeeded && 0 <= constr[i][1] < levelsNeeded
  }

  /**
   * None of the first `n` constraints has `u` first and both of its
   * relations in `subRels`: as far as those constraints go, `u` may be the
   * last relation joined into `subRels`. It is stated constraint by
   * constraint, as try_splits scans them; ValidAmongMeans gives the
   * quantified form.
   */
  predicate ValidAmong(constr: seq<seq<int>>, n: nat, subRels: seq<int>, u: int)
    requires Tuples(constr, 2) && n <= |constr|
  {
    n == 0 ||
    (ValidAmong(constr, n - 1, subRels, u) && !(constr[n - 1][0] == u && u in subRels && constr[n - 1][1] in subRels))
  }

  lemma {:induction false} ValidAmongMeans(constr: seq<seq<int>>, n: nat, subRels: seq<int>, u: int)
    requires Tuples(constr, 2) && n <= |constr|
    ensures ValidAmong(constr, n, subRels, u) <==>
              forall j :: 0 <= j < n ==> !(constr[j][0] == u && u in subRels && constr[j][1] in subRels)
  {
    if n > 0 {
      ValidAmongMeans(constr, n - 1, subRels, u);
    }
  }

  /** `u` may be the right-most relation of a left-deep plan for `subRels`. */
  predicate ValidRight(constr: seq<seq<int>>, subRels: seq<int>, u: int)
    requires Tuples(constr, 2)
  {
    ValidAmong(constr, |constr|, subRels, u)
  }

  /** The two table entries try_splits reads for a valid `u` are there. */
  predicate SplitsReady(T: Table, bitmap: nat, subRels: seq<int>, constr: seq<seq<int>>)
    requires Tuples(constr, 2)
  {
    && bitmap < |T|
    && forall u :: u in subRels ==>
         && 0 <= u
         && (ValidRight(constr, subRels, u) ==>
               && BitClear(bitmap, u) < |T| && Pow2(u) < |T|
               && T[BitClear(bitmap, u)].Some? && T[Pow2(u)].Some?)
  }

  /**
   * The plan try_splits builds with `u` on the right: the best plan for the
   * subset without `u` joined with the leaf plan of `u`, at the cost the
   * evaluator gives the new tree.
   */
  function Candidate(T: Table, bitmap: nat, u: nat, eval: BinaryTree -> real): (p: ParallelPlan)
    requires BitClear(bitmap, u) < |T| && Pow2(u) < |T|
    requires T[BitClear(bitmap, u)].Some? && T[Pow2(u)].Some?
    ensures p.root.Node? && p.root.left == T[BitClear(bitmap, u)].value.root && p.root.right == T[Pow2(u)].value.root
    ensures p.root.relids == T[BitClear(bitmap, u)].value.root.relids + T[Pow2(u)].value.root.relids
    ensures p.cost == eval(p.root)
  {
    var bt := Merge(T[BitClear(bitmap, u)].value.root, T[Pow2(u)].value.root);
    CreateParallelPlan(bt, eval(bt))
  }

  /**
   * The update of `P[bitmap]`: an empty entry takes the new plan, a filled
   * one takes it only when the new plan is strictly cheaper.
   */
  function Keep(cur: Option<ParallelPlan>, p: ParallelPlan): (r: Option<ParallelPlan>)
    ensures r == cur || r == Some(p)
    ensures r.Some? && r.value.cost <= p.cost
    ensures cur.Some? ==> r.value.cost <= cur.value.cost
    ensures cur.Some? && r != cur ==> p.cost < cur.value.cost
  {
    if cur.None? then Some(p)
    else if cur.value.cost > p.cost then Some(p)
    else cur
  }

  /** The entry for `bitmap` after try_splits has tried the first `k` relations of `subRels`. */
  function SplitsUpTo(T: Table, bitmap: nat, subRels: seq<int>, constr: seq<seq<int>>, eval: BinaryTree -> real, k: nat): (r: Option<ParallelPlan>)
    requires Tuples(constr, 2) && SplitsReady(T, bitmap, subRels, constr)
    requires k <= |subRels|
  {
    if k == 0 then T[bitmap]
    else
      var prev := SplitsUpTo(T, bitmap, subRels, constr, eval, k - 1);
      var u := subRels[k - 1];
      assert u in subRels;
      if ValidRight(constr, subRels, u) then Keep(prev, Candidate(T, bitmap, u, eval)) else prev
  }

  /**
   * The entry never gets more expensive, is filled once a valid relation has
   * been tried, and costs no more than any candidate tried.
   */
  lemma {:induction false} SplitsBest(T: Table, bitmap: nat, subRels: seq<int>, constr: seq<seq<int>>, eval: BinaryTree -> real, k: nat)
    requires Tuples(constr, 2) && SplitsReady(T, bitmap, subRels, constr)
    requires k <= |subRels|
    ensures var r := SplitsUpTo(T, bitmap, subRels, constr, eval, k);
            && (T[bitmap].Some? ==> r.Some? && r.value.cost <= T[bitmap].value.cost)
            && forall j :: 0 <= j < k && ValidRight(constr, subRels, subRels[j]) ==>
                 r.Some? && r.value.cost <= Candidate(T, bitmap, subRels[j], eval).cost
  {
    if k > 0 {
      SplitsBest(T, bitmap, subRels, constr, eval, k - 1);
    }
  }

  /**
   * The entry is the one the table had, or the candidate of a valid relation
   * that is cheaper than the old entry and strictly cheaper than every valid
   * candidate tried before it: on a tie, the earlier plan stays.
   */
  lemma {:induction false} SplitsChoice(T: Table, bitmap: nat, subRels: seq<int>, constr: seq<seq<int>>, eval: BinaryTree -> real, k: nat)
    requires Tuples(constr, 2) && SplitsReady(T, bitmap, subRels, constr)
    requires k <= |subRels|
    ensures var r := SplitsUpTo(T, bitmap, subRels, constr, eval, k);
            || r == T[bitmap]
            || exists j :: 0 <= j < k && FirstBest(T, bitmap, subRels, constr, eval, j, r)
  {
    if k > 0 {
      SplitsChoice(T, bitmap, subRels, constr, eval, k - 1);
      SplitsBest(T, bitmap, subRels, constr, eval, k - 1);
      var prev := SplitsUpTo(T, bitmap, subRels, constr, eval, k - 1);
      var r := SplitsUpTo(T, bitmap, subRels, constr, eval, k);
      if r != prev {
        assert FirstBest(T, bitmap, subRels, constr, eval, k - 1, r);
      }
    }
  }

  /**
   * `r` is the candidate of `subRels[j]`, a valid relation, cheaper than the
   * old entry and strictly cheaper than every valid candidate before `j`.
   */
  ghost predicate FirstBest(T: Table, bitmap: nat, subRels: seq<int>, constr: seq<seq<int>>, eval: BinaryTree -> real, j: nat, r: Option<ParallelPlan>)
    requires Tuples(constr, 2) && SplitsReady(T, bitmap, subRels, constr)
    requires j < |subRels|
  {
    && ValidRight(constr, subRels, subRels[j])
    && r == Some(Candidate(T, bitmap, subRels[j], eval))
    && (T[bitmap].Some? ==> r.value.cost <= T[bitmap].value.cost)
    && forall i :: 0 <= i < j && ValidRight(constr, subRels, subRels[i]) ==>
         r.value.cost < Candidate(T, bitmap, subRels[i], eval).cost
  }

  /** Trying `subRels[k]` keeps the cheaper of the entry so far and its candidate when it is valid. */
  lemma SplitsStep(T: Table, bitmap: nat, subRels: seq<int>, constr: seq<seq<int>>, eval: BinaryTree -> real, k: nat)
    requires Tuples(constr, 2) && SplitsReady(T, bitmap, subRels, constr)
    requires k < |subRels|
    ensures subRels[k] in subRels && 0 <= subRels[k]
    ensures SplitsUpTo(T, bitmap, subRels, constr, eval, k + 1) ==
              if ValidRight(constr, subRels, subRels[k])
              then Keep(SplitsUpTo(T, bitmap, subRels, constr, eval, k), Candidate(T, bitmap, subRels[k], eval))
              else SplitsUpTo(T, bitmap, subRels, constr, eval, k)
  {
  }

  /** The bitmaps try_splits touches for a relation `u` of a subset of at least two relations. */
  lemma SplitIndices(levelsNeeded: nat, subRels: seq<int>, u: int)
    requires |subRels| >= 2 && NoDup(subRels) && InRange(subRels, levelsNeeded)
    requires u in subRels
    ensures Bitmap(subRels) < Pow2(levelsNeeded)
    ensures Pow2(u) < Pow2(levelsNeeded)
    ensures BitClear(Bitmap(subRels), u) != Bitmap(subRels)
    ensures Pow2(u) != Bitmap(subRels)
  {
    BitmapBound(subRels, levelsNeeded);
    Pow2Below(u, levelsNeeded);
    assert HasBit(Bitmap(subRels), u);
    var w := if subRels[0] == u then subRels[1] else subRels[0];
    assert w in subRels && w != u;
    SingleBit(u, w);
  }

  /** Two or more distinct relations never make a singleton bitmap. */
  lemma NotSingleton(subRels: seq<int>, v: nat)
    requires |subRels| >= 2 && NoDup(subRels) && forall x :: x in subRels ==> 0 <= x
    ensures Bitmap(subRels) != Pow2(v)
  {
    assert subRels[0] in subRels && subRels[1] in subRels;
    SingleBit(v, subRels[0]);
    SingleBit(v, subRels[1]);
  }

  /**
   * The first part of try_splits: the subset's bitmap, and the flags that
   * mark which relations may be placed on the right, a relation being ruled
   * out when a constraint has it first and both of its relations in the
   * subset.
   */
  method MarkValid(levelsNeeded: nat, subRels: seq<int>, constr: seq<seq<int>>)
    returns (valid: array<bool>, bitmap: nat)
    requires InRange(subRels, levelsNeeded) && ConstraintsIn(constr, levelsNeeded)
    ensures fresh(valid) && valid.Length == levelsNeeded
    ensures bitmap == Bitmap(subRels)
    ensures forall v :: 0 <= v < levelsNeeded ==> (valid[v] <==> ValidRight(constr, subRels, v))
  {
    valid := new bool[levelsNeeded];
    var present := new bool[levelsNeeded];
    bitmap := 0;
    var i := 0;
    while i < levelsNeeded
      modifies valid, present
      invariant 0 <= i <= levelsNeeded
      invariant forall v :: 0 <= v < i ==> valid[v] && !present[v]
    {
      valid[i] := true;
      present[i] := false;
      i := i + 1;
    }

    i := 0;
    while i < |subRels|
      modifies present
      invariant 0 <= i <= |subRels|
      invariant InRange(subRels[..i], levelsNeeded) && bitmap == Bitmap(subRels[..i])
      invariant forall v :: 0 <= v < levelsNeeded ==> valid[v] && (present[v] <==> v in subRels[..i])
    {
      var num := subRels[i];
      assert num in subRels;
      assert subRels[..i + 1] == subRels[..i] + [num];
      assert subRels[..i + 1][..i] == subRels[..i];
      bitmap := BitOr(bitmap, num);
      present[num] := true;
      i := i + 1;
    }
    assert subRels[..|subRels|] == subRels;

    i := 0;
    while i < |constr|
      modifies valid
      invariant 0 <= i <= |constr|
      invariant forall v :: 0 <= v < levelsNeeded ==> (present[v] <==> v in subRels)
      invariant forall v :: 0 <= v < levelsNeeded ==> (valid[v] <==> ValidAmong(constr, i, subRels, v))
    {
      var q1 := constr[i][0];
      var q2 := constr[i][1];
      if present[q1] && present[q2] {
        valid[q1] := false;
      }
      i := i + 1;
    }
  }

  /**
   * try_splits: `P[bitmap]` for the subset `subRels` becomes the cheapest of
   * its old entry and the plans that put a valid relation `u` on the right of
   * the best plan without it (MarkValid says which are valid); ties keep the
   * earlier plan and no other entry changes.
   */
  method TrySplits(levelsNeeded: nat, subRels: seq<int>, constr: seq<seq<int>>,
                   P: array<Option<ParallelPlan>>, eval: BinaryTree -> real)
    requires P.Length == Pow2(levelsNeeded)
    requires |subRels| >= 2 && NoDup(subRels) && InRange(subRels, levelsNeeded)
    requires ConstraintsIn(constr, levelsNeeded)
    requires SplitsReady(P[..], Bitmap(subRels), subRels, constr)
    modifies P
    ensures P[..] == old(P[..])[Bitmap(subRels) := SplitsUpTo(old(P[..]), Bitmap(subRels), subRels, constr, eval, |subRels|)]
  {
    ghost var T := P[..];
    var valid, bitmap := MarkValid(levelsNeeded, subRels, constr);
    var i := 0;
    while i < |subRels|
      modifies P
      invariant 0 <= i <= |subRels|
      invariant P[..] == T[bitmap := SplitsUpTo(T, bitmap, subRels, constr, eval, i)]
    {
      var u := subRels[i];
      assert u in subRels;
      TryRight(levelsNeeded, subRels, constr, P, eval, valid[u], bitmap, i, T);
      i := i + 1;
    }
  }

  /**
   * One pass of try_splits' main loop, for `u = subRels[i]`: when `u` is
   * valid, the plan with `u` on the right replaces `P[bitmap]` if that is
   * NULL or strictly dearer.
   */
  method TryRight(levelsNeeded: nat, subRels: seq<int>, constr: seq<seq<int>>,
                  P: array<Option<ParallelPlan>>, eval: BinaryTree -> real,
                  isValid: bool, bitmap: nat, i: nat, ghost T: Table)
    requires P.Length == Pow2(levelsNeeded)
    requires |subRels| >= 2 && NoDup(subRels) && InRange(subRels, levelsNeeded)
    requires ConstraintsIn(constr, levelsNeeded)
    requires bitmap == Bitmap(subRels) && SplitsReady(T, bitmap, subRels, constr)
    requires i < |subRels| && (isValid <==> ValidRight(constr, subRels, subRels[i]))
    requires P[..] == T[bitmap := SplitsUpTo(T, bitmap, subRels, constr, eval, i)]
    modifies P
    ensures P[..] == T[bitmap := SplitsUpTo(T, bitmap, subRels, constr, eval, i + 1)]
  {
    var u := subRels[i];
    assert u in subRels;
    SplitIndices(levelsNeeded, subRels, u);
    ghost var before := SplitsUpTo(T, bitmap, subRels, constr, eval, i);
    ghost var after := SplitsUpTo(T, bitmap, subRels, constr, eval, i + 1);
    ghost var start := P[..];
    assert P[bitmap] == before;
    SplitsStep(T, bitmap, subRels, constr, eval, i);
    if isValid {
      var lBitmp := BitClear(bitmap, u);
      var lSplt := P[lBitmp];
      var rSplt := P[Pow2(u)];
      var bt := Merge(lSplt.value.root, rSplt.value.root);
      var cost := eval(bt);
      var newPlan := CreateParallelPlan(bt, cost);
      assert lSplt == T[lBitmp] && rSplt == T[Pow2(u)];
      assert newPlan == Candidate(T, bitmap, u, eval);
      if P[bitmap].None? {
        P[bitmap] := Some(newPlan);
      } else if P[bitmap].value.cost > newPlan.cost {
        P[bitmap] := Some(newPlan);
      }
      assert P[bitmap] == Keep(before, newPlan);
    }
    assert P[..] == start[bitmap := after];
  }

  /* ---------------- what the DP table holds ---------------- */

  /** Each constraint `(a, b)` with both relations in `rs` has `a` before `b`. */
  predicate RespectsOrder(rs: seq<int>, constr: seq<seq<int>>)
    requires Tuples(constr, 2)
  {
    forall j, a, b :: 0 <= j < |constr| && 0 <= a < |rs| && 0 <= b < |rs| && rs[a] == constr[j][0] && rs[b] == constr[j][1] ==> a < b
  }

  /** No constraint orders a relation before itself. */
  predicate NoSelfConstraint(constr: seq<seq<int>>)
    requires Tuples(constr, 2)
  {
    forall j :: 0 <= j < |constr| ==> constr[j][0] != constr[j][1]
  }

  /**
   * A plan the table may hold at bitmap `m`: a left-deep tree built by
   * create_leaf and merge over exactly the relations of `m`, each once, in an
   * order the constraints allow, priced by the evaluator (a leaf costs 0).
   */
  ghost predicate EntryOK(levelsNeeded: nat, constr: seq<seq<int>>, eval: BinaryTree -> real, m: nat, e: ParallelPlan)
    requires Tuples(constr, 2)
  {
    var rs := e.root.relids;
    && Built(e.root) && LeftDeep(e.root)
    && NoDup(rs) && InRange(rs, levelsNeeded) && Bitmap(rs) == m
    && RespectsOrder(rs, constr)
    && e.cost == (if e.root.Leaf? then 0.0 else eval(e.root))
  }

  /** Every filled entry of the table is a plan for its bitmap. */
  ghost predicate TableOK(levelsNeeded: nat, constr: seq<seq<int>>, eval: BinaryTree -> real, T: Table)
    requires Tuples(constr, 2)
  {
    forall m :: 0 <= m < |T| && T[m].Some? ==> EntryOK(levelsNeeded, constr, eval, m, T[m].value)
  }

  /** Entry `1 << v` holds the leaf plan of relation `v`, for every relation. */
  ghost predicate LeavesFixed(levelsNeeded: nat, T: Table)
  {
    forall v: nat :: v < levelsNeeded ==> Pow2(v) < |T| && T[Pow2(v)] == Some(CreateParallelPlan(CreateLeaf(v), 0.0))
  }

  /** The bitmap of a single relation. */
  lemma SingletonBitmap(v: nat, w: nat)
    requires v < w
    ensures Bitmap([v]) == Pow2(v)
  {
    BitmapBound([v], w);
    Pow2Below(v, w);
    forall j | 0 <= j < w ensures HasBit(Bitmap([v]), j) <==> HasBit(Pow2(v), j) {
      SingleBit(v, j);
    }
    SameBitsEqual(Bitmap([v]), Pow2(v), w);
  }

  /** The leaf plan of a relation is a plan for its bitmap. */
  lemma LeafOK(levelsNeeded: nat, constr: seq<seq<int>>, eval: BinaryTree -> real, v: nat)
    requires Tuples(constr, 2) && NoSelfConstraint(constr) && v < levelsNeeded
    ensures EntryOK(levelsNeeded, constr, eval, Pow2(v), CreateParallelPlan(CreateLeaf(v), 0.0))
  {
    SingletonBitmap(v, levelsNeeded);
  }

  /** The subset `y` is `q` without `u`, so its bitmap is `q`'s with bit `u` cleared. */
  lemma BitClearMask(levelsNeeded: nat, q: seq<int>, y: seq<int>, u: int)
    requires InRange(q, levelsNeeded) && InRange(y, levelsNeeded)
    requires 0 <= u && Elems(y) == Elems(q) - {u}
    ensures Bitmap(y) == BitClear(Bitmap(q), u)
  {
    BitmapBound(q, levelsNeeded);
    BitmapBound(y, levelsNeeded);
    forall j | 0 <= j < levelsNeeded ensures HasBit(Bitmap(y), j) <==> HasBit(BitClear(Bitmap(q), u), j) {
      assert j in y <==> j in Elems(y);
      assert j in q <==> j in Elems(q);
    }
    SameBitsEqual(Bitmap(y), BitClear(Bitmap(q), u), levelsNeeded);
  }

  /**
   * A candidate built from table entries that are plans is a plan for the
   * subset: `u` is new on the right, and since `u` is valid no constraint
   * wants it before a relation on its left.
   */
  lemma CandidateOK(levelsNeeded: nat, constr: seq<seq<int>>, eval: BinaryTree -> real, T: Table, subRels: seq<int>, u: int)
    requires ConstraintsIn(constr, levelsNeeded) && InRange(subRels, levelsNeeded)
    requires TableOK(levelsNeeded, constr, eval, T) && LeavesFixed(levelsNeeded, T)
    requires SplitsReady(T, Bitmap(subRels), subRels, constr)
    requires u in subRels && ValidRight(constr, subRels, u)
    ensures EntryOK(levelsNeeded, constr, eval, Bitmap(subRels), Candidate(T, Bitmap(subRels), u, eval))
  {
    var bm := Bitmap(subRels);
    var lb := BitClear(bm, u);
    var left := T[lb].value;
    assert EntryOK(levelsNeeded, constr, eval, lb, left);
    assert T[Pow2(u)] == Some(CreateParallelPlan(CreateLeaf(u), 0.0));
    var c := Candidate(T, bm, u, eval);
    assert c.root.relids == left.root.relids + [u];
    AppendRelids(levelsNeeded, subRels, left.root.relids, u);
    ValidAmongMeans(constr, |constr|, subRels, u);
    AppendOrder(constr, subRels, left.root.relids, u);
  }

  /** Appending `u` to the relations of `subRels` without `u` gives the relations of `subRels`, each once. */
  lemma AppendRelids(levelsNeeded: nat, subRels: seq<int>, rsL: seq<int>, u: int)
    requires InRange(subRels, levelsNeeded) && u in subRels
    requires NoDup(rsL) && InRange(rsL, levelsNeeded) && Bitmap(rsL) == BitClear(Bitmap(subRels), u)
    ensures NoDup(rsL + [u]) && InRange(rsL + [u], levelsNeeded) && Bitmap(rsL + [u]) == Bitmap(subRels)
    ensures forall x :: x in rsL ==> x in subRels
  {
    var bm := Bitmap(subRels);
    var lb := BitClear(bm, u);
    var rs := rsL + [u];
    assert u !in rsL by {
      assert HasBit(lb, u) <==> u in rsL;
    }
    CopyConcatSets(rsL, [u]);
    assert Elems([u]) == {u};
    assert forall x :: x in rs <==> x in rsL || x == u;
    forall x | x in rsL ensures x in subRels {
      assert HasBit(lb, x);
    }
    BitmapBound(rs, levelsNeeded);
    BitmapBound(subRels, levelsNeeded);
    SameBitsEqual(Bitmap(rs), bm, levelsNeeded);
  }

  /**
   * Appending a valid `u` to an order the constraints allow keeps it allowed:
   * no constraint wants `u` before a relation of the subset.
   */
  lemma AppendOrder(constr: seq<seq<int>>, subRels: seq<int>, rsL: seq<int>, u: int)
    requires Tuples(constr, 2) && RespectsOrder(rsL, constr)
    requires forall x :: x in rsL ==> x in subRels
    requires forall j :: 0 <= j < |constr| ==> !(constr[j][0] == u && u in subRels && constr[j][1] in subRels)
    requires u in subRels && u !in rsL
    ensures RespectsOrder(rsL + [u], constr)
  {
    var rs := rsL + [u];
    forall j, a, b | 0 <= j < |constr| && 0 <= a < |rs| && 0 <= b < |rs| && rs[a] == constr[j][0] && rs[b] == constr[j][1]
      ensures a < b
    {
      assert rs[b] in subRels;
      if a < |rsL| && b < |rsL| {
        assert rsL[a] == rs[a] && rsL[b] == rs[b];
      }
    }
  }


  /** try_splits leaves a plan for the subset, or nothing, at the subset's bitmap. */
  lemma {:induction false} SplitsOK(levelsNeeded: nat, constr: seq<seq<int>>, eval: BinaryTree -> real, T: Table, subRels: seq<int>, k: nat)
    requires ConstraintsIn(constr, levelsNeeded) && InRange(subRels, levelsNeeded)
    requires TableOK(levelsNeeded, constr, eval, T) && LeavesFixed(levelsNeeded, T)
    requires SplitsReady(T, Bitmap(subRels), subRels, constr) && k <= |subRels|
    ensures var r := SplitsUpTo(T, Bitmap(subRels), subRels, constr, eval, k);
            r.Some? ==> EntryOK(levelsNeeded, constr, eval, Bitmap(subRels), r.value)
  {
    if k > 0 {
      SplitsOK(levelsNeeded, constr, eval, T, subRels, k - 1);
      var u := subRels[k - 1];
      if ValidRight(constr, subRels, u) {
        CandidateOK(levelsNeeded, constr, eval, T, subRels, u);
      }
    }
  }

  /* ---------------- the left-deep constraints of a partition ---------------- */

  /**
   * Constraint `i` relates the two relations of pair `i`, in one order or the
   * other, and every pair it names lies within the query.
   */
  predicate PairConstraints(pc: seq<seq<int>>, levelsNeeded: nat)
  {
    && ConstraintsIn(pc, levelsNeeded) && NoSelfConstraint(pc)
    && forall i :: 0 <= i < |pc| ==>
         || (pc[i][0] == 2 * i && pc[i][1] == 2 * i + 1)
         || (pc[i][0] == 2 * i + 1 && pc[i][1] == 2 * i)
  }

  /** part_constraints builds constraints of that shape. */
  lemma PartFacts(levelsNeeded: nat, partId: int, nWorkers: int)
    requires IsInt32(partId) && PairLoopDefined(levelsNeeded, nWorkers)
    ensures PairConstraints(PartConstraints(levelsNeeded, partId, nWorkers), levelsNeeded)
  {
    var pc := PartConstraints(levelsNeeded, partId, nWorkers);
    forall i | 0 <= i < |pc|
      ensures |pc[i]| >= 2 && 0 <= pc[i][0] < levelsNeeded && 0 <= pc[i][1] < levelsNeeded
      ensures (pc[i][0] == 2 * i && pc[i][1] == 2 * i + 1) || (pc[i][0] == 2 * i + 1 && pc[i][1] == 2 * i)
    {
      assert PairLoopContinues(levelsNeeded, nWorkers, i) && pc[i] == OrientedPair(partId, i);
    }
  }

  /** Only the constraint of pair `q / 2` can have `q` second. */
  lemma PartSecond(pc: seq<seq<int>>, levelsNeeded: nat, q: int)
    requires PairConstraints(pc, levelsNeeded) && 0 <= q
    ensures SecondIs(pc, q) <==> q / 2 < |pc| && pc[q / 2][1] == q
  {
  }

  /** The relation sets constrained_power_set offers for pair `i`. */
  lemma PairChoiceSets(constr: seq<seq<int>>, i: nat)
    requires Tuples(constr, 2)
    ensures Choices(ConstrainedPowerSet(constr, 2 * i, 2 * i + 1)) ==
              (if SecondIs(constr, 2 * i) then {} else {{2 * i}}) +
              (if SecondIs(constr, 2 * i + 1) then {} else {{2 * i + 1}}) +
              {{2 * i, 2 * i + 1}}
  {
    ConstrainedPowerSetChoices(constr, 2 * i, 2 * i + 1);
    assert Elems([2 * i]) == {2 * i};
    assert Elems([2 * i + 1]) == {2 * i + 1};
    assert Elems([2 * i, 2 * i + 1]) == {2 * i, 2 * i + 1};
  }

  /**
   * Removing a relation that may go on the right from an admissible set of
   * at least two relations leaves an admissible set: the left input of the
   * split try_splits makes was itself a join result of this partition.
   */
  lemma RemoveValidAdmissible(pc: seq<seq<int>>, levelsNeeded: nat, s: set<int>, u: int, w: int)
    requires PairConstraints(pc, levelsNeeded) && Admissible(levelsNeeded, pc, s)
    requires forall j :: 0 <= j < |pc| ==> !(pc[j][0] == u && pc[j][1] in s)
    requires u in s && w in s && w != u
    ensures Admissible(levelsNeeded, pc, s - {u})
  {
    var k := levelsNeeded / 2;
    var groups, blocks := PairGroups(pc, k), PairBlocks(k);
    var rest := s - {u};
    assert w in rest;
    UnionPairBlocks(k);
    assert 0 <= u < 2 * k;
    forall i | 0 <= i < k ensures rest * blocks[i] == {} || rest * blocks[i] in Choices(groups[i]) {
      if i == u / 2 {
        RemoveFromPair(pc, levelsNeeded, s, u, i);
      } else {
        assert u !in blocks[i];
        assert rest * blocks[i] == s * blocks[i];
      }
    }
  }

  /** RemoveValidAdmissible for the pair `u` belongs to: what is left of it is still offered. */
  lemma RemoveFromPair(pc: seq<seq<int>>, levelsNeeded: nat, s: set<int>, u: int, i: nat)
    requires PairConstraints(pc, levelsNeeded)
    requires forall j :: 0 <= j < |pc| ==> !(pc[j][0] == u && pc[j][1] in s)
    requires u == 2 * i || u == 2 * i + 1
    ensures var rest := (s - {u}) * {2 * i, 2 * i + 1};
            rest == {} || rest in Choices(ConstrainedPowerSet(pc, 2 * i, 2 * i + 1))
  {
    var v := if u == 2 * i then 2 * i + 1 else 2 * i;
    assert {2 * i, 2 * i + 1} == {u, v};
    if v in s {
      PartSecond(pc, levelsNeeded, v);
      assert v / 2 == i;
      assert !SecondIs(pc, v);
      assert (s - {u}) * {2 * i, 2 * i + 1} == {v};
      PairChoiceSets(pc, i);
    } else {
      assert (s - {u}) * {2 * i, 2 * i + 1} == {};
    }
  }

  /**
   * Every non-empty set of relations has one that may go on the right: if
   * `w` may not, the relation its constraint puts after it may.
   */
  lemma ValidExists(pc: seq<seq<int>>, levelsNeeded: nat, s: set<int>, w: int)
    requires PairConstraints(pc, levelsNeeded) && w in s
    ensures exists u :: u in s && forall j :: 0 <= j < |pc| ==> !(pc[j][0] == u && pc[j][1] in s)
  {
    if exists j :: 0 <= j < |pc| && pc[j][0] == w && pc[j][1] in s {
      var j :| 0 <= j < |pc| && pc[j][0] == w && pc[j][1] in s;
      var u := pc[j][1];
      forall i | 0 <= i < |pc| ensures pc[i][0] != u {
      }
      assert u in s;
    } else {
      assert w in s;
    }
  }

  /** With two or more relations, the whole set is admissible: each pair joined in full. */
  lemma FullAdmissible(pc: seq<seq<int>>, levelsNeeded: nat)
    requires Tuples(pc, 2) && levelsNeeded >= 2
    ensures Admissible(levelsNeeded, pc, Union(PairBlocks(levelsNeeded / 2)))
    ensures forall v :: v in Union(PairBlocks(levelsNeeded / 2)) <==> 0 <= v < 2 * (levelsNeeded / 2)
  {
    var k := levelsNeeded / 2;
    var groups, blocks := PairGroups(pc, k), PairBlocks(k);
    var s := Union(blocks);
    UnionPairBlocks(k);
    assert 0 in s;
    forall i | 0 <= i < k ensures s * blocks[i] in Choices(groups[i]) {
      UnionMember(blocks, i);
      assert s * blocks[i] == {2 * i, 2 * i + 1};
      PairChoiceSets(pc, i);
    }
  }

  /**
   * A pair that a set closed under the constraints touches is met in one of
   * constrained_power_set's choices.
   */
  lemma ClosedPair(pc: seq<seq<int>>, levelsNeeded: nat, s: set<int>, i: nat)
    requires PairConstraints(pc, levelsNeeded)
    requires forall j :: 0 <= j < |pc| && pc[j][1] in s ==> pc[j][0] in s
    ensures var met := s * {2 * i, 2 * i + 1};
            met == {} || met in Choices(ConstrainedPowerSet(pc, 2 * i, 2 * i + 1))
  {
    var a, b := 2 * i, 2 * i + 1;
    PairChoiceSets(pc, i);
    if a in s && b in s {
      assert s * {a, b} == {a, b};
    } else if a in s {
      assert s * {a, b} == {a};
      assert !SecondIs(pc, a) by {
        PartSecond(pc, levelsNeeded, a);
        assert a / 2 == i;
      }
    } else if b in s {
      assert s * {a, b} == {b};
      assert !SecondIs(pc, b) by {
        PartSecond(pc, levelsNeeded, b);
        assert b / 2 == i;
      }
    } else {
      assert s * {a, b} == {};
    }
  }

  /** A choice for pair `j` that holds the second relation of its constraint holds the first. */
  lemma ChoiceKeeps(pc: seq<seq<int>>, levelsNeeded: nat, j: nat, c: set<int>)
    requires PairConstraints(pc, levelsNeeded) && j < |pc|
    requires c in Choices(ConstrainedPowerSet(pc, 2 * j, 2 * j + 1))
    ensures pc[j][1] in c ==> pc[j][0] in c
  {
    PairChoiceSets(pc, j);
    assert SecondIs(pc, pc[j][1]);
  }

  /** An admissible set holding the second relation of a constraint holds its first. */
  lemma AdmissibleKeeps(pc: seq<seq<int>>, levelsNeeded: nat, s: set<int>, j: nat)
    requires PairConstraints(pc, levelsNeeded) && Admissible(levelsNeeded, pc, s)
    requires j < |pc| && pc[j][1] in s
    ensures pc[j][0] in s
  {
    var k := levelsNeeded / 2;
    assert j < k;
    var met := s * PairBlocks(k)[j];
    assert pc[j][1] in met;
    ChoiceKeeps(pc, levelsNeeded, j, met);
  }

  /**
   * The admissible sets are exactly what the comment on adm_join_results
   * describes: non-empty sets of paired relations in which the second
   * relation of a constraint never occurs without its first.
   */
  lemma AdmissibleMeans(pc: seq<seq<int>>, levelsNeeded: nat, s: set<int>)
    requires PairConstraints(pc, levelsNeeded)
    ensures Admissible(levelsNeeded, pc, s) <==>
              && s != {}
              && (forall v :: v in s ==> 0 <= v < 2 * (levelsNeeded / 2))
              && (forall j :: 0 <= j < |pc| && pc[j][1] in s ==> pc[j][0] in s)
  {
    var k := levelsNeeded / 2;
    UnionPairBlocks(k);
    if Admissible(levelsNeeded, pc, s) {
      forall j | 0 <= j < |pc| && pc[j][1] in s ensures pc[j][0] in s {
        AdmissibleKeeps(pc, levelsNeeded, s, j);
      }
    }
    if && s != {}
       && (forall v :: v in s ==> 0 <= v < 2 * k)
       && (forall j :: 0 <= j < |pc| && pc[j][1] in s ==> pc[j][0] in s)
    {
      forall i | 0 <= i < k
        ensures s * PairBlocks(k)[i] == {} || s * PairBlocks(k)[i] in Choices(PairGroups(pc, k)[i])
      {
        ClosedPair(pc, levelsNeeded, s, i);
      }
    }
  }

  /* ---------------- the worker ---------------- */

  /** Only singleton bitmaps of the first `n` relations are filled. */
  ghost predicate OnlyLeaves(n: nat, T: Table)
  {
    forall m :: 0 <= m < |T| && T[m].Some? ==> exists v: nat :: v < n && m == Pow2(v)
  }

  /** Storing the leaf plan of relation `i` keeps the leaves of the relations before it. */
  lemma AddLeaf(levelsNeeded: nat, i: nat, T: Table)
    requires i < levelsNeeded && |T| == Pow2(levelsNeeded) && LeavesFixed(i, T)
    ensures Pow2(i) < |T|
    ensures LeavesFixed(i + 1, T[Pow2(i) := Some(CreateParallelPlan(CreateLeaf(i), 0.0))])
  {
    Pow2Below(i, levelsNeeded);
    var T' := T[Pow2(i) := Some(CreateParallelPlan(CreateLeaf(i), 0.0))];
    forall v: nat | v < i + 1
      ensures Pow2(v) < |T'| && T'[Pow2(v)] == Some(CreateParallelPlan(CreateLeaf(v), 0.0))
    {
      if v < i {
        Pow2Below(v, i);
      }
    }
  }

  /** Storing the leaf plan of relation `i` fills one more singleton bitmap and nothing else. */
  lemma AddOnlyLeaf(i: nat, T: Table, p: Option<ParallelPlan>)
    requires OnlyLeaves(i, T) && Pow2(i) < |T|
    ensures OnlyLeaves(i + 1, T[Pow2(i) := p])
  {
    var T' := T[Pow2(i) := p];
    forall m | 0 <= m < |T'| && T'[m].Some? ensures exists v: nat :: v < i + 1 && m == Pow2(v) {
      if m != Pow2(i) {
        var v: nat :| v < i && m == Pow2(v);
      }
    }
  }

  /**
   * The DP table as the worker allocates it: NULL everywhere except the
   * singleton bitmaps, which hold the leaf plans at cost 0.
   */
  method InitTable(levelsNeeded: nat) returns (P: array<Option<ParallelPlan>>)
    ensures fresh(P) && P.Length == Pow2(levelsNeeded)
    ensures LeavesFixed(levelsNeeded, P[..]) && OnlyLeaves(levelsNeeded, P[..])
  {
    P := new Option<ParallelPlan>[Pow2(levelsNeeded)];
    var i := 0;
    while i < Pow2(levelsNeeded)
      invariant 0 <= i <= P.Length
      invariant forall m :: 0 <= m < i ==> P[m].None?
    {
      P[i] := None;
      i := i + 1;
    }
    i := 0;
    while i < levelsNeeded
      invariant 0 <= i <= levelsNeeded
      invariant LeavesFixed(i, P[..]) && OnlyLeaves(i, P[..])
    {
      AddLeaf(levelsNeeded, i, P[..]);
      AddOnlyLeaf(i, P[..], Some(CreateParallelPlan(CreateLeaf(i), 0.0)));
      P[Pow2(i)] := Some(CreateParallelPlan(CreateLeaf(i), 0.0));
      i := i + 1;
    }
  }

  /** What the worker's loop relies on about the sorted join results of a left-deep partition. */
  ghost predicate SubsetsOK(levelsNeeded: nat, pc: seq<seq<int>>, sorted: seq<seq<int>>)
    requires Tuples(pc, 2)
  {
    && SortedBySize(sorted)
    && (forall x :: x in sorted ==>
          |x| > 0 && NoDup(x) && InRange(x, 2 * (levelsNeeded / 2)) && Admissible(levelsNeeded, pc, Elems(x)))
    && (forall s :: Admissible(levelsNeeded, pc, s) ==> exists j :: 0 <= j < |sorted| && Elems(sorted[j]) == s)
  }

  /** The sorted join results are the admissible sets, each once, smallest first. */
  lemma LinearSubsets(levelsNeeded: nat, pc: seq<seq<int>>, sorted: seq<seq<int>>)
    requires Tuples(pc, 2)
    requires SortedBySize(sorted) && multiset(sorted) == multiset(AdmJoinResults(levelsNeeded, pc))
    ensures SubsetsOK(levelsNeeded, pc, sorted)
  {
    SortedSound(levelsNeeded, pc, sorted);
    forall s | Admissible(levelsNeeded, pc, s) ensures exists j :: 0 <= j < |sorted| && Elems(sorted[j]) == s {
      SortedComplete(levelsNeeded, pc, sorted, s);
    }
  }

  lemma SortedSound(levelsNeeded: nat, pc: seq<seq<int>>, sorted: seq<seq<int>>)
    requires Tuples(pc, 2)
    requires multiset(sorted) == multiset(AdmJoinResults(levelsNeeded, pc))
    ensures forall x :: x in sorted ==>
              |x| > 0 && NoDup(x) && InRange(x, 2 * (levelsNeeded / 2)) && Admissible(levelsNeeded, pc, Elems(x))
  {
    var r := AdmJoinResults(levelsNeeded, pc);
    AdmJoinResultsSound(levelsNeeded, pc);
    forall x | x in sorted
      ensures |x| > 0 && NoDup(x) && InRange(x, 2 * (levelsNeeded / 2)) && Admissible(levelsNeeded, pc, Elems(x))
    {
      assert x in multiset(sorted);
      assert x in r;
    }
  }

  lemma SortedComplete(levelsNeeded: nat, pc: seq<seq<int>>, sorted: seq<seq<int>>, s: set<int>)
    requires Tuples(pc, 2) && Admissible(levelsNeeded, pc, s)
    requires multiset(sorted) == multiset(AdmJoinResults(levelsNeeded, pc))
    ensures exists j :: 0 <= j < |sorted| && Elems(sorted[j]) == s
  {
    var r := AdmJoinResults(levelsNeeded, pc);
    AdmJoinResultsComplete(levelsNeeded, pc, s);
    var x :| x in r && Elems(x) == s;
    assert x in multiset(r);
    assert x in sorted;
    var j :| 0 <= j < |sorted| && sorted[j] == x;
  }

  /** The subsets of the list name relations by non-negative indices, and no two have the same bitmap. */
  ghost predicate DistinctMasks(sorted: seq<seq<int>>)
  {
    && (forall x, v :: x in sorted && v in x ==> 0 <= v)
    && forall p, q :: 0 <= p < q < |sorted| ==> Bitmap(sorted[p]) != Bitmap(sorted[q])
  }

  /** A list without repeats holds each element once. */
  lemma {:induction false} CountedOnce(r: seq<seq<int>>, x: seq<int>)
    requires forall a, b :: 0 <= a < b < |r| ==> r[a] != r[b]
    ensures multiset(r)[x] <= 1
  {
    if |r| > 0 {
      var init := r[..|r| - 1];
      assert r == init + [r[|r| - 1]];
      CountedOnce(init, x);
      if x == r[|r| - 1] {
        assert x !in init;
      }
    }
  }

  /** An element at two positions is counted at least twice. */
  lemma CountedTwice(s: seq<seq<int>>, p: nat, q: nat)
    requires p < q < |s| && s[p] == s[q]
    ensures multiset(s)[s[p]] >= 2
  {
    assert s == s[..q] + [s[q]] + s[q + 1..];
    assert s[..q][p] == s[p];
    assert s[p] in multiset(s[..q]);
  }

  /** A permutation of a list whose elements have pairwise different bitmaps keeps that property. */
  lemma PermutedMasks(sorted: seq<seq<int>>, r: seq<seq<int>>)
    requires multiset(sorted) == multiset(r) && DistinctMasks(r)
    ensures DistinctMasks(sorted)
  {
    forall x | x in sorted ensures x in r {
      assert x in multiset(sorted);
    }
    forall a, b | 0 <= a < b < |r| ensures r[a] != r[b] {
      assert Bitmap(r[a]) != Bitmap(r[b]);
    }
    forall p, q | 0 <= p < q < |sorted| ensures Bitmap(sorted[p]) != Bitmap(sorted[q]) {
      var x, y := sorted[p], sorted[q];
      if x == y {
        CountedTwice(sorted, p, q);
        CountedOnce(r, x);
      } else {
        assert x in multiset(sorted) && y in multiset(sorted);
        var a :| 0 <= a < |r| && r[a] == x;
        var b :| 0 <= b < |r| && r[b] == y;
        assert a != b;
        if a < b {
          assert Bitmap(r[a]) != Bitmap(r[b]);
        } else {
          assert Bitmap(r[b]) != Bitmap(r[a]);
        }
      }
    }
  }

  /** The sorted join results, a permutation of the join results, have pairwise different bitmaps. */
  lemma SortedMasks(levelsNeeded: nat, pc: seq<seq<int>>, sorted: seq<seq<int>>)
    requires Tuples(pc, 2)
    requires multiset(sorted) == multiset(AdmJoinResults(levelsNeeded, pc))
    ensures DistinctMasks(sorted)
  {
    AdmJoinResultsMasks(levelsNeeded, pc);
    PermutedMasks(sorted, AdmJoinResults(levelsNeeded, pc));
  }

  /** Every subset of the list names relations of the query. */
  predicate AllInRange(sorted: seq<seq<int>>, levelsNeeded: nat)
  {
    forall j :: 0 <= j < |sorted| ==> InRange(sorted[j], levelsNeeded)
  }

  /** Every one of the first `i` subsets of two or more relations has a plan. */
  ghost predicate Filled(levelsNeeded: nat, sorted: seq<seq<int>>, i: nat, T: Table)
    requires AllInRange(sorted, levelsNeeded) && i <= |sorted|
  {
    forall j :: 0 <= j < i && |sorted[j]| > 1 ==> Bitmap(sorted[j]) < |T| && T[Bitmap(sorted[j])].Some?
  }

  /** Bitmap `m` is a singleton or one of the first `i` subsets. */
  ghost predicate Known(levelsNeeded: nat, sorted: seq<seq<int>>, i: nat, m: int)
    requires AllInRange(sorted, levelsNeeded) && i <= |sorted|
  {
    (exists v: nat :: v < levelsNeeded && m == Pow2(v)) || (exists j :: 0 <= j < i && m == Bitmap(sorted[j]))
  }

  /** Only singletons and the first `i` subsets have plans. */
  ghost predicate Placed(levelsNeeded: nat, sorted: seq<seq<int>>, i: nat, T: Table)
    requires AllInRange(sorted, levelsNeeded) && i <= |sorted|
  {
    forall m :: 0 <= m < |T| && T[m].Some? ==> Known(levelsNeeded, sorted, i, m)
  }

  /**
   * The worker's table after the first `i` sorted subsets: leaves in place,
   * every entry a plan for its bitmap, every processed subset of two or more
   * relations filled, and nothing filled but singletons and processed subsets.
   */
  ghost predicate DPState(levelsNeeded: nat, constr: seq<seq<int>>, eval: BinaryTree -> real, sorted: seq<seq<int>>, i: nat, T: Table)
    requires Tuples(constr, 2)
  {
    && |T| == Pow2(levelsNeeded) && i <= |sorted| && AllInRange(sorted, levelsNeeded)
    && LeavesFixed(levelsNeeded, T)
    && TableOK(levelsNeeded, constr, eval, T)
    && Filled(levelsNeeded, sorted, i, T)
    && Placed(levelsNeeded, sorted, i, T)
  }

  /** The freshly initialised table is the state before any subset. */
  lemma StartState(levelsNeeded: nat, constr: seq<seq<int>>, eval: BinaryTree -> real, sorted: seq<seq<int>>, T: Table)
    requires Tuples(constr, 2) && NoSelfConstraint(constr)
    requires |T| == Pow2(levelsNeeded) && LeavesFixed(levelsNeeded, T) && OnlyLeaves(levelsNeeded, T)
    requires AllInRange(sorted, levelsNeeded)
    ensures DPState(levelsNeeded, constr, eval, sorted, 0, T)
  {
    forall m | 0 <= m < |T| && T[m].Some? ensures EntryOK(levelsNeeded, constr, eval, m, T[m].value) {
      var v: nat :| v < levelsNeeded && m == Pow2(v);
      LeafOK(levelsNeeded, constr, eval, v);
    }
  }

  /**
   * For a valid `u` of subset `i`, the subset without `u` is admissible and
   * smaller, so it is one of the subsets sorted before `i`.
   */
  lemma LeftPartEarlier(pc: seq<seq<int>>, levelsNeeded: nat, sorted: seq<seq<int>>, i: nat, u: int) returns (j: nat)
    requires PairConstraints(pc, levelsNeeded) && SubsetsOK(levelsNeeded, pc, sorted)
    requires AllInRange(sorted, levelsNeeded)
    requires i < |sorted| && |sorted[i]| > 1
    requires u in sorted[i] && ValidRight(pc, sorted[i], u)
    ensures j < i && 0 < |sorted[j]| && 0 <= u
    ensures Bitmap(sorted[j]) == BitClear(Bitmap(sorted[i]), u)
  {
    var q := sorted[i];
    assert q in sorted;
    var s := Elems(q);
    var w := if q[0] == u then q[1] else q[0];
    assert w in s && w != u;
    ValidAmongMeans(pc, |pc|, q, u);
    RemoveValidAdmissible(pc, levelsNeeded, s, u, w);
    j :| 0 <= j < |sorted| && Elems(sorted[j]) == s - {u};
    var y := sorted[j];
    assert y in sorted;
    BitClearMask(levelsNeeded, q, y, u);
    ElemsSize(q);
    ElemsSize(y);
    SmallerEarlier(sorted, j, i);
  }

  /** In a list sorted by size, a strictly smaller subset comes first. */
  lemma SmallerEarlier(sorted: seq<seq<int>>, a: nat, b: nat)
    requires SortedBySize(sorted) && a < |sorted| && b < |sorted|
    requires |sorted[a]| < |sorted[b]|
    ensures a < b
  {
  }

  /**
   * When try_splits runs on subset `i`, the entries it reads for a valid `u`
   * are filled: the subset without `u` is a singleton or sorted before it.
   */
  lemma LeftPartFilled(pc: seq<seq<int>>, levelsNeeded: nat, sorted: seq<seq<int>>, i: nat, T: Table, u: int)
    requires PairConstraints(pc, levelsNeeded) && SubsetsOK(levelsNeeded, pc, sorted)
    requires |T| == Pow2(levelsNeeded) && i <= |sorted| && AllInRange(sorted, levelsNeeded)
    requires LeavesFixed(levelsNeeded, T) && Filled(levelsNeeded, sorted, i, T)
    requires i < |sorted| && |sorted[i]| > 1
    requires u in sorted[i] && ValidRight(pc, sorted[i], u)
    ensures 0 <= u && BitClear(Bitmap(sorted[i]), u) < |T| && T[BitClear(Bitmap(sorted[i]), u)].Some?
  {
    var j := LeftPartEarlier(pc, levelsNeeded, sorted, i, u);
    var y := sorted[j];
    if |y| == 1 {
      assert y == [y[0]];
      assert InRange(y, levelsNeeded);
      SingletonBitmap(y[0], levelsNeeded);
    }
  }

  /** Before try_splits runs on subset `i`, its requirements hold. */
  lemma ReadyForSplits(pc: seq<seq<int>>, levelsNeeded: nat, eval: BinaryTree -> real, sorted: seq<seq<int>>, i: nat, T: Table)
    requires PairConstraints(pc, levelsNeeded) && SubsetsOK(levelsNeeded, pc, sorted)
    requires DPState(levelsNeeded, pc, eval, sorted, i, T)
    requires i < |sorted| && |sorted[i]| > 1
    ensures NoDup(sorted[i]) && InRange(sorted[i], levelsNeeded)
    ensures SplitsReady(T, Bitmap(sorted[i]), sorted[i], pc)
  {
    var q := sorted[i];
    assert q in sorted;
    BitmapBound(q, levelsNeeded);
    forall u | u in q && ValidRight(pc, q, u)
      ensures BitClear(Bitmap(q), u) < |T| && T[BitClear(Bitmap(q), u)].Some?
    {
      LeftPartFilled(pc, levelsNeeded, sorted, i, T, u);
    }
  }

  /** try_splits always fills the entry of an admissible subset: some relation may go on the right. */
  lemma SplitsFill(pc: seq<seq<int>>, levelsNeeded: nat, eval: BinaryTree -> real, T: Table, q: seq<int>)
    requires PairConstraints(pc, levelsNeeded) && |q| > 0 && InRange(q, levelsNeeded)
    requires SplitsReady(T, Bitmap(q), q, pc)
    ensures SplitsUpTo(T, Bitmap(q), q, pc, eval, |q|).Some?
  {
    var s := Elems(q);
    assert q[0] in s;
    ValidExists(pc, levelsNeeded, s, q[0]);
    var u :| u in s && forall j :: 0 <= j < |pc| ==> !(pc[j][0] == u && pc[j][1] in s);
    ValidAmongMeans(pc, |pc|, q, u);
    var k :| 0 <= k < |q| && q[k] == u;
    SplitsBest(T, Bitmap(q), q, pc, eval, |q|);
  }

  /** Storing a plan for subset `i`, which is no singleton, moves the state past it. */
  lemma StoreEntry(constr: seq<seq<int>>, levelsNeeded: nat, eval: BinaryTree -> real, sorted: seq<seq<int>>, i: nat, T: Table, e: ParallelPlan)
    requires Tuples(constr, 2) && DPState(levelsNeeded, constr, eval, sorted, i, T)
    requires i < |sorted| && |sorted[i]| > 1 && NoDup(sorted[i])
    requires Bitmap(sorted[i]) < |T| && EntryOK(levelsNeeded, constr, eval, Bitmap(sorted[i]), e)
    ensures DPState(levelsNeeded, constr, eval, sorted, i + 1, T[Bitmap(sorted[i]) := Some(e)])
  {
    var bm := Bitmap(sorted[i]);
    var T' := T[bm := Some(e)];
    forall v: nat | v < levelsNeeded ensures Pow2(v) != bm {
      NotSingleton(sorted[i], v);
    }
    assert LeavesFixed(levelsNeeded, T');
    assert TableOK(levelsNeeded, constr, eval, T');
    assert Filled(levelsNeeded, sorted, i + 1, T');
    forall m | 0 <= m < |T'| && T'[m].Some? ensures Known(levelsNeeded, sorted, i + 1, m) {
      if m == bm {
        assert 0 <= i < i + 1 && m == Bitmap(sorted[i]);
      } else {
        assert Known(levelsNeeded, sorted, i, m);
      }
    }
  }

  /** After try_splits on subset `i`, the state covers it: its entry is filled with a plan for it. */
  lemma AfterSplits(pc: seq<seq<int>>, levelsNeeded: nat, eval: BinaryTree -> real, sorted: seq<seq<int>>, i: nat, T0: Table, T1: Table)
    requires PairConstraints(pc, levelsNeeded)
    requires DPState(levelsNeeded, pc, eval, sorted, i, T0)
    requires i < |sorted| && |sorted[i]| > 1 && NoDup(sorted[i])
    requires SplitsReady(T0, Bitmap(sorted[i]), sorted[i], pc)
    requires T1 == T0[Bitmap(sorted[i]) := SplitsUpTo(T0, Bitmap(sorted[i]), sorted[i], pc, eval, |sorted[i]|)]
    ensures DPState(levelsNeeded, pc, eval, sorted, i + 1, T1)
  {
    var q := sorted[i];
    SplitsFill(pc, levelsNeeded, eval, T0, q);
    SplitsOK(levelsNeeded, pc, eval, T0, q, |q|);
    StoreEntry(pc, levelsNeeded, eval, sorted, i, T0, SplitsUpTo(T0, Bitmap(q), q, pc, eval, |q|).value);
  }

  /** A subset of one relation leaves the table as it is. */
  lemma SkipSubset(constr: seq<seq<int>>, levelsNeeded: nat, eval: BinaryTree -> real, sorted: seq<seq<int>>, i: nat, T: Table)
    requires Tuples(constr, 2) && DPState(levelsNeeded, constr, eval, sorted, i, T)
    requires i < |sorted| && |sorted[i]| <= 1
    ensures DPState(levelsNeeded, constr, eval, sorted, i + 1, T)
  {
  }

  /* ---------------- the cost recurrence the table satisfies ---------------- */

  /**
   * The entry for subset `q` is what try_splits computes for `q` from the
   * table's other entries, starting from NULL.
   */
  ghost predicate Solved(constr: seq<seq<int>>, eval: BinaryTree -> real, T: Table, q: seq<int>)
    requires Tuples(constr, 2)
  {
    && (forall x :: x in q ==> 0 <= x)
    && Bitmap(q) < |T|
    && SplitsReady(T[Bitmap(q) := None], Bitmap(q), q, constr)
    && T[Bitmap(q)] == SplitsUpTo(T[Bitmap(q) := None], Bitmap(q), q, constr, eval, |q|)
  }

  /** Every one of the first `i` subsets of two or more relations is solved. */
  ghost predicate Optimal(constr: seq<seq<int>>, eval: BinaryTree -> real, sorted: seq<seq<int>>, i: nat, T: Table)
    requires Tuples(constr, 2) && i <= |sorted|
  {
    forall j :: 0 <= j < i && |sorted[j]| > 1 ==> Solved(constr, eval, T, sorted[j])
  }

  /** `T'` agrees with `T` on every entry try_splits reads for `bitmap`. */
  ghost predicate SameReads(T: Table, T': Table, bitmap: nat, subRels: seq<int>, constr: seq<seq<int>>)
    requires Tuples(constr, 2) && SplitsReady(T, bitmap, subRels, constr)
  {
    && |T'| == |T| && T'[bitmap] == T[bitmap]
    && forall u :: u in subRels && ValidRight(constr, subRels, u) ==>
         T'[BitClear(bitmap, u)] == T[BitClear(bitmap, u)] && T'[Pow2(u)] == T[Pow2(u)]
  }

  /** try_splits depends only on the entries it reads. */
  lemma {:induction false} SplitsFrame(T: Table, T': Table, bitmap: nat, subRels: seq<int>, constr: seq<seq<int>>, eval: BinaryTree -> real, k: nat)
    requires Tuples(constr, 2) && SplitsReady(T, bitmap, subRels, constr)
    requires SameReads(T, T', bitmap, subRels, constr) && k <= |subRels|
    ensures SplitsReady(T', bitmap, subRels, constr)
    ensures SplitsUpTo(T', bitmap, subRels, constr, eval, k) == SplitsUpTo(T, bitmap, subRels, constr, eval, k)
  {
    if k > 0 {
      SplitsFrame(T, T', bitmap, subRels, constr, eval, k - 1);
      var u := subRels[k - 1];
      assert u in subRels;
    }
  }

  /** Before try_splits runs on subset `i`, its entry is NULL: no singleton and no earlier subset has its bitmap. */
  lemma EntryEmpty(levelsNeeded: nat, constr: seq<seq<int>>, eval: BinaryTree -> real, sorted: seq<seq<int>>, i: nat, T: Table)
    requires Tuples(constr, 2) && DPState(levelsNeeded, constr, eval, sorted, i, T) && DistinctMasks(sorted)
    requires i < |sorted| && |sorted[i]| > 1 && NoDup(sorted[i])
    requires Bitmap(sorted[i]) < |T|
    ensures T[Bitmap(sorted[i])].None?
  {
    var bm := Bitmap(sorted[i]);
    forall v: nat | v < levelsNeeded ensures bm != Pow2(v) {
      NotSingleton(sorted[i], v);
    }
    forall j | 0 <= j < i ensures bm != Bitmap(sorted[j]) {
    }
  }

  /** The entries try_splits reads for an earlier subset `j` are not the entry of subset `i`. */
  lemma ReadsElsewhere(pc: seq<seq<int>>, levelsNeeded: nat, sorted: seq<seq<int>>, i: nat, j: nat, u: int)
    requires PairConstraints(pc, levelsNeeded) && SubsetsOK(levelsNeeded, pc, sorted)
    requires AllInRange(sorted, levelsNeeded) && DistinctMasks(sorted)
    requires j < i < |sorted| && |sorted[i]| > 1 && |sorted[j]| > 1 && NoDup(sorted[i])
    requires u in sorted[j] && ValidRight(pc, sorted[j], u)
    ensures 0 <= u
    ensures BitClear(Bitmap(sorted[j]), u) != Bitmap(sorted[i]) && Pow2(u) != Bitmap(sorted[i])
  {
    var k := LeftPartEarlier(pc, levelsNeeded, sorted, j, u);
    assert Bitmap(sorted[k]) != Bitmap(sorted[i]);
    NotSingleton(sorted[i], u);
  }

  /** Neither the entry for `y` nor any entry try_splits reads for `y` is entry `b`. */
  ghost predicate Avoids(constr: seq<seq<int>>, y: seq<int>, b: nat)
    requires Tuples(constr, 2) && forall x :: x in y ==> 0 <= x
  {
    && Bitmap(y) != b
    && forall u :: u in y && ValidRight(constr, y, u) ==> BitClear(Bitmap(y), u) != b && Pow2(u) != b
  }

  /** No subset of two or more relations before `i` touches the entry of subset `i`. */
  ghost predicate EarlierAvoid(constr: seq<seq<int>>, sorted: seq<seq<int>>, i: nat)
    requires Tuples(constr, 2) && DistinctMasks(sorted) && i < |sorted|
  {
    forall j :: 0 <= j < i && |sorted[j]| > 1 ==> Avoids(constr, sorted[j], Bitmap(sorted[i]))
  }

  /** The subsets sorted before subset `i` do not touch its entry. */
  lemma EarlierReadsElsewhere(pc: seq<seq<int>>, levelsNeeded: nat, sorted: seq<seq<int>>, i: nat)
    requires PairConstraints(pc, levelsNeeded) && SubsetsOK(levelsNeeded, pc, sorted)
    requires AllInRange(sorted, levelsNeeded) && DistinctMasks(sorted)
    requires i < |sorted| && |sorted[i]| > 1 && NoDup(sorted[i])
    ensures EarlierAvoid(pc, sorted, i)
  {
    forall j, u | 0 <= j < i && |sorted[j]| > 1 && u in sorted[j] && ValidRight(pc, sorted[j], u)
      ensures BitClear(Bitmap(sorted[j]), u) != Bitmap(sorted[i]) && Pow2(u) != Bitmap(sorted[i])
    {
      ReadsElsewhere(pc, levelsNeeded, sorted, i, j, u);
    }
  }

  /** Storing an entry that try_splits does not read for a solved subset leaves it solved. */
  lemma KeepSolved(constr: seq<seq<int>>, eval: BinaryTree -> real, T: Table, y: seq<int>, b: nat, e: Option<ParallelPlan>)
    requires Tuples(constr, 2) && Solved(constr, eval, T, y)
    requires b < |T| && Avoids(constr, y, b)
    ensures Solved(constr, eval, T[b := e], y)
  {
    var bj := Bitmap(y);
    var A := T[bj := None];
    var A' := A[b := e];
    assert A' == T[b := e][bj := None];
    SplitsFrame(A, A', bj, y, constr, eval, |y|);
  }

  /** try_splits on a subset whose entry is NULL solves it. */
  lemma NewSolved(constr: seq<seq<int>>, eval: BinaryTree -> real, q: seq<int>, T0: Table, T1: Table)
    requires Tuples(constr, 2) && forall x :: x in q ==> 0 <= x
    requires SplitsReady(T0, Bitmap(q), q, constr) && T0[Bitmap(q)].None?
    requires T1 == T0[Bitmap(q) := SplitsUpTo(T0, Bitmap(q), q, constr, eval, |q|)]
    ensures Solved(constr, eval, T1, q)
  {
    assert T1[Bitmap(q) := None] == T0;
  }

  /**
   * try_splits on subset `i`, whose entry is NULL and untouched by earlier
   * subsets, solves it and keeps every subset solved before it solved.
   */
  lemma OptimalStep(constr: seq<seq<int>>, eval: BinaryTree -> real, sorted: seq<seq<int>>, i: nat, T0: Table, T1: Table)
    requires Tuples(constr, 2) && DistinctMasks(sorted) && i < |sorted|
    requires Optimal(constr, eval, sorted, i, T0) && EarlierAvoid(constr, sorted, i)
    requires SplitsReady(T0, Bitmap(sorted[i]), sorted[i], constr) && T0[Bitmap(sorted[i])].None?
    requires T1 == T0[Bitmap(sorted[i]) := SplitsUpTo(T0, Bitmap(sorted[i]), sorted[i], constr, eval, |sorted[i]|)]
    ensures Optimal(constr, eval, sorted, i + 1, T1)
  {
    var q, bm := sorted[i], Bitmap(sorted[i]);
    var e := SplitsUpTo(T0, bm, q, constr, eval, |q|);
    NewSolved(constr, eval, q, T0, T1);
    forall j | 0 <= j < i && |sorted[j]| > 1 ensures Solved(constr, eval, T1, sorted[j]) {
      KeepSolved(constr, eval, T0, sorted[j], bm, e);
    }
  }

  /**
   * `T[bitmap]` is the candidate of the valid relation `subRels[j]`, costs
   * no more than the candidate of any valid relation, and less than the
   * candidate of every valid relation before `j`.
   */
  ghost predicate CheapestAt(T: Table, bitmap: nat, subRels: seq<int>, constr: seq<seq<int>>, eval: BinaryTree -> real, j: nat)
    requires Tuples(constr, 2) && SplitsReady(T, bitmap, subRels, constr) && j < |subRels|
  {
    && ValidRight(constr, subRels, subRels[j])
    && T[bitmap] == Some(Candidate(T, bitmap, subRels[j], eval))
    && (forall k :: 0 <= k < |subRels| && ValidRight(constr, subRels, subRels[k]) ==>
          T[bitmap].value.cost <= Candidate(T, bitmap, subRels[k], eval).cost)
    && (forall k :: 0 <= k < j && ValidRight(constr, subRels, subRels[k]) ==>
          T[bitmap].value.cost < Candidate(T, bitmap, subRels[k], eval).cost)
  }

  /**
   * `T[bitmap]` is the cheapest of the plans that put a valid relation of
   * `subRels` on the right of the entry for the others, the first one on a tie.
   */
  ghost predicate CheapestSplit(T: Table, bitmap: nat, subRels: seq<int>, constr: seq<seq<int>>, eval: BinaryTree -> real)
    requires Tuples(constr, 2) && SplitsReady(T, bitmap, subRels, constr)
  {
    exists j :: 0 <= j < |subRels| && CheapestAt(T, bitmap, subRels, constr, eval, j)
  }

  /**
   * A solved admissible subset of two or more relations holds the cheapest
   * plan that joins the entry of the subset without one valid relation with
   * the leaf of that relation, the first such plan on a tie.
   */
  lemma SolvedMeans(pc: seq<seq<int>>, levelsNeeded: nat, eval: BinaryTree -> real, T: Table, q: seq<int>)
    requires PairConstraints(pc, levelsNeeded)
    requires |q| >= 2 && NoDup(q) && InRange(q, levelsNeeded)
    requires Solved(pc, eval, T, q)
    ensures SplitsReady(T, Bitmap(q), q, pc) && CheapestSplit(T, Bitmap(q), q, pc, eval)
  {
    var bm := Bitmap(q);
    var A := T[bm := None];
    SolvedReady(pc, levelsNeeded, eval, T, q);
    SplitsFill(pc, levelsNeeded, eval, A, q);
    SplitsChoice(A, bm, q, pc, eval, |q|);
    SplitsBest(A, bm, q, pc, eval, |q|);
    var j :| 0 <= j < |q| && FirstBest(A, bm, q, pc, eval, j, T[bm]);
    assert CheapestAt(T, bm, q, pc, eval, j);
  }

  /**
   * The entries a solved subset was built from are still in the table, at
   * other positions than its own, so its candidates are the ones it was
   * chosen among.
   */
  lemma SolvedReady(pc: seq<seq<int>>, levelsNeeded: nat, eval: BinaryTree -> real, T: Table, q: seq<int>)
    requires PairConstraints(pc, levelsNeeded)
    requires |q| >= 2 && NoDup(q) && InRange(q, levelsNeeded)
    requires Solved(pc, eval, T, q)
    ensures SplitsReady(T, Bitmap(q), q, pc)
    ensures forall k :: 0 <= k < |q| && ValidRight(pc, q, q[k]) ==>
              Candidate(T, Bitmap(q), q[k], eval) == Candidate(T[Bitmap(q) := None], Bitmap(q), q[k], eval)
  {
    var bm := Bitmap(q);
    forall u | u in q ensures BitClear(bm, u) != bm && Pow2(u) != bm {
      SplitIndices(levelsNeeded, q, u);
    }
    forall k | 0 <= k < |q| && ValidRight(pc, q, q[k])
      ensures Candidate(T, bm, q[k], eval) == Candidate(T[bm := None], bm, q[k], eval)
    {
      assert q[k] in q;
    }
  }

  /** Two or more relations: the full bitmap is no singleton. */
  lemma FullNotSingleton(levelsNeeded: nat)
    ensures levelsNeeded >= 2 ==> forall v: nat :: Pow2(levelsNeeded) - 1 != Pow2(v)
  {
    if levelsNeeded >= 2 {
      FullMaskBits(levelsNeeded, 0);
      FullMaskBits(levelsNeeded, 1);
      forall v: nat ensures Pow2(levelsNeeded) - 1 != Pow2(v) {
        SingleBit(v, 0);
        SingleBit(v, 1);
      }
    }
  }

  /** A subset holding every relation of the query has the full bitmap. */
  lemma FullBitmap(levelsNeeded: nat, y: seq<int>)
    requires InRange(y, levelsNeeded) && forall v :: 0 <= v < levelsNeeded ==> v in y
    ensures Bitmap(y) == Pow2(levelsNeeded) - 1
  {
    BitmapBound(y, levelsNeeded);
    forall v | 0 <= v < levelsNeeded ensures HasBit(Bitmap(y), v) <==> HasBit(Pow2(levelsNeeded) - 1, v) {
      FullMaskBits(levelsNeeded, v);
    }
    SameBitsEqual(Bitmap(y), Pow2(levelsNeeded) - 1, levelsNeeded);
  }

  /** A subset missing the last relation does not have the full bitmap. */
  lemma NotFullBitmap(levelsNeeded: nat, y: seq<int>)
    requires levelsNeeded >= 1 && InRange(y, levelsNeeded - 1)
    ensures Bitmap(y) != Pow2(levelsNeeded) - 1
  {
    FullMaskBits(levelsNeeded, levelsNeeded - 1);
  }

  /** A subset holding exactly the relations of the query, two or more, has at least two members and the full bitmap. */
  lemma AllRelations(levelsNeeded: nat, y: seq<int>)
    requires levelsNeeded >= 2 && InRange(y, levelsNeeded)
    requires forall v :: v in Elems(y) <==> 0 <= v < levelsNeeded
    ensures |y| > 1 && Bitmap(y) == Pow2(levelsNeeded) - 1
  {
    assert 0 in Elems(y) && 1 in Elems(y);
    var a :| 0 <= a < |y| && y[a] == 0;
    var b :| 0 <= b < |y| && y[b] == 1;
    forall v | 0 <= v < levelsNeeded ensures v in y {
      assert v in Elems(y);
    }
    FullBitmap(levelsNeeded, y);
  }

  /** With an even number of relations, one of the join results holds all of them. */
  lemma FullSubset(pc: seq<seq<int>>, levelsNeeded: nat, sorted: seq<seq<int>>) returns (j: nat)
    requires Tuples(pc, 2) && SubsetsOK(levelsNeeded, pc, sorted) && AllInRange(sorted, levelsNeeded)
    requires levelsNeeded >= 2 && levelsNeeded % 2 == 0
    ensures j < |sorted| && |sorted[j]| > 1 && Bitmap(sorted[j]) == Pow2(levelsNeeded) - 1
  {
    FullAdmissible(pc, levelsNeeded);
    j :| 0 <= j < |sorted| && Elems(sorted[j]) == Union(PairBlocks(levelsNeeded / 2));
    assert InRange(sorted[j], levelsNeeded);
    AllRelations(levelsNeeded, sorted[j]);
  }

  /** With an even number of relations, the last subset, all of them, is filled. */
  lemma EvenFull(pc: seq<seq<int>>, levelsNeeded: nat, sorted: seq<seq<int>>, T: Table)
    requires PairConstraints(pc, levelsNeeded) && SubsetsOK(levelsNeeded, pc, sorted)
    requires |T| == Pow2(levelsNeeded) && AllInRange(sorted, levelsNeeded)
    requires Filled(levelsNeeded, sorted, |sorted|, T)
    requires levelsNeeded >= 2 && levelsNeeded % 2 == 0
    ensures T[Pow2(levelsNeeded) - 1].Some?
  {
    var j := FullSubset(pc, levelsNeeded, sorted);
  }

  /** With an odd number of at least three relations, the full bitmap is never filled. */
  lemma OddEmpty(pc: seq<seq<int>>, levelsNeeded: nat, sorted: seq<seq<int>>, T: Table)
    requires Tuples(pc, 2) && SubsetsOK(levelsNeeded, pc, sorted)
    requires |T| == Pow2(levelsNeeded) && AllInRange(sorted, levelsNeeded)
    requires Placed(levelsNeeded, sorted, |sorted|, T)
    requires levelsNeeded >= 3 && levelsNeeded % 2 == 1
    ensures T[Pow2(levelsNeeded) - 1].None?
  {
    var full := Pow2(levelsNeeded) - 1;
    FullNotSingleton(levelsNeeded);
    forall j | 0 <= j < |sorted| ensures full != Bitmap(sorted[j]) {
      assert sorted[j] in sorted;
      NotFullBitmap(levelsNeeded, sorted[j]);
    }
  }

  /**
   * What worker promises about the plan it returns for the whole query:
   * none without relations, the leaf for a single relation, a plan for an
   * even number of relations and none for an odd number of at least three,
   * and whatever plan it returns is a plan for the full bitmap.
   */
  ghost predicate Outcome(levelsNeeded: nat, pc: seq<seq<int>>, eval: BinaryTree -> real, top: Option<ParallelPlan>)
    requires Tuples(pc, 2)
  {
    && (levelsNeeded == 0 ==> top.None?)
    && (levelsNeeded == 1 ==> top == Some(CreateParallelPlan(CreateLeaf(0), 0.0)))
    && (levelsNeeded >= 2 && levelsNeeded % 2 == 0 ==> top.Some?)
    && (levelsNeeded >= 3 && levelsNeeded % 2 == 1 ==> top.None?)
    && (top.Some? ==> EntryOK(levelsNeeded, pc, eval, Pow2(levelsNeeded) - 1, top.value))
  }

  /** Without relations there are no join results, so the empty bitmap stays NULL. */
  lemma NoRelations(pc: seq<seq<int>>, sorted: seq<seq<int>>, T: Table)
    requires Tuples(pc, 2) && SubsetsOK(0, pc, sorted) && AllInRange(sorted, 0)
    requires |T| == 1 && Placed(0, sorted, |sorted|, T)
    ensures T[0].None?
  {
  }

  /**
   * After all subsets: with an even number of relations the full bitmap is
   * filled; with an odd number of at least three it stays NULL, because the
   * last relation belongs to no pair and so to no join result.
   */
  lemma LinearResult(pc: seq<seq<int>>, levelsNeeded: nat, eval: BinaryTree -> real, sorted: seq<seq<int>>, T: Table)
    requires PairConstraints(pc, levelsNeeded) && SubsetsOK(levelsNeeded, pc, sorted)
    requires DPState(levelsNeeded, pc, eval, sorted, |sorted|, T)
    ensures Outcome(levelsNeeded, pc, eval, T[Pow2(levelsNeeded) - 1])
  {
    if levelsNeeded == 0 {
      NoRelations(pc, sorted, T);
    }
    if levelsNeeded >= 2 && levelsNeeded % 2 == 0 {
      EvenFull(pc, levelsNeeded, sorted, T);
    }
    if levelsNeeded >= 3 && levelsNeeded % 2 == 1 {
      OddEmpty(pc, levelsNeeded, sorted, T);
    }
  }

  /** A plan for the full bitmap covers exactly the relations of the query. */
  lemma FullRelids(levelsNeeded: nat, constr: seq<seq<int>>, eval: BinaryTree -> real, e: ParallelPlan)
    requires Tuples(constr, 2) && EntryOK(levelsNeeded, constr, eval, Pow2(levelsNeeded) - 1, e)
    ensures forall v :: v in e.root.relids <==> 0 <= v < levelsNeeded
  {
    forall v ensures v in e.root.relids <==> 0 <= v < levelsNeeded {
      if 0 <= v {
        FullMaskBits(levelsNeeded, v);
      }
    }
  }

  /** One iteration of the left-deep main loop of worker: try_splits on subset `i` when it has two or more relations. */
  method LinearStep(levelsNeeded: nat, pc: seq<seq<int>>, sorted: seq<seq<int>>, i: nat, P: array<Option<ParallelPlan>>, eval: BinaryTree -> real)
    requires PairConstraints(pc, levelsNeeded) && SubsetsOK(levelsNeeded, pc, sorted) && DistinctMasks(sorted)
    requires i < |sorted| && DPState(levelsNeeded, pc, eval, sorted, i, P[..]) && Optimal(pc, eval, sorted, i, P[..])
    modifies P
    ensures DPState(levelsNeeded, pc, eval, sorted, i + 1, P[..]) && Optimal(pc, eval, sorted, i + 1, P[..])
  {
    var q := sorted[i];
    if |q| > 1 {
      ReadyForSplits(pc, levelsNeeded, eval, sorted, i, P[..]);
      EntryEmpty(levelsNeeded, pc, eval, sorted, i, P[..]);
      EarlierReadsElsewhere(pc, levelsNeeded, sorted, i);
      ghost var before := P[..];
      TrySplits(levelsNeeded, q, pc, P, eval);
      AfterSplits(pc, levelsNeeded, eval, sorted, i, before, P[..]);
      OptimalStep(pc, eval, sorted, i, before, P[..]);
    } else {
      SkipSubset(pc, levelsNeeded, eval, sorted, i, P[..]);
    }
  }

  /**
   * The left-deep main loop of worker: try_splits on every sorted subset of
   * two or more relations, in order.
   */
  method LinearLoop(levelsNeeded: nat, pc: seq<seq<int>>, sorted: seq<seq<int>>, P: array<Option<ParallelPlan>>, eval: BinaryTree -> real)
    requires PairConstraints(pc, levelsNeeded) && SubsetsOK(levelsNeeded, pc, sorted) && DistinctMasks(sorted)
    requires DPState(levelsNeeded, pc, eval, sorted, 0, P[..])
    modifies P
    ensures DPState(levelsNeeded, pc, eval, sorted, |sorted|, P[..]) && Optimal(pc, eval, sorted, |sorted|, P[..])
  {
    var i := 0;
    while i < |sorted|
      invariant 0 <= i <= |sorted|
      invariant DPState(levelsNeeded, pc, eval, sorted, i, P[..]) && Optimal(pc, eval, sorted, i, P[..])
    {
      LinearStep(levelsNeeded, pc, sorted, i, P, eval);
      i := i + 1;
    }
  }


  /** Before the left-deep main loop: the sorted join results and the initialised table are the state before any subset. */
  lemma LinearStart(levelsNeeded: nat, pc: seq<seq<int>>, eval: BinaryTree -> real, sorted: seq<seq<int>>, T: Table)
    requires PairConstraints(pc, levelsNeeded)
    requires SortedResults(levelsNeeded, pc, sorted)
    requires |T| == Pow2(levelsNeeded) && LeavesFixed(levelsNeeded, T) && OnlyLeaves(levelsNeeded, T)
    ensures SubsetsOK(levelsNeeded, pc, sorted) && DistinctMasks(sorted) && DPState(levelsNeeded, pc, eval, sorted, 0, T)
  {
    LinearSubsets(levelsNeeded, pc, sorted);
    SortedMasks(levelsNeeded, pc, sorted);
    forall j | 0 <= j < |sorted| ensures InRange(sorted[j], levelsNeeded) {
      assert sorted[j] in sorted;
    }
    StartState(levelsNeeded, pc, eval, sorted, T);
  }

  /**
   * The table the left-deep part of worker ends with, for the join results
   * `sorted` smallest first: every entry a plan for its bitmap, the entry of
   * every join result of two or more relations solved from the others, and
   * nothing but leaves and join results filled.
   */
  ghost predicate DPTable(levelsNeeded: nat, pc: seq<seq<int>>, eval: BinaryTree -> real, sorted: seq<seq<int>>, T: Table)
    requires Tuples(pc, 2)
  {
    && SortedResults(levelsNeeded, pc, sorted)
    && DPState(levelsNeeded, pc, eval, sorted, |sorted|, T)
    && Optimal(pc, eval, sorted, |sorted|, T)
  }

  /** `top` is the entry of the full bitmap in a final table for `sorted`. */
  ghost predicate TopOfTable(levelsNeeded: nat, pc: seq<seq<int>>, eval: BinaryTree -> real, sorted: seq<seq<int>>, top: Option<ParallelPlan>)
    requires Tuples(pc, 2)
  {
    exists T :: |T| == Pow2(levelsNeeded) && DPTable(levelsNeeded, pc, eval, sorted, T) && top == T[Pow2(levelsNeeded) - 1]
  }

  /** `sorted` is the list of join results, smallest first. */
  ghost predicate SortedResults(levelsNeeded: nat, pc: seq<seq<int>>, sorted: seq<seq<int>>)
    requires Tuples(pc, 2)
  {
    SortedBySize(sorted) && multiset(sorted) == multiset(AdmJoinResults(levelsNeeded, pc))
  }

  /**
   * In the final table, every admissible set of two or more relations has
   * an entry holding the cheapest plan that joins the entry of the set
   * without one valid relation with the leaf of that relation.
   */
  lemma TableCheapest(pc: seq<seq<int>>, levelsNeeded: nat, eval: BinaryTree -> real, sorted: seq<seq<int>>, T: Table, s: set<int>)
    requires PairConstraints(pc, levelsNeeded)
    requires DPTable(levelsNeeded, pc, eval, sorted, T)
    requires Admissible(levelsNeeded, pc, s) && |s| >= 2
    ensures exists q :: q in sorted && Elems(q) == s && |q| >= 2 && Bitmap(q) < |T| &&
              SplitsReady(T, Bitmap(q), q, pc) && CheapestSplit(T, Bitmap(q), q, pc, eval)
  {
    LinearSubsets(levelsNeeded, pc, sorted);
    var j :| 0 <= j < |sorted| && Elems(sorted[j]) == s;
    var q := sorted[j];
    assert q in sorted;
    ElemsSize(q);
    SolvedMeans(pc, levelsNeeded, eval, T, q);
  }

  /**
   * With an even number of relations, the entry of the full bitmap, the
   * plan worker returns, is the cheapest plan that joins the entry of all
   * relations but one valid relation with the leaf of that relation.
   */
  lemma TopCheapest(pc: seq<seq<int>>, levelsNeeded: nat, eval: BinaryTree -> real, sorted: seq<seq<int>>, T: Table)
    requires PairConstraints(pc, levelsNeeded)
    requires DPTable(levelsNeeded, pc, eval, sorted, T)
    requires levelsNeeded >= 2 && levelsNeeded % 2 == 0
    ensures exists q :: q in sorted && |q| >= 2 && Bitmap(q) == Pow2(levelsNeeded) - 1 &&
              SplitsReady(T, Bitmap(q), q, pc) && CheapestSplit(T, Bitmap(q), q, pc, eval)
  {
    LinearSubsets(levelsNeeded, pc, sorted);
    var j := FullSubset(pc, levelsNeeded, sorted);
    var q := sorted[j];
    assert q in sorted;
    SolvedMeans(pc, levelsNeeded, eval, T, q);
  }

  /**
   * What the left-deep worker returns with an even number of relations: the
   * cheapest plan that joins the final entry of all relations but one valid
   * relation with the leaf of that relation.
   */
  lemma TopOfTableCheapest(pc: seq<seq<int>>, levelsNeeded: nat, eval: BinaryTree -> real, sorted: seq<seq<int>>, top: Option<ParallelPlan>)
    requires PairConstraints(pc, levelsNeeded) && TopOfTable(levelsNeeded, pc, eval, sorted, top)
    requires levelsNeeded >= 2 && levelsNeeded % 2 == 0
    ensures exists T, q :: |T| == Pow2(levelsNeeded) && DPTable(levelsNeeded, pc, eval, sorted, T) && top == T[Pow2(levelsNeeded) - 1] &&
              q in sorted && |q| >= 2 && Bitmap(q) == Pow2(levelsNeeded) - 1 &&
              SplitsReady(T, Bitmap(q), q, pc) && CheapestSplit(T, Bitmap(q), q, pc, eval)
  {
    var T :| |T| == Pow2(levelsNeeded) && DPTable(levelsNeeded, pc, eval, sorted, T) && top == T[Pow2(levelsNeeded) - 1];
    TopCheapest(pc, levelsNeeded, eval, sorted, T);
    var q :| q in sorted && |q| >= 2 && Bitmap(q) == Pow2(levelsNeeded) - 1 &&
             SplitsReady(T, Bitmap(q), q, pc) && CheapestSplit(T, Bitmap(q), q, pc, eval);
  }

  /**
   * The left-deep part of worker, from the initialised table and the sorted
   * join results to the entry of the full bitmap.
   */
  method LinearDP(levelsNeeded: nat, pc: seq<seq<int>>, sorted: seq<seq<int>>, P: array<Option<ParallelPlan>>, eval: BinaryTree -> real)
    returns (top: Option<ParallelPlan>)
    requires PairConstraints(pc, levelsNeeded) && SortedResults(levelsNeeded, pc, sorted)
    requires P.Length == Pow2(levelsNeeded) && LeavesFixed(levelsNeeded, P[..]) && OnlyLeaves(levelsNeeded, P[..])
    modifies P
    ensures Outcome(levelsNeeded, pc, eval, top)
    ensures TopOfTable(levelsNeeded, pc, eval, sorted, top)
  {
    LinearStart(levelsNeeded, pc, eval, sorted, P[..]);
    LinearLoop(levelsNeeded, pc, sorted, P, eval);
    ghost var T := P[..];
    LinearResult(pc, levelsNeeded, eval, sorted, T);
    top := P[Pow2(levelsNeeded) - 1];
    assert DPTable(levelsNeeded, pc, eval, sorted, T);
  }

  /**
   * The entry of the full bitmap in a table holding only the leaves, as the
   * bushy variant leaves it: a plan exactly when there is one relation.
   */
  method LeavesTop(levelsNeeded: nat, P: array<Option<ParallelPlan>>) returns (top: Option<ParallelPlan>)
    requires P.Length == Pow2(levelsNeeded) && LeavesFixed(levelsNeeded, P[..]) && OnlyLeaves(levelsNeeded, P[..])
    ensures top == if levelsNeeded == 1 then Some(CreateParallelPlan(CreateLeaf(0), 0.0)) else None
  {
    FullNotSingleton(levelsNeeded);
    top := P[Pow2(levelsNeeded) - 1];
    assert top == P[..][Pow2(levelsNeeded) - 1];
  }

  /**
   * worker: the plan the worker finds for the whole query in its partition,
   * or NULL.
   *
   * With p_type 2 the worker runs try_splits on every admissible subset of
   * two or more relations, smallest first. With an even number of relations
   * it then finds a plan for the whole query, a left-deep order of all
   * relations, each once, that keeps every constraint of its partition; with
   * an odd number of at least three it finds none. With p_type 3 the split
   * step is not run, so only a single relation gets a plan.
   */
  method Worker(levelsNeeded: nat, partId: int, nWorkers: int, pType: PlanType, eval: BinaryTree -> real)
    returns (top: Option<ParallelPlan>)
    requires levelsNeeded <= 30 && IsInt32(partId)
    requires pType == Bushy ==> nWorkers <= 0x4000_0000
    ensures pType == Linear ==> Outcome(levelsNeeded, PartConstraints(levelsNeeded, partId, nWorkers), eval, top)
    ensures pType == Linear && top.Some? ==> forall v :: v in top.value.root.relids <==> 0 <= v < levelsNeeded
    ensures pType == Linear ==> exists sorted :: TopOfTable(levelsNeeded, PartConstraints(levelsNeeded, partId, nWorkers), eval, sorted, top)
    ensures pType == Bushy ==> top == if levelsNeeded == 1 then Some(CreateParallelPlan(CreateLeaf(0), 0.0)) else None
  {
    var constr: seq<seq<int>>;
    var joinRes: seq<seq<int>>;
    if pType == Linear {
      constr := PartConstraints(levelsNeeded, partId, nWorkers);
      joinRes := AdmJoinResults(levelsNeeded, constr);
    } else {
      constr := PartConstraintsB(levelsNeeded, partId, nWorkers);
      joinRes := AdmJoinResultsB(levelsNeeded, constr);
    }
    var P := InitTable(levelsNeeded);
    var sorted := SortBySize(joinRes);
    joinRes := sorted;
    if pType == Linear {
      PartFacts(levelsNeeded, partId, nWorkers);
      top := LinearDP(levelsNeeded, constr, joinRes, P, eval);
      if top.Some? {
        FullRelids(levelsNeeded, constr, eval, top.value);
      }
    } else {
      top := LeavesTop(levelsNeeded, P);
    }
  }
}
