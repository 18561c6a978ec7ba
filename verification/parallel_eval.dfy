/**
 * Rebuilding a join relation from a join tree (parallel_eval.c, lines 81-184).
 *
 * The host planner's relations are an abstract type `R`, and the planner
 * routines the source calls (`make_join_rel`, `have_relevant_joinclause`,
 * `have_join_order_restriction`) are functions bundled in `Host`. A join
 * builder that returns NULL is one that returns `None`.
 */
module ParallelEval {
  import opened Wrappers
  import opened ParallelTree

  datatype Host<!R> = Host(
    makeJoinRel: (R, R) -> Option<R>,
    relevantJoinClause: (R, R) -> bool,
    joinOrderRestriction: (R, R) -> bool)

  /** desirable_join: join now when a join clause applies or a join-order restriction forces it. */
  function DesirableJoin<R>(host: Host<R>, outer: R, inner: R): (b: bool)
    ensures b <==> host.relevantJoinClause(outer, inner) || host.joinOrderRestriction(outer, inner)
  {
    host.relevantJoinClause(outer, inner) || host.joinOrderRestriction(outer, inner)
  }

  /** Every leaf names, first in its relids, a relation of `initial_rels`. */
  predicate LeavesIn(bt: BinaryTree, n: nat)
  {
    match bt
    case Leaf(rs) => |rs| > 0 && 0 <= rs[0] < n
    case Node(l, r, _) => LeavesIn(l, n) && LeavesIn(r, n)
  }

  /**
   * merge_clump: the fragments ("clumps") a tree yields, left to right.
   * `None` stands for the case the source rules out with the Assert at
   * line 145: one child yields no fragment while neither yields several.
   */
  function MergeClump<R>(host: Host<R>, initialRels: seq<R>, bt: BinaryTree, force: bool): (r: Option<seq<R>>)
    requires LeavesIn(bt, |initialRels|)
  {
    match bt
    case Leaf(rs) => Some([initialRels[rs[0]]])
    case Node(l, r, _) =>
      var o1 := MergeClump(host, initialRels, l, force);
      var o2 := MergeClump(host, initialRels, r, force);
      if o1.None? || o2.None? then None
      else
        var list1, list2 := o1.value, o2.value;
        if |list1| > 1 || |list2| > 1 then Some(list1 + list2)
        else if !(|list1| == 1 && |list2| == 1) then None
        else if force || DesirableJoin(host, list1[0], list2[0]) then
          match host.makeJoinRel(list1[0], list2[0])
          case Some(joinrel) => Some([joinrel])
          case None => Some(list1 + list2)
        else Some([])
  }

  /**
   * One step of merge_clump: a leaf yields its relation; at a node, several
   * fragments on either side are concatenated, and two single fragments are
   * joined into one when the join is attempted and succeeds, kept as two
   * when it fails, and dropped when it is not attempted.
   */
  lemma MergeClumpStep<R>(host: Host<R>, initialRels: seq<R>, bt: BinaryTree, force: bool)
    requires LeavesIn(bt, |initialRels|)
    ensures bt.Leaf? ==> MergeClump(host, initialRels, bt, force) == Some([initialRels[bt.relids[0]]])
    ensures bt.Node? ==>
              var o1 := MergeClump(host, initialRels, bt.left, force);
              var o2 := MergeClump(host, initialRels, bt.right, force);
              var res := MergeClump(host, initialRels, bt, force);
              o1.Some? && o2.Some? ==>
                var list1, list2 := o1.value, o2.value;
                && (|list1| > 1 || |list2| > 1 ==> res == Some(list1 + list2))
                && (|list1| == 1 && |list2| == 1 && (force || DesirableJoin(host, list1[0], list2[0])) ==>
                      res == (if host.makeJoinRel(list1[0], list2[0]).Some?
                              then Some([host.makeJoinRel(list1[0], list2[0]).value])
                              else Some([list1[0], list2[0]])))
                && (|list1| == 1 && |list2| == 1 && !force && !DesirableJoin(host, list1[0], list2[0]) ==>
                      res == Some([]))
  {
    if bt.Node? {
      var o1 := MergeClump(host, initialRels, bt.left, force);
      var o2 := MergeClump(host, initialRels, bt.right, force);
      if o1.Some? && o2.Some? && |o1.value| == 1 && |o2.value| == 1 {
        assert o1.value + o2.value == [o1.value[0], o2.value[0]];
      }
    }
  }

  /**
   * Forced, as construct_rel_based_on_plan calls it, merge_clump always
   * yields at least one fragment and never more than the tree has leaves.
   */
  lemma {:induction false} MergeClumpForced<R>(host: Host<R>, initialRels: seq<R>, bt: BinaryTree)
    requires LeavesIn(bt, |initialRels|)
    ensures MergeClump(host, initialRels, bt, true).Some?
    ensures 1 <= |MergeClump(host, initialRels, bt, true).value| <= LeafCount(bt)
  {
    match bt
    case Leaf(_) =>
    case Node(l, r, _) =>
      MergeClumpForced(host, initialRels, l);
      MergeClumpForced(host, initialRels, r);
  }

  /** The host accepts every join. */
  ghost predicate AlwaysJoins<R(!new)>(host: Host<R>)
  {
    forall a: R, b: R :: host.makeJoinRel(a, b).Some?
  }

  /** The relation a tree stands for when every join succeeds: its leaves joined along the tree. */
  function JoinAll<R(!new)>(host: Host<R>, initialRels: seq<R>, bt: BinaryTree): (r: R)
    requires LeavesIn(bt, |initialRels|) && AlwaysJoins(host)
  {
    match bt
    case Leaf(rs) => initialRels[rs[0]]
    case Node(l, r, _) => host.makeJoinRel(JoinAll(host, initialRels, l), JoinAll(host, initialRels, r)).value
  }

  /** When the host accepts every join, the forced walk joins the whole tree into one relation. */
  lemma {:induction false} MergeClumpJoinsAll<R(!new)>(host: Host<R>, initialRels: seq<R>, bt: BinaryTree)
    requires LeavesIn(bt, |initialRels|) && AlwaysJoins(host)
    ensures MergeClump(host, initialRels, bt, true) == Some([JoinAll(host, initialRels, bt)])
  {
    match bt
    case Leaf(_) =>
    case Node(l, r, _) =>
      MergeClumpJoinsAll(host, initialRels, l);
      MergeClumpJoinsAll(host, initialRels, r);
  }

  /**
   * construct_rel_based_on_plan: the single relation the forced walk
   * yields, or NULL when it leaves more than one fragment.
   */
  function ConstructRelBasedOnPlan<R>(host: Host<R>, initialRels: seq<R>, bt: BinaryTree): (rel: Option<R>)
    requires LeavesIn(bt, |initialRels|)
    ensures MergeClump(host, initialRels, bt, true).Some?
    ensures rel.Some? <==> |MergeClump(host, initialRels, bt, true).value| == 1
    ensures rel.Some? ==> rel.value == MergeClump(host, initialRels, bt, true).value[0]
  {
    MergeClumpForced(host, initialRels, bt);
    var relList := MergeClump(host, initialRels, bt, true).value;
    if |relList| != 1 then None else Some(relList[0])
  }

  /** A single leaf is rebuilt as its own relation. */
  lemma ConstructRelOfLeaf<R>(host: Host<R>, initialRels: seq<R>, relid: int)
    requires 0 <= relid < |initialRels|
    ensures LeavesIn(CreateLeaf(relid), |initialRels|)
    ensures ConstructRelBasedOnPlan(host, initialRels, CreateLeaf(relid)) == Some(initialRels[relid])
  {
  }

  /** When the host accepts every join, every tree is rebuilt, as its leaves joined along the tree. */
  lemma ConstructRelJoinsAll<R(!new)>(host: Host<R>, initialRels: seq<R>, bt: BinaryTree)
    requires LeavesIn(bt, |initialRels|) && AlwaysJoins(host)
    ensures ConstructRelBasedOnPlan(host, initialRels, bt) == Some(JoinAll(host, initialRels, bt))
  {
    MergeClumpJoinsAll(host, initialRels, bt);
  }

  /** The host refuses every join. */
  ghost predicate NeverJoins<R(!new)>(host: Host<R>)
  {
    forall a: R, b: R :: host.makeJoinRel(a, b).None?
  }

  /** The relations of the leaves of a tree, left to right. */
  function LeafRels<R>(initialRels: seq<R>, bt: BinaryTree): (rels: seq<R>)
    requires LeavesIn(bt, |initialRels|)
    ensures |rels| == LeafCount(bt)
  {
    match bt
    case Leaf(rs) => [initialRels[rs[0]]]
    case Node(l, r, _) => LeafRels(initialRels, l) + LeafRels(initialRels, r)
  }

  /** When the host refuses every join, the forced walk keeps every leaf as a fragment of its own, in order. */
  lemma {:induction false} MergeClumpNoJoins<R(!new)>(host: Host<R>, initialRels: seq<R>, bt: BinaryTree)
    requires LeavesIn(bt, |initialRels|) && NeverJoins(host)
    ensures MergeClump(host, initialRels, bt, true) == Some(LeafRels(initialRels, bt))
  {
    match bt
    case Leaf(_) =>
    case Node(l, r, _) =>
      MergeClumpNoJoins(host, initialRels, l);
      MergeClumpNoJoins(host, initialRels, r);
  }

  /** When the host refuses every join, a tree of two or more leaves is rebuilt as NULL. */
  lemma ConstructRelNoJoins<R(!new)>(host: Host<R>, initialRels: seq<R>, bt: BinaryTree)
    requires LeavesIn(bt, |initialRels|) && NeverJoins(host) && bt.Node?
    ensures ConstructRelBasedOnPlan(host, initialRels, bt) == None
  {
    MergeClumpNoJoins(host, initialRels, bt);
    LeafCountPositive(bt.left);
    LeafCountPositive(bt.right);
  }

  /** Every tree has a leaf. */
  lemma {:induction false} LeafCountPositive(bt: BinaryTree)
    ensures LeafCount(bt) >= 1
  {
    match bt
    case Leaf(_) =>
    case Node(l, r, _) =>
      LeafCountPositive(l);
  }
}
