/**
 * Join trees and plans (parallel_tree.c).
 *
 * A `BinaryTree` node of the source has two child pointers and a `relids`
 * list. `create_leaf` makes a node with no children and `merge` a node with
 * both, so the model has one constructor for each shape; a node with only
 * one child cannot be built by the source and is not represented. Every
 * node keeps its own `relids` list, as the C struct does.
 */
module ParallelTree {
  import opened Bits
  import opened ParallelUtils

  datatype BinaryTree =
    | Leaf(relids: seq<int>)
    | Node(left: BinaryTree, right: BinaryTree, relids: seq<int>)

  /** A plan of the DP table: a join tree and the cost the evaluator gave it. */
  datatype ParallelPlan = ParallelPlan(root: BinaryTree, cost: real)

  /** is_leaf: both children are missing. */
  predicate IsLeaf(bt: BinaryTree)
  {
    bt.Leaf?
  }

  /** create_leaf: a childless node over the single relation `relid`. */
  function CreateLeaf(relid: int): (t: BinaryTree)
    ensures IsLeaf(t) && t.relids == [relid]
  {
    Leaf([relid])
  }

  /** merge: a node with children `l` and `r` whose relids are `l`'s followed by `r`'s. */
  function Merge(l: BinaryTree, r: BinaryTree): (t: BinaryTree)
    ensures !IsLeaf(t) && t.left == l && t.right == r
    ensures t.relids == l.relids + r.relids
  {
    Node(l, r, CopyConcat(l.relids, r.relids))
  }

  /** create_parallel_plan: stores the tree and the cost as given. */
  function CreateParallelPlan(root: BinaryTree, cost: real): (p: ParallelPlan)
    ensures p.root == root && p.cost == cost
  {
    ParallelPlan(root, cost)
  }

  /** tree_2_bitmap: the OR of `1 << x` over the tree's relids. */
  function Tree2Bitmap(bt: BinaryTree): (m: nat)
    requires forall x :: x in bt.relids ==> 0 <= x < 31
  {
    Bitmap(bt.relids)
  }

  /** A leaf over relation `i` has bitmap `1 << i`. */
  lemma Tree2BitmapLeaf(i: int)
    requires 0 <= i < 31
    ensures Tree2Bitmap(CreateLeaf(i)) == Pow2(i)
  {
    ZeroHasNoBits(i);
    assert [i][..0] == [];
  }

  /** The bitmap of a merged tree is the bitwise OR of its children's bitmaps. */
  lemma Tree2BitmapMerge(l: BinaryTree, r: BinaryTree)
    requires forall x :: x in l.relids ==> 0 <= x < 31
    requires forall x :: x in r.relids ==> 0 <= x < 31
    ensures forall x :: x in Merge(l, r).relids ==> 0 <= x < 31
    ensures forall j :: HasBit(Tree2Bitmap(Merge(l, r)), j) <==> HasBit(Tree2Bitmap(l), j) || HasBit(Tree2Bitmap(r), j)
  {
    assert forall x :: x in Merge(l, r).relids <==> x in l.relids || x in r.relids;
  }

  /** The tree was built by `create_leaf` and `merge` alone: every node's relids are consistent. */
  ghost predicate Built(t: BinaryTree)
  {
    match t
    case Leaf(rs) => |rs| == 1
    case Node(l, r, rs) => Built(l) && Built(r) && rs == l.relids + r.relids
  }

  /** The relation of each leaf, left to right (a leaf stands for the first entry of its relids). */
  function LeafSeq(t: BinaryTree): (r: seq<int>)
  {
    match t
    case Leaf(rs) => if |rs| == 0 then [] else [rs[0]]
    case Node(l, r, _) => LeafSeq(l) + LeafSeq(r)
  }

  function LeafCount(t: BinaryTree): (n: nat)
  {
    match t
    case Leaf(_) => 1
    case Node(l, r, _) => LeafCount(l) + LeafCount(r)
  }

  /** Left-deep: every right child is a leaf. */
  predicate LeftDeep(t: BinaryTree)
  {
    match t
    case Leaf(_) => true
    case Node(l, r, _) => LeftDeep(l) && r.Leaf?
  }

  lemma BuiltByConstructors(i: int, l: BinaryTree, r: BinaryTree)
    ensures Built(CreateLeaf(i))
    ensures Built(l) && Built(r) ==> Built(Merge(l, r))
  {
  }

  /**
   * In a tree built by `create_leaf` and `merge`, a node's relids are its
   * leaves from left to right, so their number is the number of leaves.
   */
  lemma {:induction false} BuiltRelids(t: BinaryTree)
    requires Built(t)
    ensures t.relids == LeafSeq(t)
    ensures |t.relids| == LeafCount(t)
  {
    match t
    case Leaf(rs) =>
      assert rs == [rs[0]];
    case Node(l, r, rs) =>
      BuiltRelids(l);
      BuiltRelids(r);
  }
}
