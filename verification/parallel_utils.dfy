/**
 * List helpers of the parallel join search (parallel_utils.c).
 *
 * The source works on PostgreSQL `List`s of `List`s of ints and always
 * builds fresh result lists without touching its inputs, so every helper
 * here is a function on `seq<seq<int>>`. A relation subset is a list of
 * relation indices; `Elems` is the set it stands for.
 */
module ParallelUtils {

  /** The relation indices a subset list mentions. */
  function Elems(s: seq<int>): (r: set<int>)
  {
    set x | x in s
  }

  /** No relation index occurs twice in the list. */
  predicate NoDup(s: seq<int>)
  {
    forall i, j :: 0 <= i < j < |s| ==> s[i] != s[j]
  }

  /** Every subset in the list is non-empty and duplicate-free. */
  predicate Proper(r: seq<seq<int>>)
  {
    forall x :: x in r ==> |x| > 0 && NoDup(x)
  }

  /** No two subsets of the list stand for the same set of relations. */
  predicate DistinctSets(r: seq<seq<int>>)
  {
    forall p, q :: 0 <= p < q < |r| ==> Elems(r[p]) != Elems(r[q])
  }

  /** Every subset of `a` is disjoint from every subset of `b`. */
  predicate Separated(a: seq<seq<int>>, b: seq<seq<int>>)
  {
    forall x, y :: x in a && y in b ==> Elems(x) !! Elems(y)
  }

  /**
   * deep_copy_list_of_list_of_ints: a fresh list holding a copy of every
   * inner list, in order.
   */
  function DeepCopy(a: seq<seq<int>>): (r: seq<seq<int>>)
    ensures |r| == |a|
    ensures forall i :: 0 <= i < |a| ==> r[i] == a[i]
  {
    if |a| == 0 then [] else DeepCopy(a[..|a| - 1]) + [a[|a| - 1]]
  }

  /** copy_concat_int: a fresh list holding `a` followed by `b`. */
  function CopyConcat(a: seq<int>, b: seq<int>): (r: seq<int>)
  {
    a + b
  }

  lemma CopyConcatSets(a: seq<int>, b: seq<int>)
    ensures |CopyConcat(a, b)| == |a| + |b|
    ensures Elems(CopyConcat(a, b)) == Elems(a) + Elems(b)
    ensures NoDup(CopyConcat(a, b)) <==> NoDup(a) && NoDup(b) && Elems(a) !! Elems(b)
  {
    var r := CopyConcat(a, b);
    assert forall x :: x in r <==> x in a || x in b;
    if NoDup(a) && NoDup(b) && Elems(a) !! Elems(b) {
      forall i, j | 0 <= i < j < |r| ensures r[i] != r[j] {
        if i < |a| && |a| <= j {
          assert r[i] in Elems(a) && r[j] in Elems(b);
        }
      }
    }
    if NoDup(r) {
      forall i, j | 0 <= i < j < |a| ensures a[i] != a[j] {
        assert r[i] == a[i] && r[j] == a[j];
      }
      forall i, j | 0 <= i < j < |b| ensures b[i] != b[j] {
        assert r[|a| + i] == b[i] && r[|a| + j] == b[j];
      }
      forall i, j | 0 <= i < |a| && 0 <= j < |b| ensures a[i] != b[j] {
        assert r[i] == a[i] && r[|a| + j] == b[j];
      }
    }
  }

  /** The inner loop of cartesian_product: `bi ++ a[j]` for every `j`, in order. */
  function Lunion(bi: seq<int>, a: seq<seq<int>>): (r: seq<seq<int>>)
    ensures |r| == |a|
    ensures forall j :: 0 <= j < |a| ==> r[j] == CopyConcat(bi, a[j])
  {
    if |a| == 0 then [] else Lunion(bi, a[..|a| - 1]) + [CopyConcat(bi, a[|a| - 1])]
  }

  /** The outer loop of cartesian_product: one `Lunion` per element of `b`, in order. */
  function Mixed(a: seq<seq<int>>, b: seq<seq<int>>): (r: seq<seq<int>>)
    ensures |r| == |b| * |a|
  {
    if |b| == 0 then
      []
    else
      assert |b| * |a| == (|b| - 1) * |a| + |a|;
      Mixed(a, b[..|b| - 1]) + Lunion(b[|b| - 1], a)
  }

  /**
   * cartesian_product: an empty side yields the other side; otherwise a
   * copy of `a`, then a copy of `b`, then `b[i] ++ a[j]` for every `i`
   * (outer) and `j` (inner).
   */
  function CartesianProduct(a: seq<seq<int>>, b: seq<seq<int>>): (r: seq<seq<int>>)
  {
    if a == [] then b
    else if b == [] then a
    else DeepCopy(a) + DeepCopy(b) + Mixed(a, b)
  }

  /** Element `i * |a| + j` of the mixed part is `b[i] ++ a[j]`. */
  lemma {:induction false} MixedAt(a: seq<seq<int>>, b: seq<seq<int>>, i: nat, j: nat)
    requires i < |b| && j < |a|
    ensures 0 <= i * |a| + j < |Mixed(a, b)|
    ensures Mixed(a, b)[i * |a| + j] == b[i] + a[j]
  {
    var b' := b[..|b| - 1];
    var left := Mixed(a, b');
    assert Mixed(a, b) == left + Lunion(b[|b| - 1], a);
    if i < |b| - 1 {
      MixedAt(a, b', i, j);
      assert b'[i] == b[i];
    } else {
      assert i * |a| == |left|;
    }
  }

  /** The mixed part holds exactly the concatenations `b[i] ++ a[j]`. */
  lemma {:induction false} MixedMembers(a: seq<seq<int>>, b: seq<seq<int>>, x: seq<int>)
    ensures x in Mixed(a, b) <==> exists i, j :: 0 <= i < |b| && 0 <= j < |a| && x == b[i] + a[j]
  {
    if x in Mixed(a, b) {
      var k :| 0 <= k < |Mixed(a, b)| && Mixed(a, b)[k] == x;
      MixedIndex(a, b, k);
    }
    if exists i, j :: 0 <= i < |b| && 0 <= j < |a| && x == b[i] + a[j] {
      var i, j :| 0 <= i < |b| && 0 <= j < |a| && x == b[i] + a[j];
      MixedAt(a, b, i, j);
    }
  }

  lemma {:induction false} MixedIndex(a: seq<seq<int>>, b: seq<seq<int>>, k: nat)
    requires k < |Mixed(a, b)|
    ensures exists i, j :: 0 <= i < |b| && 0 <= j < |a| && Mixed(a, b)[k] == b[i] + a[j]
  {
    var b' := b[..|b| - 1];
    var left := Mixed(a, b');
    if k < |left| {
      MixedIndex(a, b', k);
      var i, j :| 0 <= i < |b'| && 0 <= j < |a| && left[k] == b'[i] + a[j];
      assert Mixed(a, b)[k] == b[i] + a[j];
    } else {
      var j := k - |left|;
      assert Mixed(a, b)[k] == b[|b| - 1] + a[j];
    }
  }

  /** The size of the product: `|r| + 1 == (|a| + 1) * (|b| + 1)`, so `|a| + |b| + |a| * |b|` for non-empty inputs. */
  lemma CartesianLength(a: seq<seq<int>>, b: seq<seq<int>>)
    ensures |CartesianProduct(a, b)| + 1 == (|a| + 1) * (|b| + 1)
    ensures a != [] && b != [] ==> |CartesianProduct(a, b)| == |a| + |b| + |a| * |b|
  {
    assert (|a| + 1) * (|b| + 1) == |a| + |b| + |b| * |a| + 1;
  }

  /**
   * The order of the result for non-empty inputs: first `a`, then `b`, then
   * `b[i] ++ a[j]` with `i` in the outer and `j` in the inner loop.
   */
  lemma CartesianOrder(a: seq<seq<int>>, b: seq<seq<int>>, i: nat, j: nat)
    requires a != [] && b != []
    requires i < |b| && j < |a|
    ensures CartesianProduct(a, b)[..|a|] == a
    ensures CartesianProduct(a, b)[|a|..|a| + |b|] == b
    ensures 0 <= |a| + |b| + i * |a| + j < |CartesianProduct(a, b)|
    ensures CartesianProduct(a, b)[|a| + |b| + i * |a| + j] == b[i] + a[j]
  {
    CartesianCopies(a, b);
    MixedAt(a, b, i, j);
    CartesianMixed(a, b, i * |a| + j);
  }

  /** For non-empty inputs the product starts with `a` and then `b`. */
  lemma CartesianCopies(a: seq<seq<int>>, b: seq<seq<int>>)
    requires a != [] && b != []
    ensures CartesianProduct(a, b)[..|a|] == a
    ensures CartesianProduct(a, b)[|a|..|a| + |b|] == b
  {
    CartesianIsConcat(a, b);
    var r := a + b + Mixed(a, b);
    assert r[..|a|] == a;
    assert r[|a|..|a| + |b|] == b;
  }

  /** For non-empty inputs the product continues with the mixed part. */
  lemma CartesianMixed(a: seq<seq<int>>, b: seq<seq<int>>, k: int)
    requires a != [] && b != [] && 0 <= k < |Mixed(a, b)|
    ensures |a| + |b| + k < |CartesianProduct(a, b)|
    ensures CartesianProduct(a, b)[|a| + |b| + k] == Mixed(a, b)[k]
  {
    CartesianIsConcat(a, b);
  }

  lemma CartesianIsConcat(a: seq<seq<int>>, b: seq<seq<int>>)
    requires a != [] && b != []
    ensures CartesianProduct(a, b) == a + b + Mixed(a, b)
  {
    assert DeepCopy(a) == a;
    assert DeepCopy(b) == b;
  }

  /** An empty side returns the other side unchanged. */
  lemma CartesianEmpty(a: seq<seq<int>>, b: seq<seq<int>>)
    ensures CartesianProduct([], b) == b
    ensures CartesianProduct(a, []) == a
  {
  }

  /** Membership: a subset is in the product iff it is in `a`, in `b`, or is some `b[i] ++ a[j]`. */
  lemma CartesianMembers(a: seq<seq<int>>, b: seq<seq<int>>, x: seq<int>)
    ensures x in CartesianProduct(a, b) <==>
              x in a || x in b || exists i, j :: 0 <= i < |b| && 0 <= j < |a| && x == b[i] + a[j]
  {
    MixedMembers(a, b, x);
    if a != [] && b != [] {
      CartesianIsConcat(a, b);
    }
  }

  /** A duplicate-free list has as many elements as the set it stands for. */
  lemma {:induction false} ElemsSize(x: seq<int>)
    requires NoDup(x)
    ensures |Elems(x)| == |x|
  {
    if |x| > 0 {
      var init, last := x[..|x| - 1], x[|x| - 1];
      assert x == init + [last];
      assert NoDup(init) by {
        forall i, j | 0 <= i < j < |init| ensures init[i] != init[j] {
          assert init[i] == x[i] && init[j] == x[j];
        }
      }
      ElemsSize(init);
      ElemsConcat(init, [last]);
      assert last !in Elems(init);
      assert Elems([last]) == {last};
    }
  }

  lemma ElemsConcat(x: seq<int>, y: seq<int>)
    ensures Elems(x + y) == Elems(x) + Elems(y)
  {
    assert forall v :: v in x + y <==> v in x || v in y;
  }

  /** A union of two disjoint parts, each drawn from one of two disjoint families, determines its parts. */
  lemma SplitUnion(x1: set<int>, y1: set<int>, x2: set<int>, y2: set<int>)
    requires x1 !! y1 && x1 !! y2 && x2 !! y1 && x2 !! y2
    requires x1 + y1 == x2 + y2
    ensures x1 == x2 && y1 == y2
  {
  }

  /** Concatenating two lists with distinct sets and no set in common keeps the sets distinct. */
  lemma ConcatDistinct(x: seq<seq<int>>, y: seq<seq<int>>)
    requires DistinctSets(x) && DistinctSets(y)
    requires forall u, v :: u in x && v in y ==> Elems(u) != Elems(v)
    ensures DistinctSets(x + y)
  {
    var r := x + y;
    forall p, q | 0 <= p < q < |r| ensures Elems(r[p]) != Elems(r[q]) {
      if q < |x| {
        assert r[p] == x[p] && r[q] == x[q];
      } else if p >= |x| {
        assert r[p] == y[p - |x|] && r[q] == y[q - |x|];
      } else {
        assert r[p] in x && r[q] in y;
      }
    }
  }

  /** One row of the mixed part: `c ++ a[j]` for every `j`, proper and with distinct sets. */
  lemma LunionDistinct(c: seq<int>, a: seq<seq<int>>)
    requires |c| > 0 && NoDup(c)
    requires Proper(a) && DistinctSets(a)
    requires forall y :: y in a ==> Elems(c) !! Elems(y)
    ensures Proper(Lunion(c, a)) && DistinctSets(Lunion(c, a))
  {
    var row := Lunion(c, a);
    forall x | x in row ensures |x| > 0 && NoDup(x) {
      var j :| 0 <= j < |row| && row[j] == x;
      assert a[j] in a;
      CopyConcatSets(c, a[j]);
    }
    forall p, q | 0 <= p < q < |row| ensures Elems(row[p]) != Elems(row[q]) {
      assert a[p] in a && a[q] in a;
      ElemsConcat(c, a[p]);
      ElemsConcat(c, a[q]);
      if Elems(row[p]) == Elems(row[q]) {
        SplitUnion(Elems(c), Elems(a[p]), Elems(c), Elems(a[q]));
      }
    }
  }

  /** A concatenation `b[i] ++ a[j]` determines `b[i]` when the families are separated. */
  lemma MixedCross(a: seq<seq<int>>, b: seq<seq<int>>, i: nat, j: nat, k: nat, j': nat)
    requires Separated(a, b) && DistinctSets(b)
    requires i < k < |b| && j < |a| && j' < |a|
    ensures Elems(b[i] + a[j]) != Elems(b[k] + a[j'])
  {
    assert a[j] in a && a[j'] in a && b[i] in b && b[k] in b;
    ElemsConcat(b[i], a[j]);
    ElemsConcat(b[k], a[j']);
    assert Elems(b[i]) != Elems(b[k]);
    if Elems(b[i] + a[j]) == Elems(b[k] + a[j']) {
      SplitUnion(Elems(b[i]), Elems(a[j]), Elems(b[k]), Elems(a[j']));
    }
  }

  /** No set of the earlier rows of the mixed part reappears in its last row. */
  lemma MixedLastRow(a: seq<seq<int>>, b: seq<seq<int>>)
    requires Separated(a, b) && DistinctSets(b) && |b| > 0
    ensures forall u, v :: u in Mixed(a, b[..|b| - 1]) && v in Lunion(b[|b| - 1], a) ==> Elems(u) != Elems(v)
  {
    var b' := b[..|b| - 1];
    var k := |b| - 1;
    var right := Lunion(b[k], a);
    forall u, v | u in Mixed(a, b') && v in right ensures Elems(u) != Elems(v) {
      MixedMembers(a, b', u);
      var i, j :| 0 <= i < |b'| && 0 <= j < |a| && u == b'[i] + a[j];
      var j' :| 0 <= j' < |right| && right[j'] == v;
      assert b'[i] == b[i];
      MixedCross(a, b, i, j, k, j');
    }
  }

  /** The mixed part is made of proper subsets with pairwise distinct sets. */
  lemma {:induction false} MixedDistinct(a: seq<seq<int>>, b: seq<seq<int>>)
    requires Proper(a) && Proper(b) && DistinctSets(a) && DistinctSets(b) && Separated(a, b)
    ensures Proper(Mixed(a, b)) && DistinctSets(Mixed(a, b))
  {
    if |b| > 0 {
      var b' := b[..|b| - 1];
      var c := b[|b| - 1];
      assert c in b;
      assert forall y :: y in b' ==> y in b;
      assert DistinctSets(b') by {
        forall p, q | 0 <= p < q < |b'| ensures Elems(b'[p]) != Elems(b'[q]) {
          assert b'[p] == b[p] && b'[q] == b[q];
        }
      }
      MixedDistinct(a, b');
      LunionDistinct(c, a);
      MixedLastRow(a, b);
      ConcatDistinct(Mixed(a, b'), Lunion(c, a));
      assert Mixed(a, b) == Mixed(a, b') + Lunion(c, a);
    }
  }

  /**
   * If both inputs hold non-empty duplicate-free subsets with pairwise
   * distinct sets, and no subset of `a` meets a subset of `b`, then so does
   * the product: every output is duplicate-free and no two outputs stand
   * for the same set of relations.
   */
  lemma CartesianDistinct(a: seq<seq<int>>, b: seq<seq<int>>)
    requires Proper(a) && Proper(b) && DistinctSets(a) && DistinctSets(b) && Separated(a, b)
    ensures Proper(CartesianProduct(a, b)) && DistinctSets(CartesianProduct(a, b))
  {
    if a != [] && b != [] {
      MixedDistinct(a, b);
      var m := Mixed(a, b);
      CartesianIsConcat(a, b);
      forall u, v | u in a && v in b ensures Elems(u) != Elems(v) {
        assert Elems(u) !! Elems(v);
        assert u[0] in Elems(u);
      }
      ConcatDistinct(a, b);
      forall u, v | u in a + b && v in m ensures Elems(u) != Elems(v) {
        MixedMembers(a, b, v);
        var i, j :| 0 <= i < |b| && 0 <= j < |a| && v == b[i] + a[j];
        assert b[i] in b && a[j] in a;
        ElemsConcat(b[i], a[j]);
        assert b[i][0] in Elems(b[i]) && a[j][0] in Elems(a[j]);
        if u in a {
          assert Elems(u) !! Elems(b[i]);
        } else {
          assert Elems(a[j]) !! Elems(u);
        }
      }
      ConcatDistinct(a + b, m);
      forall x | x in a + b + m ensures |x| > 0 && NoDup(x) {
        assert x in a || x in b || x in m;
      }
    }
  }
}
