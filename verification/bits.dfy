/**
 * Relation-subset bitmaps as the source computes them on a C `int`.
 *
 * The source only ever builds non-negative bitmaps below 2^31, with
 * `bitmap |= 1 << x`, `bitmap & ~(1 << u)`, `1 << u` and `(1 << n) - 1`.
 * For such values these operations have an exact arithmetic meaning, which
 * is what this module defines: `Pow2(i)` is `1 << i`, `HasBit(m, i)` is
 * `(m & (1 << i)) != 0`, `BitOr(m, i)` is `m | (1 << i)` and `BitClear(m, i)`
 * is `m & ~(1 << i)`.
 */
module Bits {

  /** `1 << i` */
  function Pow2(i: nat): (r: nat)
    ensures r >= 1
  {
    if i == 0 then 1 else 2 * Pow2(i - 1)
  }

  /** `1 << i` grows strictly with `i`. */
  lemma {:induction false} Pow2Below(i: nat, n: nat)
    requires i < n
    ensures Pow2(i) < Pow2(n)
    decreases n
  {
    if i < n - 1 {
      Pow2Below(i, n - 1);
    }
  }

  /** Only a smaller exponent gives a smaller power of two. */
  lemma Pow2Order(i: nat, n: nat)
    requires Pow2(i) < Pow2(n)
    ensures i < n
  {
    if n < i {
      Pow2Below(n, i);
    }
  }

  /** A loop that stays below `1 << 30` has not reached `i = 30`. */
  lemma ShiftBound(i: nat, n: int)
    requires Pow2(i) < n <= 0x4000_0000
    ensures i < 30
  {
    assert Pow2(10) == 1024;
    Pow2Add(10, 10);
    assert Pow2(20) == 1024 * 1024;
    Pow2Add(20, 10);
    assert Pow2(30) == 0x4000_0000;
    Pow2Order(i, 30);
  }

  /** Shifting by `a` and then by `b` is shifting by `a + b`. */
  lemma {:induction false} Pow2Add(a: nat, b: nat)
    ensures Pow2(a + b) == Pow2(a) * Pow2(b)
    decreases b
  {
    if b > 0 {
      Pow2Add(a, b - 1);
    }
  }

  /** A value a C `int` can hold. */
  predicate IsInt32(x: int)
  {
    -0x8000_0000 <= x < 0x8000_0000
  }

  /** Bit `i` of `m`, i.e. `(m & (1 << i)) != 0`. */
  predicate HasBit(m: nat, i: nat)
  {
    if i == 0 then m % 2 == 1 else HasBit(m / 2, i - 1)
  }

  /** The bits of a 32-bit two's-complement `int`, read as an unsigned value. */
  function Int32Bits(x: int): (r: nat)
    requires IsInt32(x)
    ensures r < 0x1_0000_0000
    ensures 0 <= x ==> r == x
  {
    if x < 0 then x + 0x1_0000_0000 else x
  }

  lemma {:induction false} ZeroHasNoBits(j: nat)
    ensures !HasBit(0, j)
  {
    if j > 0 {
      ZeroHasNoBits(j - 1);
    }
  }

  /** Adding `1 << i` to a value whose bit `i` is clear sets exactly that bit. */
  lemma {:induction false} AddPow2Bits(m: nat, i: nat, j: nat)
    requires !HasBit(m, i)
    ensures HasBit(m + Pow2(i), j) <==> HasBit(m, j) || j == i
    decreases i
  {
    if i == 0 {
      assert m % 2 == 0;
      if j > 0 {
        assert (m + 1) / 2 == m / 2;
      }
    } else {
      assert Pow2(i) == 2 * Pow2(i - 1);
      assert (m + Pow2(i)) % 2 == m % 2;
      assert (m + Pow2(i)) / 2 == m / 2 + Pow2(i - 1);
      if j > 0 {
        AddPow2Bits(m / 2, i - 1, j - 1);
      }
    }
  }

  /** Subtracting `1 << i` from a value whose bit `i` is set clears exactly that bit. */
  lemma {:induction false} SubPow2Bits(m: nat, i: nat, j: nat)
    requires HasBit(m, i)
    ensures m >= Pow2(i)
    ensures HasBit(m - Pow2(i), j) <==> HasBit(m, j) && j != i
    decreases i
  {
    if i == 0 {
      assert m % 2 == 1;
      if j > 0 {
        assert (m - 1) / 2 == m / 2;
      }
    } else {
      SubPow2Bits(m / 2, i - 1, if j > 0 then j - 1 else 0);
      assert Pow2(i) == 2 * Pow2(i - 1);
      assert (m - Pow2(i)) % 2 == m % 2;
      assert (m - Pow2(i)) / 2 == m / 2 - Pow2(i - 1);
    }
  }

  /** A value below `1 << w` has no bit at position `w` or above. */
  lemma {:induction false} NoBitsAbove(m: nat, w: nat, j: nat)
    requires m < Pow2(w)
    requires j >= w
    ensures !HasBit(m, j)
    decreases w
  {
    if w == 0 {
      ZeroHasNoBits(j);
    } else {
      assert m / 2 < Pow2(w - 1);
      NoBitsAbove(m / 2, w - 1, j - 1);
    }
  }

  /** Two values below `1 << w` with the same low `w` bits are equal. */
  lemma {:induction false} SameBitsEqual(m: nat, n: nat, w: nat)
    requires m < Pow2(w) && n < Pow2(w)
    requires forall j :: 0 <= j < w ==> (HasBit(m, j) <==> HasBit(n, j))
    ensures m == n
    decreases w
  {
    if w > 0 {
      assert HasBit(m, 0) <==> HasBit(n, 0);
      forall j | 0 <= j < w - 1
        ensures HasBit(m / 2, j) <==> HasBit(n / 2, j)
      {
        assert HasBit(m, j + 1) <==> HasBit(n, j + 1);
      }
      SameBitsEqual(m / 2, n / 2, w - 1);
    }
  }

  /** Setting a clear bit below `w` keeps a value below `1 << w`. */
  lemma {:induction false} AddPow2Bound(m: nat, i: nat, w: nat)
    requires m < Pow2(w) && i < w
    requires !HasBit(m, i)
    ensures m + Pow2(i) < Pow2(w)
    decreases i
  {
    var h := Pow2(w - 1);
    assert Pow2(w) == 2 * h;
    assert m == 2 * (m / 2) + m % 2;
    if i == 0 {
      assert m % 2 == 0;
    } else {
      assert m / 2 < h;
      AddPow2Bound(m / 2, i - 1, w - 1);
      assert Pow2(i) == 2 * Pow2(i - 1);
      assert m / 2 + Pow2(i - 1) <= h - 1;
    }
  }

  /** `m | (1 << i)` */
  function BitOr(m: nat, i: nat): (r: nat)
    ensures forall j :: HasBit(r, j) <==> HasBit(m, j) || j == i
  {
    if HasBit(m, i) then
      m
    else
      assert forall j :: HasBit(m + Pow2(i), j) <==> HasBit(m, j) || j == i by {
        forall j ensures HasBit(m + Pow2(i), j) <==> HasBit(m, j) || j == i {
          AddPow2Bits(m, i, j);
        }
      }
      m + Pow2(i)
  }

  /** `m & ~(1 << i)` */
  function BitClear(m: nat, i: nat): (r: nat)
    ensures r <= m
    ensures forall j :: HasBit(r, j) <==> HasBit(m, j) && j != i
  {
    if HasBit(m, i) then
      assert m >= Pow2(i) by { SubPow2Bits(m, i, 0); }
      assert forall j :: HasBit(m - Pow2(i), j) <==> HasBit(m, j) && j != i by {
        forall j ensures HasBit(m - Pow2(i), j) <==> HasBit(m, j) && j != i {
          SubPow2Bits(m, i, j);
        }
      }
      m - Pow2(i)
    else
      m
  }

  lemma BitOrBound(m: nat, i: nat, w: nat)
    requires m < Pow2(w) && i < w
    ensures BitOr(m, i) < Pow2(w)
  {
    if !HasBit(m, i) {
      AddPow2Bound(m, i, w);
    }
  }

  /** `1 << i` has exactly bit `i` set. */
  lemma SingleBit(i: nat, j: nat)
    ensures HasBit(Pow2(i), j) <==> j == i
  {
    ZeroHasNoBits(i);
    ZeroHasNoBits(j);
    AddPow2Bits(0, i, j);
  }

  /** `(1 << n) - 1` has exactly the bits below `n` set. */
  lemma {:induction false} FullMaskBits(n: nat, j: nat)
    ensures HasBit(Pow2(n) - 1, j) <==> j < n
    decreases n
  {
    if n == 0 {
      ZeroHasNoBits(j);
    } else {
      var low := Pow2(n - 1) - 1;
      NoBitsAbove(low, n - 1, n - 1);
      assert Pow2(n) - 1 == low + Pow2(n - 1);
      AddPow2Bits(low, n - 1, j);
      FullMaskBits(n - 1, j);
    }
  }

  /** Every bit of a value below `1 << w` is below `w`, and the converse bound. */
  lemma BitsBelowBound(m: nat, w: nat)
    requires m < Pow2(w)
    ensures forall j: nat :: HasBit(m, j) ==> j < w
  {
    forall j: nat | HasBit(m, j) ensures j < w {
      if j >= w {
        NoBitsAbove(m, w, j);
      }
    }
  }

  /**
   * The bitmap of a list of relation indices, built as the source builds it:
   * `bitmap = 0; for each x: bitmap |= 1 << x`.
   */
  function Bitmap(s: seq<int>): (r: nat)
    requires forall x :: x in s ==> 0 <= x
    ensures forall j :: HasBit(r, j) <==> j in s
  {
    if |s| == 0 then
      assert forall j: nat :: !HasBit(0, j) by {
        forall j: nat ensures !HasBit(0, j) { ZeroHasNoBits(j); }
      }
      0
    else
      var init, last := s[..|s| - 1], s[|s| - 1];
      assert s == init + [last] && last in s;
      assert forall j :: j in s <==> j in init || j == last;
      BitOr(Bitmap(init), last)
  }

  lemma {:induction false} BitmapBound(s: seq<int>, w: nat)
    requires forall x :: x in s ==> 0 <= x < w
    ensures Bitmap(s) < Pow2(w)
  {
    if |s| > 0 {
      var init, last := s[..|s| - 1], s[|s| - 1];
      assert s == init + [last] && last in s;
      assert forall j :: j in s <==> j in init || j == last;
      BitmapBound(init, w);
      BitOrBound(Bitmap(init), last, w);
    }
  }

  /** Two index lists below `w` have the same bitmap exactly when they hold the same indices. */
  lemma BitmapEqual(s: seq<int>, t: seq<int>, w: nat)
    requires forall x :: x in s ==> 0 <= x < w
    requires forall x :: x in t ==> 0 <= x < w
    ensures Bitmap(s) == Bitmap(t) <==> (forall x :: x in s <==> x in t)
  {
    if forall x :: x in s <==> x in t {
      BitmapBound(s, w);
      BitmapBound(t, w);
      SameBitsEqual(Bitmap(s), Bitmap(t), w);
    }
  }
}
