/** LoopBuffer: a ring for one producer and one consumer, with 32-bit counters that wrap. */
module LoopBuffer {
  import opened Words

  // ---------- the size of the ring ----------

  /** get_power_of_two on a 32-bit word. */
  function GetPowerOfTwo(n: nat): nat
    requires n < WORD
  {
    var a := Wrap32(n + (WORD - 1));
    var a1 := Or(a, ShiftRight(a, 1));
    var a2 := Or(a1, ShiftRight(a1, 2));
    var a3 := Or(a2, ShiftRight(a2, 4));
    var a4 := Or(a3, ShiftRight(a3, 8));
    var a5 := Or(a4, ShiftRight(a4, 16));
    Wrap32(a5 + 1)
  }

  function BufferSize(max: nat): nat
    requires 0 < max < WORD
  {
    if And(max, max - 1) != 0 then GetPowerOfTwo(max) else max
  }

  /** 2 to the power `l - j`, or 1. */
  function Gap(l: nat, j: nat): (g: nat)
    ensures g >= 1
  {
    Pow2(if j < l then l - j else 0)
  }

  /** `n` has `l` bits, the top `j` of them set. */
  predicate TopSet(n: nat, l: nat, j: nat) { Pow2(l) - Gap(l, j) <= n < Pow2(l) }

  lemma {:induction false} GapCovers(m: nat, j: nat)
    ensures Pow2(m) <= Scale(Gap(m, j), j)
  {
    if j < m {
      ScalePow2(m - j, j);
    } else {
      ScalePow2(0, j);
      Pow2Grows(m, j);
    }
  }

  /** The bits of `n >> j`: the top ones are set. */
  lemma {:induction false} ShiftedTop(n: nat, l: nat, j: nat, m: nat)
    requires 0 < j < l && m == l - j && TopSet(n, l, j)
    ensures TopSet(ShiftRight(n, j), m, j)
  {
    var q, g := Pow2(m), Gap(m, j);
    ScalePow2(m, j);
    GapCovers(m, j);
    ShiftCompares(n, j, q);
    if g <= q {
      ScaleMinus(q, g, j);
      ShiftCompares(n, j, q - g);
    }
  }

  /** One line of the bit trick doubles the number of top bits that are set. */
  lemma {:induction false} Smear(n: nat, l: nat, j: nat)
    requires j > 0 && TopSet(n, l, j)
    ensures TopSet(Or(n, ShiftRight(n, j)), l, 2 * j)
  {
    var b := ShiftRight(n, j);
    if j < l {
      var m := l - j;
      var h := Pow2(j) - 1;
      ScalePow2(j, m);
      ScalePow2(0, m);
      ScaleMinus(Pow2(j), 1, m);
      ShiftedTop(n, l, j, m);
      var x := n - Scale(h, m);
      OrHigh(h, x, b, m);
      OrBelow(x, b, m);
      assert Gap(m, j) == Gap(l, 2 * j);
    } else {
      assert Pow2(0) == 1;
      ScalePow2(0, j);
      Pow2Grows(l, j);
      ShiftCompares(n, j, 1);
    }
  }

  lemma {:induction false} BitLength(a: nat) returns (l: nat)
    requires a > 0
    ensures l > 0 && Pow2(l - 1) <= a < Pow2(l)
  {
    if a == 1 {
      l := 1;
      assert Pow2(0) == 1 && Pow2(1) == 2;
    } else {
      var k := BitLength(a / 2);
      l := k + 1;
      assert Pow2(l - 1) == 2 * Pow2(k - 1);
    }
  }

  lemma {:induction false} SmearsAll(a: nat, l: nat)
    requires l > 0 && Pow2(l - 1) <= a < Pow2(l) && l <= 32
    ensures var a1 := Or(a, ShiftRight(a, 1));
      var a2 := Or(a1, ShiftRight(a1, 2));
      var a3 := Or(a2, ShiftRight(a2, 4));
      var a4 := Or(a3, ShiftRight(a3, 8));
      Or(a4, ShiftRight(a4, 16)) == Pow2(l) - 1
  {
    var a1 := Or(a, ShiftRight(a, 1));
    var a2 := Or(a1, ShiftRight(a1, 2));
    var a3 := Or(a2, ShiftRight(a2, 4));
    var a4 := Or(a3, ShiftRight(a3, 8));
    assert TopSet(a, l, 1) by { assert Pow2(l) == 2 * Pow2(l - 1); }
    Smear(a, l, 1);
    Smear(a1, l, 2);
    Smear(a2, l, 4);
    Smear(a3, l, 8);
    Smear(a4, l, 16);
    assert Gap(l, 32) == Pow2(0) == 1;
  }

  lemma {:induction false} Decrement(n: nat)
    requires 0 < n < WORD
    ensures Wrap32(n + (WORD - 1)) == n - 1
  {}

  lemma {:induction false} PowerOf(n: nat, l: nat)
    requires 1 < n < WORD && 0 < l <= 32 && Pow2(l - 1) <= n - 1 < Pow2(l)
    ensures GetPowerOfTwo(n) == Wrap32(Pow2(l))
  {
    Decrement(n);
    SmearsAll(n - 1, l);
  }

  /** No power of two lies between. */
  lemma {:induction false} NoneBetween(n: nat, l: nat, k: nat)
    requires l > 0 && Pow2(l - 1) < n && Pow2(k) >= n
    ensures Pow2(k) >= Pow2(l)
  {
    if k < l { Pow2Grows(k, l - 1); } else { Pow2Grows(l, k); }
  }

  lemma {:induction false} RoundsUp(max: nat) returns (l: nat)
    requires 1 < max <= 0x8000_0000
    ensures 0 < l <= 31 && GetPowerOfTwo(max) == Pow2(l) && Pow2(l - 1) < max <= Pow2(l)
  {
    WordIsPow2();
    l := BitLength(max - 1);
    if l > 31 { Pow2Grows(31, l - 1); }
    PowerOf(max, l);
    Pow2Grows(l, 31);
  }

  lemma {:induction false} SmallPower(k: nat)
    requires Pow2(k) <= 0x8000_0000
    ensures k <= 31
  {
    WordIsPow2();
    if k > 31 { Pow2Grows(32, k); }
  }

  /** The ring size is the least power of two that is at least the size asked for. */
  lemma {:induction false} BufferSizeIsLeast(max: nat)
    requires 0 < max <= 0x8000_0000
    ensures exists k: nat :: k <= 31 && BufferSize(max) == Pow2(k)
    ensures max <= BufferSize(max) && forall k: nat :: Pow2(k) >= max ==> Pow2(k) >= BufferSize(max)
  {
    Pow2Test(max);
    if IsPow2(max) {
      var k: nat :| max == Pow2(k);
      SmallPower(k);
    } else {
      assert max > 1 by { assert Pow2(0) == 1; }
      var l := RoundsUp(max);
      forall k: nat | Pow2(k) >= max ensures Pow2(k) >= Pow2(l) { NoneBetween(max, l, k); }
    }
  }

  lemma {:induction false} NotAPower(max: nat)
    requires 0x8000_0000 < max < WORD
    ensures !IsPow2(max)
  {
    WordIsPow2();
    forall k: nat ensures max != Pow2(k) {
      if k <= 31 { Pow2Grows(k, 31); } else { Pow2Grows(32, k); }
    }
  }

  /** Beyond 2 to the power 31 the word wraps, and there is no such size. */
  lemma {:induction false} BufferSizeWraps(max: nat)
    requires 0x8000_0000 < max < WORD
    ensures BufferSize(max) == 0
  {
    WordIsPow2();
    Pow2Test(max);
    NotAPower(max);
    PowerOf(max, 32);
  }
}
