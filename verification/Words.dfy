/** Unsigned words: bitwise operations, powers of two, and positions in a ring. */
module Words {
  /** 2 to the power 32. */
  const WORD: nat := 0x1_0000_0000

  /** The value of a 32-bit result. */
  function Wrap32(n: nat): (r: nat)
    ensures r < WORD && (n < WORD ==> r == n)
  {
    n % WORD
  }

  /** `q` times 2 to the power `j`. */
  function Scale(q: nat, j: nat): nat { if j == 0 then q else 2 * Scale(q, j - 1) }

  function Pow2(k: nat): (p: nat)
    ensures p >= 1
  {
    if k == 0 then 1 else 2 * Pow2(k - 1)
  }

  function And(a: nat, b: nat): (r: nat)
    ensures r <= a && r <= b
  {
    if a == 0 || b == 0 then 0 else 2 * And(a / 2, b / 2) + (if a % 2 == 1 && b % 2 == 1 then 1 else 0)
  }

  function Or(a: nat, b: nat): (r: nat)
    ensures r >= a && r >= b
  {
    if a == 0 then b else if b == 0 then a
    else 2 * Or(a / 2, b / 2) + (if a % 2 == 1 || b % 2 == 1 then 1 else 0)
  }

  function ShiftRight(a: nat, j: nat): nat { if j == 0 then a else ShiftRight(a / 2, j - 1) }

  // ---------- powers of two ----------

  lemma {:induction false} ScalePow2(m: nat, j: nat)
    ensures Scale(Pow2(m), j) == Pow2(m + j)
  {
    if j > 0 { ScalePow2(m, j - 1); }
  }

  lemma {:induction false} ScaleMinus(a: nat, b: nat, j: nat)
    requires b <= a
    ensures Scale(b, j) <= Scale(a, j) && Scale(a - b, j) == Scale(a, j) - Scale(b, j)
  {
    if j > 0 { ScaleMinus(a, b, j - 1); }
  }

  /** Shifting right is dividing. */
  lemma {:induction false} ShiftCompares(n: nat, j: nat, q: nat)
    ensures ShiftRight(n, j) >= q <==> n >= Scale(q, j)
  {
    if j > 0 { ShiftCompares(n / 2, j - 1, q); }
  }

  lemma {:induction false} Pow2Grows(j: nat, k: nat)
    requires j <= k
    ensures Pow2(j) <= Pow2(k)
    decreases k
  {
    if j < k { Pow2Grows(j, k - 1); }
  }

  /** A 32-bit word is 2 to the power 32. */
  lemma {:induction false} WordIsPow2()
    ensures Pow2(32) == WORD && Pow2(31) == 0x8000_0000
  {
    assert Pow2(8) == 256 by { assert Pow2(4) == 16; }
    assert Pow2(16) == 65536 by { assert Pow2(12) == 4096; }
    assert Pow2(24) == 0x100_0000 by { assert Pow2(20) == 0x10_0000; }
    assert Pow2(28) == 0x1000_0000;
    assert Pow2(31) == 0x8000_0000;
  }

  // ---------- positions in a ring ----------

  /** The slot of the byte with number `c`, counted from the first ever. */
  function Slot(c: nat, size: nat): (x: nat)
    requires size > 0
    ensures x < size && (c < size ==> x == c)
  {
    if c < size then c else Slot(c - size, size)
  }

  /** `i` slots on from slot `pos`, past the end of the array if need be. */
  function Turn(pos: nat, i: nat, size: nat): nat
    requires pos < size
  {
    if pos + i < size then pos + i else pos + i - size
  }

  lemma {:induction false} SlotAdd(size: nat, c: nat, i: nat)
    requires size > 0 && i <= size
    ensures Slot(c + i, size) == Turn(Slot(c, size), i, size)
    decreases c
  {
    if c >= size {
      SlotAdd(size, c - size, i);
      assert c + i - size == c - size + i;
    }
  }

  /** Bytes less than `size` apart are in different slots. */
  lemma {:induction false} SlotDistinct(size: nat, c: nat, d: nat)
    requires size > 0 && c < d < c + size
    ensures Slot(c, size) != Slot(d, size)
  {
    SlotAdd(size, c, d - c);
  }

  /** Twice the size: the last bit is apart. */
  lemma {:induction false} SlotDouble(x: nat, p: nat)
    requires p > 0
    ensures Slot(x, 2 * p) == 2 * Slot(x / 2, p) + x % 2
    decreases x
  {
    if x >= 2 * p {
      SlotDouble(x - 2 * p, p);
      assert (x - 2 * p) / 2 == x / 2 - p && (x - 2 * p) % 2 == x % 2;
    }
  }

  /** A larger power of two goes round a whole number of times. */
  lemma {:induction false} SlotPlusPow2(c: nat, k: nat, j: nat)
    requires k <= j
    ensures Slot(c + Pow2(j), Pow2(k)) == Slot(c, Pow2(k))
    decreases j
  {
    if k < j {
      SlotPlusPow2(c + Pow2(j - 1), k, j - 1);
      SlotPlusPow2(c, k, j - 1);
      assert c + Pow2(j) == c + Pow2(j - 1) + Pow2(j - 1);
    }
  }

  lemma {:induction false} SlotPlusWord(c: nat, k: nat)
    requires k <= 32
    ensures Slot(c + WORD, Pow2(k)) == Slot(c, Pow2(k))
  {
    WordIsPow2();
    SlotPlusPow2(c, k, 32);
  }

  lemma {:induction false} WrapMinusWord(c: nat)
    requires c >= WORD
    ensures Wrap32(c) == Wrap32(c - WORD)
  {}

  /** The wrap of a counter does not move its slot. */
  lemma {:induction false} SlotWraps(c: nat, k: nat)
    requires k <= 32
    ensures Slot(Wrap32(c), Pow2(k)) == Slot(c, Pow2(k))
    decreases c
  {
    if c >= WORD {
      var d := c - WORD;
      SlotWraps(d, k);
      SlotPlusWord(d, k);
      WrapMinusWord(c);
    }
  }

  // ---------- bits ----------

  lemma {:induction false} AndStep(a: nat, b: nat)
    ensures And(a, b) == 2 * And(a / 2, b / 2) + (if a % 2 == 1 && b % 2 == 1 then 1 else 0)
  {}

  lemma {:induction false} AndOdd(a: nat, b: nat)
    ensures And(a, 2 * b + 1) == 2 * And(a / 2, b) + a % 2
  {
    AndStep(a, 2 * b + 1);
    assert (2 * b + 1) / 2 == b && (2 * b + 1) % 2 == 1;
  }

  /** `x & (2^k - 1)` is a position in a ring of size 2^k. */
  lemma {:induction false} AndMask(x: nat, k: nat)
    ensures And(x, Pow2(k) - 1) == Slot(x, Pow2(k))
    decreases k
  {
    if k > 0 {
      var p := Pow2(k - 1);
      AndMask(x / 2, k - 1);
      SlotDouble(x, p);
      AndOdd(x, p - 1);
    }
  }

  ghost predicate IsPow2(n: nat) { exists k: nat :: n == Pow2(k) }

  lemma {:induction false} AndSelf(n: nat)
    ensures And(n, n) == n
  {
    if n > 0 { AndSelf(n / 2); }
  }

  lemma {:induction false} OddTest(n: nat)
    requires n > 1 && n % 2 == 1
    ensures And(n, n - 1) > 0 && !IsPow2(n)
  {
    var m := n / 2;
    AndSelf(m);
    AndStep(n, n - 1);
    assert (n - 1) / 2 == m;
    forall k: nat ensures n != Pow2(k) { assert k > 0 ==> Pow2(k) == 2 * Pow2(k - 1); }
  }

  lemma {:induction false} DoublePow2(m: nat)
    requires m > 0
    ensures IsPow2(2 * m) <==> IsPow2(m)
  {
    if IsPow2(m) {
      var k: nat :| m == Pow2(k);
      assert 2 * m == Pow2(k + 1);
    }
    if IsPow2(2 * m) {
      var k: nat :| 2 * m == Pow2(k);
      assert m == Pow2(k - 1);
    }
  }

  /** The usual test for a power of two. */
  lemma {:induction false} Pow2Test(n: nat)
    requires n > 0
    ensures And(n, n - 1) == 0 <==> IsPow2(n)
  {
    var m := n / 2;
    if n == 1 {
      assert n == Pow2(0);
    } else if n % 2 == 1 {
      OddTest(n);
    } else {
      Pow2Test(m);
      AndOdd(n, m - 1);
      DoublePow2(m);
    }
  }

  lemma {:induction false} OrBelow(a: nat, b: nat, m: nat)
    requires a < Pow2(m) && b < Pow2(m)
    ensures Or(a, b) < Pow2(m)
    decreases m
  {
    if a > 0 && b > 0 { OrBelow(a / 2, b / 2, m - 1); }
  }

  lemma {:induction false} OrStep(a: nat, b: nat)
    ensures Or(a, b) == 2 * Or(a / 2, b / 2) + (if a % 2 == 1 || b % 2 == 1 then 1 else 0)
  {}

  /** High bits of one operand stand apart from the low bits. */
  lemma {:induction false} OrHigh(h: nat, x: nat, b: nat, m: nat)
    requires x < Pow2(m) && b < Pow2(m)
    ensures Or(Scale(h, m) + x, b) == Scale(h, m) + Or(x, b)
    decreases m
  {
    if m > 0 {
      var a := Scale(h, m) + x;
      assert a / 2 == Scale(h, m - 1) + x / 2 && a % 2 == x % 2;
      OrHigh(h, x / 2, b / 2, m - 1);
      OrStep(a, b);
      OrStep(x, b);
    }
  }
}
