/**
 Bit-mask alignment arithmetic on 64-bit words (`AlignUp`, `AlignDown`, `IsAligned`, `IsPowerOfTwo`).

 A word is a natural number below 2^64.  The bitwise operators are defined bit by bit, so that the
 mask forms the code computes can be compared with the division forms the callers rely on.
 */
module Bits {

  const WORD: nat := 0x1_0000_0000_0000_0000

  function Pow2(k: nat): (r: nat)
    ensures r > 0
  {
    if k == 0 then 1 else 2 * Pow2(k - 1)
  }

  /** Bitwise conjunction. */
  function And(x: nat, y: nat): nat {
    if x == 0 || y == 0 then 0 else 2 * And(x / 2, y / 2) + (if x % 2 == 1 && y % 2 == 1 then 1 else 0)
  }

  /** Bitwise complement of a 64-bit word. */
  function Not64(x: nat): nat
    requires x < WORD
  {
    WORD - 1 - x
  }

  /** The test the code uses: a positive number with no bit in common with its predecessor. */
  predicate IsPowerOfTwo(n: nat) {
    n > 0 && And(n, n - 1) == 0
  }

  // ---------------------------------------------------------------------------------------------
  // The operators, with the branches of the code
  // ---------------------------------------------------------------------------------------------

  /** The division form, for alignments that are not powers of two. */
  function FloorMultiple(x: nat, alignment: nat): (r: nat)
    requires alignment >= 1
    ensures r == x - x % alignment
  {
    x / alignment * alignment
  }

  function AlignDown(num: nat, alignment: nat): nat
    requires num < WORD && alignment < WORD
  {
    if alignment <= 1 then num
    else if IsPowerOfTwo(alignment) then And(num, Not64(alignment - 1))
    else FloorMultiple(num, alignment)
  }

  function AlignUp(num: nat, alignment: nat): nat
    requires num < WORD && alignment < WORD
  {
    if alignment <= 1 then num
    else if IsPowerOfTwo(alignment) then And((num + alignment - 1) % WORD, Not64(alignment - 1))
    else FloorMultiple((num + alignment - 1) % WORD, alignment)
  }

  predicate IsAligned(num: nat, alignment: nat)
    requires num < WORD && alignment < WORD
  {
    if alignment <= 1 then true
    else if IsPowerOfTwo(alignment) then And(num, alignment - 1) == 0
    else num % alignment == 0
  }

  // ---------------------------------------------------------------------------------------------
  // The bit test recognises exactly the powers of two
  // ---------------------------------------------------------------------------------------------

  lemma {:induction false} AndPredecessor(k: nat)
    ensures And(Pow2(k), Pow2(k) - 1) == 0
  {
    if k > 0 {
      AndPredecessor(k - 1);
      assert (Pow2(k) - 1) / 2 == Pow2(k - 1) - 1;
    }
  }

  /** The exponent of a number that passes the bit test. */
  lemma {:induction false} PowerOfTwoExponent(n: nat) returns (k: nat)
    requires IsPowerOfTwo(n)
    ensures n == Pow2(k)
  {
    if n == 1 {
      k := 0;
    } else {
      OddAndPredecessor(n);
      assert (n - 1) / 2 == n / 2 - 1;
      var j := PowerOfTwoExponent(n / 2);
      k := j + 1;
    }
  }

  lemma OddAndPredecessor(n: nat)
    ensures n > 1 && n % 2 == 1 ==> And(n, n - 1) > 0
  {
    AndSelf(n / 2);
  }

  lemma {:induction false} AndSelf(x: nat)
    ensures And(x, x) == x
  {
    if x > 0 { AndSelf(x / 2); }
  }

  lemma PowerOfTwoIff(n: nat)
    ensures IsPowerOfTwo(n) <==> exists k :: n == Pow2(k)
  {
    if IsPowerOfTwo(n) {
      var k := PowerOfTwoExponent(n);
    }
    forall k | n == Pow2(k) ensures IsPowerOfTwo(n) { AndPredecessor(k); }
  }

  // ---------------------------------------------------------------------------------------------
  // Masks are remainders
  // ---------------------------------------------------------------------------------------------

  lemma {:induction false} LowMask(x: nat, k: nat)
    ensures And(x, Pow2(k) - 1) == x % Pow2(k)
  {
    if k == 0 {
    } else if x == 0 {
      assert 0 % Pow2(k) == 0;
    } else {
      LowMask(x / 2, k - 1);
      assert (Pow2(k) - 1) / 2 == Pow2(k - 1) - 1;
      HalfMod(x, Pow2(k - 1));
    }
  }

  lemma HalfMod(x: nat, m: nat)
    requires m > 0
    ensures x % (2 * m) == 2 * (x / 2 % m) + x % 2
  {
    var q, r := x / 2 / m, x / 2 % m;
    assert x == 2 * m * q + (2 * r + x % 2) by {
      assert x / 2 == m * q + r;
    }
    DivModUnique(x, 2 * m, q, 2 * r + x % 2);
  }

  lemma DivModUnique(x: int, m: int, q: int, r: int)
    requires m > 0 && x == m * q + r && 0 <= r < m
    ensures x % m == r && x / m == q
  {
    var q', r' := x / m, x % m;
    assert m * (q - q') == r' - r;
    assert q - q' >= 1 ==> m * (q - q') >= m;
    assert q - q' <= -1 ==> m * (q - q') <= -m;
  }

  lemma {:induction false} HighMask(x: nat, w: nat, k: nat)
    requires k <= w && x < Pow2(w)
    ensures Pow2(k) <= Pow2(w)
    ensures And(x, Pow2(w) - Pow2(k)) == x - x % Pow2(k)
    decreases w
  {
    if k == 0 {
      AllOnes(x, w);
    } else {
      HighMask(x / 2, w - 1, k - 1);
      HalfMod(x, Pow2(k - 1));
      assert (Pow2(w) - Pow2(k)) / 2 == Pow2(w - 1) - Pow2(k - 1);
    }
  }

  lemma {:induction false} AllOnes(x: nat, w: nat)
    requires x < Pow2(w)
    ensures And(x, Pow2(w) - 1) == x
  {
    LowMask(x, w);
    DivModUnique(x, Pow2(w), 0, x);
  }

  /** Masking with a single bit tests that bit. */
  lemma {:induction false} BitTest(x: nat, k: nat)
    ensures And(x, Pow2(k)) != 0 <==> x / Pow2(k) % 2 == 1
    decreases k
  {
    if x > 0 {
      if k == 0 {
        assert And(x, 1) == 2 * And(x / 2, 0) + x % 2;
      } else {
        BitTest(x / 2, k - 1);
        HalfTwice(x, Pow2(k - 1));
      }
    }
  }

  lemma HalfTwice(x: nat, m: nat)
    requires m > 0
    ensures x / 2 / m == x / (2 * m)
  {
    var q := x / (2 * m);
    var r := x % (2 * m);
    assert x == 2 * m * q + r;
    assert x / 2 == m * q + r / 2;
    DivModUnique(x / 2, m, q, r / 2);
  }

  lemma WordIsPow2()
    ensures Pow2(64) == WORD
  {
    hide Pow2;
    Pow2Of4();
    Pow2Add(4, 4);
    Pow2Add(8, 8);
    Pow2Add(16, 16);
    Pow2Add(32, 32);
  }

  lemma Pow2Of4()
    ensures Pow2(4) == 16
  {
  }

  lemma {:induction false} Pow2Add(i: nat, j: nat)
    ensures Pow2(i + j) == Pow2(i) * Pow2(j)
  {
    if i > 0 { Pow2Add(i - 1, j); }
  }

  // ---------------------------------------------------------------------------------------------
  // What the operators compute
  // ---------------------------------------------------------------------------------------------

  /** For every alignment, the mask form and the division form of `AlignDown` are the same number. */
  lemma AlignDownIsDivision(num: nat, alignment: nat)
    requires num < WORD && 1 <= alignment < WORD
    ensures AlignDown(num, alignment) == num - num % alignment == num / alignment * alignment
  {
    assert num == num / alignment * alignment + num % alignment;
    if alignment > 1 && IsPowerOfTwo(alignment) {
      MaskIsDivision(num, alignment);
    }
  }

  lemma MaskIsDivision(num: nat, alignment: nat)
    requires num < WORD && 1 <= alignment < WORD && IsPowerOfTwo(alignment)
    ensures And(num, Not64(alignment - 1)) == num - num % alignment
  {
    var k := PowerOfTwoExponent(alignment);
    WordIsPow2();
    if k > 64 { Pow2Monotone(64, k); }
    HighMask(num, 64, k);
  }

  lemma {:induction false} Pow2Monotone(i: nat, j: nat)
    requires i <= j
    ensures Pow2(i) <= Pow2(j)
    decreases j
  {
    if i < j { Pow2Monotone(i, j - 1); }
  }

  lemma IsAlignedIsDivisible(num: nat, alignment: nat)
    requires num < WORD && 1 <= alignment < WORD
    ensures IsAligned(num, alignment) <==> num % alignment == 0
  {
    if alignment > 1 && IsPowerOfTwo(alignment) {
      var k := PowerOfTwoExponent(alignment);
      LowMask(num, k);
    }
  }

  /** `r` is the least multiple of `alignment` that is not below `num`. */
  ghost predicate IsLeastMultipleFrom(r: nat, num: nat, alignment: nat)
    requires alignment >= 1
  {
    r % alignment == 0 && num <= r && forall m: nat :: m % alignment == 0 && num <= m ==> r <= m
  }

  /**
   `AlignUp` rounds up to the next multiple exactly when the addition it starts with stays inside
   the word; when that addition wraps, the result is zero.
   */
  lemma AlignUpIffNoWrap(num: nat, alignment: nat)
    requires num < WORD && 1 <= alignment < WORD
    ensures IsLeastMultipleFrom(AlignUp(num, alignment), num, alignment) <==> num + alignment - 1 < WORD
    ensures num + alignment - 1 >= WORD ==> AlignUp(num, alignment) == 0
    ensures num + alignment - 1 < WORD ==> num <= AlignUp(num, alignment) < num + alignment
  {
    if num + alignment - 1 < WORD {
      AlignUpIsDivision(num, alignment);
      RoundUp(num, alignment);
    } else {
      AlignUpWraps(num, alignment);
    }
  }

  lemma AlignUpWraps(num: nat, alignment: nat)
    requires num < WORD && 1 <= alignment < WORD && num + alignment - 1 >= WORD
    ensures AlignUp(num, alignment) == 0
  {
    var s := num + alignment - 1 - WORD;
    assert (num + alignment - 1) % WORD == s;
    AlignDownIsDivision(s, alignment);
    DivModUnique(s, alignment, 0, s);
  }

  lemma AlignUpIsDivision(num: nat, alignment: nat)
    requires 1 <= alignment < WORD && num + alignment - 1 < WORD
    ensures AlignUp(num, alignment) == num + alignment - 1 - (num + alignment - 1) % alignment
  {
    AlignDownIsDivision(num + alignment - 1, alignment);
    assert (num + alignment - 1) % WORD == num + alignment - 1;
  }

  lemma RoundUp(num: nat, alignment: nat)
    requires alignment >= 1
    ensures var s := num + alignment - 1; s >= s % alignment
                                          && IsLeastMultipleFrom(s - s % alignment, num, alignment)
                                          && num <= s - s % alignment < num + alignment
  {
    var s := num + alignment - 1;
    var q := s / alignment;
    var r := s - s % alignment;
    assert r == alignment * q;
    DivModUnique(r, alignment, q, 0);
    forall m: nat | m % alignment == 0 && num <= m ensures r <= m {
      MultipleAbove(alignment, q, m);
    }
  }

  lemma MultipleAbove(a: nat, q: nat, m: nat)
    requires a >= 1 && m % a == 0 && m > a * q - a
    ensures a * q <= m
  {
    var j := m / a;
    assert m == a * j;
    if j < q {
      MulMonotone(a, j, q - 1);
      MulPred(a, q);
      assert false;
    }
    MulMonotone(a, q, j);
  }

  lemma MulMonotone(a: nat, i: nat, j: nat)
    ensures i <= j ==> a * i <= a * j
  {
  }

  lemma MulPred(a: nat, q: nat)
    requires q >= 1
    ensures a * (q - 1) == a * q - a
  {
  }
}
