/** 64-bit words as bounded naturals: exclusive or, right shift, wrapping multiplication, and the
    algebra that makes xor-shifts and odd multiplications invertible. */
module Words {

  const TWO_64: int := 0x1_0000_0000_0000_0000

  function Xor(a: nat, b: nat): nat
    decreases a + b
  {
    if a == 0 then b
    else if b == 0 then a
    else 2 * Xor(a / 2, b / 2) + (if a % 2 == b % 2 then 0 else 1)
  }

  function Shift(a: nat, k: nat): nat
    decreases k
  {
    if k == 0 then a else Shift(a / 2, k - 1)
  }

  function Pow2(n: nat): nat {
    if n == 0 then 1 else 2 * Pow2(n - 1)
  }

  // ---------------------------------------------------------- exclusive or

  /** The recursive equation holds at zero too. */
  lemma {:induction false} XorStep(a: nat, b: nat)
    ensures Xor(a, b) % 2 == (if a % 2 == b % 2 then 0 else 1)
    ensures Xor(a, b) / 2 == Xor(a / 2, b / 2)
  {
    if a != 0 && b != 0 {
      var half, bit := Xor(a / 2, b / 2), if a % 2 == b % 2 then 0 else 1;
      assert Xor(a, b) == 2 * half + bit;
    }
  }

  lemma Halves(x: nat, y: nat)
    requires x % 2 == y % 2 && x / 2 == y / 2
    ensures x == y
  {
  }

  lemma {:induction false} XorCommutes(a: nat, b: nat)
    ensures Xor(a, b) == Xor(b, a)
    decreases a + b
  {
    if a != 0 && b != 0 {
      XorCommutes(a / 2, b / 2);
    }
  }

  lemma {:induction false} XorAssociates(a: nat, b: nat, c: nat)
    ensures Xor(Xor(a, b), c) == Xor(a, Xor(b, c))
    decreases a + b + c
  {
    if a != 0 && b != 0 && c != 0 {
      XorAssociates(a / 2, b / 2, c / 2);
      XorStep(a, b);
      XorStep(b, c);
      XorStep(Xor(a, b), c);
      XorStep(a, Xor(b, c));
      Halves(Xor(Xor(a, b), c), Xor(a, Xor(b, c)));
    }
  }

  lemma {:induction false} XorSelf(a: nat)
    ensures Xor(a, a) == 0
  {
    if a != 0 {
      XorSelf(a / 2);
    }
  }

  lemma XorUndo(k: nat, a: nat)
    ensures Xor(k, Xor(k, a)) == a
  {
    XorAssociates(k, k, a);
    XorSelf(k);
  }

  lemma {:induction false} XorBounded(a: nat, b: nat, n: nat)
    requires a < Pow2(n) && b < Pow2(n)
    ensures Xor(a, b) < Pow2(n)
    decreases n
  {
    if n != 0 && a != 0 && b != 0 {
      XorBounded(a / 2, b / 2, n - 1);
    }
  }

  lemma Pow2Word()
    ensures Pow2(64) == TWO_64
  {
    assert Pow2(8) == 0x100;
    assert Pow2(16) == 0x1_0000;
    assert Pow2(24) == 0x100_0000;
    assert Pow2(32) == 0x1_0000_0000;
    assert Pow2(40) == 0x100_0000_0000;
    assert Pow2(48) == 0x1_0000_0000_0000;
    assert Pow2(56) == 0x100_0000_0000_0000;
  }

  lemma XorWord(a: nat, b: nat)
    requires a < TWO_64 && b < TWO_64
    ensures Xor(a, b) < TWO_64
  {
    Pow2Word();
    XorBounded(a, b, 64);
  }

  // ----------------------------------------------------------------- shifts

  lemma {:induction false} ShiftXor(a: nat, b: nat, k: nat)
    ensures Shift(Xor(a, b), k) == Xor(Shift(a, k), Shift(b, k))
    decreases k
  {
    if k != 0 {
      XorStep(a, b);
      ShiftXor(a / 2, b / 2, k - 1);
    }
  }

  lemma {:induction false} ShiftShift(a: nat, j: nat, k: nat)
    ensures Shift(Shift(a, j), k) == Shift(a, j + k)
    decreases j
  {
    if j != 0 {
      ShiftShift(a / 2, j - 1, k);
    }
  }

  lemma {:induction false} ShiftOut(a: nat, n: nat, k: nat)
    requires a < Pow2(n) && n <= k
    ensures Shift(a, k) == 0
    decreases k
  {
    if k != 0 {
      if n == 0 {
        ShiftOut(0, 0, k - 1);
      } else {
        ShiftOut(a / 2, n - 1, k - 1);
      }
    }
  }

  lemma {:induction false} ShiftNoLarger(a: nat, k: nat)
    ensures Shift(a, k) <= a
    decreases k
  {
    if k != 0 {
      ShiftNoLarger(a / 2, k - 1);
    }
  }

  // ------------------------------------------------------------- xor-shifts

  function XorShift(z: nat, k: nat): nat {
    Xor(z, Shift(z, k))
  }

  function UnxorShift(y: nat, k: nat): nat {
    Xor(Xor(y, Shift(y, k)), Shift(y, 2 * k))
  }

  /** With a, b, c the word shifted by k, 2k and 3k (the last being nothing), the two compositions
      telescope. */
  lemma Telescope(z: nat, a: nat, b: nat)
    ensures Xor(Xor(Xor(z, a), Xor(a, b)), b) == z
    ensures Xor(Xor(Xor(z, a), b), Xor(a, b)) == z
  {
    XorAssociates(z, a, Xor(a, b));
    XorUndo(a, b);
    XorAssociates(z, b, b);
    XorSelf(b);
    XorCommutes(z, 0);
    XorAssociates(z, a, b);
    XorAssociates(z, Xor(a, b), Xor(a, b));
    XorSelf(Xor(a, b));
  }

  lemma ShiftWordOut(z: nat, k: nat)
    requires z < TWO_64 && 64 <= k
    ensures Shift(z, k) == 0
  {
    Pow2Word();
    ShiftOut(z, 64, k);
  }

  /** Shifting a word by k three times leaves nothing. */
  lemma ShiftsOf(z: nat, k: nat)
    requires z < TWO_64 && 64 <= 3 * k
    ensures Shift(Shift(z, k), k) == Shift(z, 2 * k)
    ensures Shift(Shift(z, 2 * k), k) == Shift(Shift(z, k), 2 * k) == 0
    ensures Shift(z, k) < TWO_64 && Shift(z, 2 * k) < TWO_64
  {
    ShiftWordOut(z, 3 * k);
    ShiftShift(z, k, k);
    ShiftShift(z, 2 * k, k);
    ShiftShift(z, k, 2 * k);
    ShiftNoLarger(z, k);
    ShiftNoLarger(z, 2 * k);
  }

  lemma XorShiftUndone(z: nat, k: nat)
    requires z < TWO_64 && 64 <= 3 * k
    ensures XorShift(z, k) < TWO_64 && UnxorShift(XorShift(z, k), k) == z
  {
    var a, b := Shift(z, k), Shift(z, 2 * k);
    ShiftsOf(z, k);
    XorWord(z, a);
    ShiftXor(z, a, k);
    ShiftXor(z, a, 2 * k);
    XorCommutes(b, 0);
    Telescope(z, a, b);
  }

  lemma XorShiftReached(z: nat, k: nat)
    requires z < TWO_64 && 64 <= 3 * k
    ensures UnxorShift(z, k) < TWO_64 && XorShift(UnxorShift(z, k), k) == z
  {
    var a, b := Shift(z, k), Shift(z, 2 * k);
    ShiftsOf(z, k);
    XorWord(z, a);
    XorWord(Xor(z, a), b);
    ShiftXor(z, a, k);
    ShiftXor(Xor(z, a), b, k);
    XorCommutes(Xor(a, b), 0);
    Telescope(z, a, b);
  }

  /** A shift by at least a third of the word is undone by repeating it twice. */
  lemma XorShiftInverse(z: nat, k: nat)
    requires z < TWO_64 && 64 <= 3 * k
    ensures XorShift(z, k) < TWO_64 && UnxorShift(XorShift(z, k), k) == z
    ensures UnxorShift(z, k) < TWO_64 && XorShift(UnxorShift(z, k), k) == z
  {
    XorShiftUndone(z, k);
    XorShiftReached(z, k);
  }

  // --------------------------------------------------- wrapping multiplication

  function WrappingMul(a: nat, c: nat): (r: nat)
    ensures r < TWO_64
  {
    (a * c) % TWO_64
  }

  lemma ModUnique(x: int, a: int, t: int)
    requires 0 <= a < TWO_64 && x == a + t * TWO_64
    ensures x % TWO_64 == a
  {
  }

  /** Multiplying by a constant is undone by multiplying by its inverse modulo 2^64. */
  lemma WrappingMulInverse(a: nat, c: nat, d: nat)
    requires a < TWO_64 && (c * d) % TWO_64 == 1
    ensures WrappingMul(WrappingMul(a, c), d) == a
  {
    var q, r := (a * c) / TWO_64, (a * c) % TWO_64;
    var k := (c * d) / TWO_64;
    calc {
      r * d;
    ==
      (a * c - q * TWO_64) * d;
    == { ProductRegroups(a, c, d, q); }
      a * (c * d) - (q * d) * TWO_64;
    ==
      a * (1 + k * TWO_64) - (q * d) * TWO_64;
    == { ProductSpreads(a, k); }
      a + (a * k - q * d) * TWO_64;
    }
    ModUnique(r * d, a, a * k - q * d);
  }

  lemma ProductRegroups(a: int, c: int, d: int, q: int)
    ensures (a * c - q * TWO_64) * d == a * (c * d) - (q * d) * TWO_64
  {
  }

  lemma ProductSpreads(a: int, k: int)
    ensures a * (1 + k * TWO_64) == a + (a * k) * TWO_64
  {
  }

  // ------------------------------------------------------------------ rounds

  /** One round of a multiply-xorshift mixer, and its inverse. */
  function Round(z: nat, k: nat, c: nat): nat {
    WrappingMul(XorShift(z, k), c)
  }

  function Unround(w: nat, k: nat, d: nat): nat {
    UnxorShift(WrappingMul(w, d), k)
  }

  ghost predicate Inverses(c: nat, d: nat) {
    (c * d) % TWO_64 == 1 && (d * c) % TWO_64 == 1
  }

  lemma RoundInverse(z: nat, k: nat, c: nat, d: nat)
    requires z < TWO_64 && 64 <= 3 * k && Inverses(c, d)
    ensures Round(z, k, c) < TWO_64 && Unround(Round(z, k, c), k, d) == z
    ensures Unround(z, k, d) < TWO_64 && Round(Unround(z, k, d), k, c) == z
  {
    XorShiftInverse(z, k);
    WrappingMulInverse(XorShift(z, k), c, d);
    XorShiftInverse(WrappingMul(z, d), k);
    WrappingMulInverse(z, d, c);
  }
}
