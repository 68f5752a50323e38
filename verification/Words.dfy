/** Unsigned 64-bit words as numbers: masks, shifts, and the bit trick that rounds up to a power of
    two. */
module Words {

  const WORD: nat := 0x1_0000_0000_0000_0000
  const WORD_BITS: nat := 64
  const WORD32: nat := 0x1_0000_0000

  function Pow2(k: nat): (p: nat)
    ensures 1 <= p
  {
    if k == 0 then 1 else 2 * Pow2(k - 1)
  }

  function And(a: nat, b: nat): nat
    decreases a
  {
    if a == 0 then 0 else 2 * And(a / 2, b / 2) + (a % 2) * (b % 2)
  }

  function Or(a: nat, b: nat): nat
    decreases a + b
  {
    if a + b == 0 then 0
    else 2 * Or(a / 2, b / 2) + (if a % 2 == 1 || b % 2 == 1 then 1 else 0)
  }

  function Shr(a: nat, k: nat): nat {
    if k == 0 then a else Shr(a / 2, k - 1)
  }

  function Bit(a: nat, i: nat): bool {
    if i == 0 then a % 2 == 1 else Bit(a / 2, i - 1)
  }

  /** The number of bits up to the highest one set. */
  function BitLen(a: nat): nat {
    if a == 0 then 0 else 1 + BitLen(a / 2)
  }

  ghost predicate IsPow2(n: nat) { exists k: nat :: n == Pow2(k) }

  // ---- Powers of two ----

  lemma {:induction false} Pow2Add(a: nat, b: nat)
    ensures Pow2(a + b) == Pow2(a) * Pow2(b)
    decreases a
  {
    if a == 0 {
    } else {
      Pow2Add(a - 1, b);
      assert 2 * (Pow2(a - 1) * Pow2(b)) == (2 * Pow2(a - 1)) * Pow2(b);
    }
  }

  lemma {:induction false} Pow2Mono(a: nat, b: nat)
    requires a <= b
    ensures Pow2(a) <= Pow2(b)
    decreases b
  {
    if a == b {
    } else {
      Pow2Mono(a, b - 1);
    }
  }

  lemma Pow2Strict(a: nat, b: nat)
    requires Pow2(a) < Pow2(b)
    ensures a < b
  {
    if b <= a {
      Pow2Mono(b, a);
    }
  }

  lemma WordIsPow2()
    ensures Pow2(WORD_BITS) == WORD && Pow2(63) == 0x8000_0000_0000_0000
  {
    assert Pow2(8) == 256;
    Pow2Add(8, 8);
    Pow2Add(16, 16);
    Pow2Add(32, 32);
    assert Pow2(64) == 2 * Pow2(63);
  }

  lemma DoubleIsPow2(n: nat)
    requires IsPow2(n)
    ensures IsPow2(2 * n)
  {
    var k: nat :| n == Pow2(k);
    assert 2 * n == Pow2(k + 1);
  }

  // ---- Masks ----

  /** `a & (2^k - 1)` is `a` modulo `2^k`. */
  lemma {:induction false} AndMask(a: nat, k: nat)
    ensures And(a, Pow2(k) - 1) == a % Pow2(k)
    decreases k, a
  {
    if a == 0 {
      ModOf(0, Pow2(k), 0, 0);
    } else if k == 0 {
      AndZero(a);
    } else {
      var m := Pow2(k - 1);
      calc {
        And(a, Pow2(k) - 1);
      ==  { AndOdd(a, m); }
        2 * And(a / 2, m - 1) + a % 2;
      ==  { AndMask(a / 2, k - 1); }
        2 * ((a / 2) % m) + a % 2;
      ==  { HalveMod(a, m); }
        a % Pow2(k);
      }
    }
  }

  lemma AndOdd(a: nat, m: nat)
    requires 0 < m
    ensures And(a, 2 * m - 1) == 2 * And(a / 2, m - 1) + a % 2
  {
    assert (2 * m - 1) / 2 == m - 1 && (2 * m - 1) % 2 == 1;
  }

  lemma {:induction false} AndZero(a: nat)
    ensures And(a, 0) == 0
    decreases a
  {
    if a == 0 {
    } else {
      AndZero(a / 2);
    }
  }

  lemma HalveMod(a: nat, m: nat)
    requires 0 < m
    ensures a % (2 * m) == 2 * ((a / 2) % m) + a % 2
  {
    var q, r := (a / 2) / m, (a / 2) % m;
    assert a == 2 * (q * m + r) + a % 2;
    assert a == (2 * m) * q + (2 * r + a % 2);
    ModOf(a, 2 * m, q, 2 * r + a % 2);
  }

  lemma MulStep(m: nat, a: nat, b: nat)
    ensures a < b ==> m * a + m <= m * b
  {
    if a < b {
      assert m * b == m * a + m * (b - a);
      assert m * (b - a) == m + m * (b - a - 1);
    }
  }

  lemma ModOf(a: nat, m: nat, q: nat, r: nat)
    requires 0 < m && a == m * q + r && r < m
    ensures a % m == r && a / m == q
  {
    assert a == m * (a / m) + a % m;
    MulStep(m, q, a / m);
    MulStep(m, a / m, q);
  }

  lemma MaskIsMod(a: nat, size: nat)
    requires IsPow2(size)
    ensures And(a, size - 1) == a % size
  {
    var k: nat :| size == Pow2(k);
    AndMask(a, k);
  }

  /** Word subtraction. */
  function Minus(a: nat, b: nat): nat
    requires a < WORD && b < WORD
  {
    (a + WORD - b) % WORD
  }

  /** A masked difference of words is the difference modulo the block size, wrap-around included. */
  lemma MaskedDifference(a: nat, b: nat, size: nat)
    requires a < size && b < size && IsPow2(size) && size <= WORD
    ensures And(Minus(a, b), size - 1) == if b <= a then a - b else size + a - b
  {
    MaskIsMod(Minus(a, b), size);
    if b <= a {
      StraightDifference(a, b, size);
    } else {
      var q := Quotient(size);
      WrappedDifference(a, b, size, q);
    }
  }

  lemma Quotient(size: nat) returns (q: nat)
    requires IsPow2(size) && size <= WORD
    ensures q * size == WORD
  {
    var k: nat :| size == Pow2(k);
    WordIsPow2();
    Pow2Strict(k, WORD_BITS + 1);
    Pow2Add(WORD_BITS - k, k);
    q := Pow2(WORD_BITS - k);
  }

  lemma StraightDifference(a: nat, b: nat, size: nat)
    requires b <= a < size <= WORD
    ensures Minus(a, b) % size == a - b
  {
    ModOf(a + WORD - b, WORD, 1, a - b);
    ModOf(a - b, size, 0, a - b);
  }

  lemma WrappedDifference(a: nat, b: nat, size: nat, q: nat)
    requires a < b < size <= WORD && q * size == WORD
    ensures Minus(a, b) % size == size + a - b
  {
    assert q >= 1;
    assert size * (q - 1) == WORD - size;
    ModOf(a + WORD - b, WORD, 0, a + WORD - b);
    ModOf(WORD + a - b, size, q - 1, size + a - b);
  }

  // ---- Bits ----

  lemma {:induction false} BitOr(a: nat, b: nat, i: nat)
    ensures Bit(Or(a, b), i) == (Bit(a, i) || Bit(b, i))
    decreases i
  {
    if a + b == 0 {
      BitZero(i);
    } else {
      var o := Or(a, b);
      assert o / 2 == Or(a / 2, b / 2);
      if i > 0 {
        BitOr(a / 2, b / 2, i - 1);
      }
    }
  }

  lemma {:induction false} BitZero(i: nat)
    ensures !Bit(0, i)
    decreases i
  {
    if i == 0 {
    } else {
      BitZero(i - 1);
    }
  }

  lemma {:induction false} BitShr(a: nat, k: nat, i: nat)
    ensures Bit(Shr(a, k), i) == Bit(a, i + k)
    decreases k
  {
    if k == 0 {
    } else {
      BitShr(a / 2, k - 1, i);
    }
  }

  /** No bit is set from position `len` on, and the `w` bits below are all set. */
  ghost predicate Smeared(y: nat, len: nat, w: nat) {
    && (forall i: nat :: len <= i ==> !Bit(y, i))
    && (forall i: nat :: i < len <= i + w ==> Bit(y, i))
  }

  lemma {:induction false} SmearedStart(a: nat)
    ensures Smeared(a, BitLen(a), 1)
    decreases a
  {
    if a == 0 {
      forall i: nat ensures !Bit(a, i) { BitZero(i); }
    } else {
      SmearedStart(a / 2);
      forall i: nat
        ensures BitLen(a) <= i ==> !Bit(a, i)
        ensures i < BitLen(a) <= i + 1 ==> Bit(a, i)
      {
        if i > 0 {
          assert Bit(a, i) == Bit(a / 2, i - 1);
        } else {
          assert BitLen(a) == 1 ==> a == 1;
        }
      }
    }
  }

  /** Or-ing a word with itself shifted doubles the smeared window. */
  lemma SmearStep(y: nat, len: nat, w: nat)
    requires Smeared(y, len, w)
    ensures Smeared(Or(y, Shr(y, w)), len, 2 * w)
  {
    forall i: nat
      ensures len <= i ==> !Bit(Or(y, Shr(y, w)), i)
      ensures i < len <= i + 2 * w ==> Bit(Or(y, Shr(y, w)), i)
    {
      BitOr(y, Shr(y, w), i);
      BitShr(y, w, i);
    }
  }

  lemma {:induction false} SmearedAll(y: nat, len: nat)
    requires Smeared(y, len, len)
    ensures y + 1 == Pow2(len)
    decreases len
  {
    if len == 0 {
      NoBits(y);
    } else {
      assert Bit(y, 0);
      forall i: nat
        ensures len - 1 <= i ==> !Bit(y / 2, i)
        ensures i < len - 1 ==> Bit(y / 2, i)
      {
        assert Bit(y, i + 1) == Bit(y / 2, i);
      }
      SmearedAll(y / 2, len - 1);
    }
  }

  lemma {:induction false} NoBits(y: nat)
    requires forall i: nat :: !Bit(y, i)
    ensures y == 0
    decreases y
  {
    if y == 0 {
    } else {
      assert !Bit(y, 0);
      forall i: nat ensures !Bit(y / 2, i) { assert Bit(y, i + 1) == Bit(y / 2, i); }
      NoBits(y / 2);
    }
  }

  lemma {:induction false} BitLenBounds(a: nat)
    ensures a < Pow2(BitLen(a))
    ensures a > 0 ==> Pow2(BitLen(a) - 1) <= a
    decreases a
  {
    if a == 0 {
    } else {
      BitLenBounds(a / 2);
    }
  }

  // ---- Rounding up to a power of two ----

  /** The least power of two not below `x`. */
  function LeastPow2(x: nat): nat
    requires 1 <= x
  {
    Pow2(BitLen(x - 1))
  }

  lemma LeastPow2IsLeast(x: nat, p: nat)
    requires 1 <= x
    ensures x <= LeastPow2(x) && IsPow2(LeastPow2(x))
    ensures x <= p && IsPow2(p) ==> LeastPow2(x) <= p
  {
    BitLenBounds(x - 1);
    if x <= p && IsPow2(p) {
      var k: nat :| p == Pow2(k);
      if x > 1 {
        Pow2Strict(BitLen(x - 1) - 1, k);
      }
      Pow2Mono(BitLen(x - 1), k);
    }
  }

  lemma BitLenOfWord(a: nat)
    requires a < WORD
    ensures BitLen(a) <= WORD_BITS
    ensures BitLen(a) == WORD_BITS <==> 0x8000_0000_0000_0000 <= a
  {
    WordIsPow2();
    BitLenBounds(a);
    if a > 0 {
      Pow2Strict(BitLen(a) - 1, WORD_BITS);
    }
    if BitLen(a) < WORD_BITS {
      Pow2Mono(BitLen(a), 63);
    }
  }

  /** The or-and-shift steps; `x` is the word already decremented. */
  method Smear(x: nat) returns (y: nat)
    requires x < WORD
    ensures y + 1 == Pow2(BitLen(x))
  {
    ghost var len := BitLen(x);
    y := x;
    SmearedStart(y);
    SmearStep(y, len, 1);
    y := Or(y, Shr(y, 1));
    SmearStep(y, len, 2);
    y := Or(y, Shr(y, 2));
    SmearStep(y, len, 4);
    y := Or(y, Shr(y, 4));
    var i: nat := 1;
    while i < WORD_BITS / 8
      invariant i == 1 || i == 2 || i == 4 || i == 8
      invariant Smeared(y, len, 8 * i)
      decreases WORD_BITS - i
    {
      SmearStep(y, len, 8 * i);
      y := Or(y, Shr(y, 8 * i));
      i := 2 * i;
    }
    BitLenOfWord(x);
    SmearedAll(y, len);
  }

  function Dec(x: nat): nat
    requires x < WORD
  {
    if x == 0 then WORD - 1 else x - 1
  }

  function Inc(x: nat): nat
    requires x < WORD
  {
    if x == WORD - 1 then 0 else x + 1
  }

  lemma IncSmeared(x: nat, y: nat)
    requires x < WORD && y + 1 == Pow2(BitLen(Dec(x)))
    ensures y < WORD && (Inc(y) == 0 <==> 0x8000_0000_0000_0000 <= Dec(x))
    ensures y + 1 < WORD ==> Inc(y) == y + 1
  {
    BitLenOfWord(Dec(x));
    WordIsPow2();
    if BitLen(Dec(x)) < WORD_BITS {
      Pow2Mono(BitLen(Dec(x)), 63);
    }
  }

  /** The least power of two not below `x`; above 2^63, where a word holds none, and for 0 the last
      increment wraps round to 0. */
  method CeilToPow2(x: nat) returns (r: nat)
    requires x < WORD
    ensures r == if 1 <= x <= 0x8000_0000_0000_0000 then LeastPow2(x) else 0
  {
    var y := Smear(Dec(x));
    IncSmeared(x, y);
    r := Inc(y);
  }
}
