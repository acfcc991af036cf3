/** 32-bit words and the bitwise operators of C on them.

    Words are natural numbers below 2^32.  `|`, `&`, `<<` and `>>` are defined bit by bit, so
    that an expression such as `RISC_INLINE | (done << 12) | count` is modelled as it is
    written, also when its operands overlap. */
module Words {

  const WORD: nat := 0x1_0000_0000

  type u32 = x: nat | x < 0x1_0000_0000

  /** C's `a | b`. */
  function Or(a: nat, b: nat): nat {
    if a == 0 && b == 0 then 0
    else (if a % 2 == 1 || b % 2 == 1 then 1 else 0) + 2 * Or(a / 2, b / 2)
  }

  /** C's `a & b`. */
  function And(a: nat, b: nat): (r: nat)
    ensures r <= a && r <= b
  {
    if a == 0 || b == 0 then 0
    else (if a % 2 == 1 && b % 2 == 1 then 1 else 0) + 2 * And(a / 2, b / 2)
  }

  /** `x << k` without a limit on the width. */
  function Shl(x: nat, k: nat): (r: nat)
    decreases k
  {
    if k == 0 then x else 2 * Shl(x, k - 1)
  }

  /** C's `x >> k` on an unsigned operand. */
  function Shr(x: nat, k: nat): (r: nat)
    decreases k
  {
    if k == 0 then x else Shr(x / 2, k - 1)
  }

  /** The number whose low k bits are ones: `(1 << k) - 1`. */
  function Ones(k: nat): nat {
    if k == 0 then 0 else 2 * Ones(k - 1) + 1
  }

  /** The low k bits of x. */
  function Low(x: nat, k: nat): (r: nat)
    ensures r <= Ones(k)
    decreases k
  {
    if k == 0 then 0 else x % 2 + 2 * Low(x / 2, k - 1)
  }

  /** `a | b` on 32-bit operands, which is a 32-bit word again. */
  function Or32(a: u32, b: u32): (r: u32)
    ensures r == Or(a, b)
  {
    OnesConstants();
    OrBound(a, b, 32);
    Or(a, b)
  }

  /** `x << k` on a 32-bit operand: the bits pushed out are lost. */
  function Shl32(x: u32, k: nat): u32 {
    Shl(x, k) % WORD
  }

  lemma {:induction false} ShlAdd(x: nat, j: nat, k: nat)
    ensures Shl(x, j + k) == Shl(Shl(x, j), k)
    decreases k
  {
    if k > 0 {
      ShlAdd(x, j, k - 1);
    }
  }

  lemma {:induction false} ShlZero(k: nat)
    ensures Shl(0, k) == 0
  {
    if k > 0 {
      ShlZero(k - 1);
    }
  }

  lemma {:induction false} OnesAdd(j: nat, k: nat)
    ensures Ones(j + k) == Shl(Ones(j), k) + Ones(k)
    decreases k
  {
    if k > 0 {
      OnesAdd(j, k - 1);
    }
  }

  lemma {:induction false} Shl4(x: nat)
    ensures Shl(x, 4) == 16 * x
  {
    assert Shl(x, 2) == 4 * x;
  }

  lemma {:induction false} Shl8(x: nat)
    ensures Shl(x, 8) == 256 * x
  {
    ShlAdd(x, 4, 4);
    Shl4(x);
    Shl4(16 * x);
  }

  lemma {:induction false} Shl12(x: nat)
    ensures Shl(x, 12) == 0x1000 * x
  {
    ShlAdd(x, 4, 8);
    Shl4(x);
    Shl8(16 * x);
  }

  /** The shift distances of the instruction word, as multiplications. */
  lemma {:induction false} ShlConstants(x: nat)
    ensures Shl(x, 12) == 0x1000 * x
    ensures Shl(x, 24) == 0x100_0000 * x
    ensures Shl(x, 27) == 0x800_0000 * x
    ensures Shl(x, 28) == 0x1000_0000 * x
  {
    Shl12(x);
    ShlAdd(x, 12, 12);
    Shl12(0x1000 * x);
    ShlAdd(x, 24, 3);
    assert Shl(Shl(x, 24), 2) == 4 * Shl(x, 24);
    ShlAdd(x, 24, 4);
    Shl4(Shl(x, 24));
  }

  lemma {:induction false} Shl32Small(x: u32, k: nat, c: nat)
    requires Shl(x, k) == c * x < WORD
    ensures Shl32(x, k) == c * x
  {
  }

  lemma {:induction false} OnesConstants()
    ensures Ones(1) == 1 && Ones(2) == 3 && Ones(3) == 7 && Ones(4) == 0xF
    ensures Ones(8) == 0xFF && Ones(12) == 0xFFF && Ones(24) == 0xFF_FFFF
    ensures Ones(27) == 0x7FF_FFFF && Ones(28) == 0xFFF_FFFF && Ones(32) == 0xFFFF_FFFF
  {
    assert Ones(2) == 3;
    OnesAdd(4, 4);
    Shl4(15);
    OnesAdd(4, 8);
    Shl8(15);
    OnesAdd(12, 12);
    Shl12(0xFFF);
    OnesAdd(24, 3);
    assert Shl(0xFF_FFFF, 2) == 4 * 0xFF_FFFF;
    OnesAdd(24, 4);
    Shl4(0xFF_FFFF);
    OnesAdd(24, 8);
    Shl8(0xFF_FFFF);
  }

  lemma {:induction false} OrBound(a: nat, b: nat, k: nat)
    requires a <= Ones(k) && b <= Ones(k)
    ensures Or(a, b) <= Ones(k)
    decreases k
  {
    if k > 0 {
      OrBound(a / 2, b / 2, k - 1);
    }
  }

  lemma {:induction false} OrZero(a: nat)
    ensures Or(a, 0) == a && Or(0, a) == a
  {
    if a > 0 {
      OrZero(a / 2);
    }
  }

  /** Operands that share no bit position: or-ing them is adding them. */
  lemma {:induction false} OrDisjoint(a: nat, b: nat, k: nat)
    requires b <= Ones(k)
    ensures Or(Shl(a, k), b) == Shl(a, k) + b
    decreases k
  {
    if k == 0 {
      OrZero(a);
    } else {
      OrDisjoint(a, b / 2, k - 1);
    }
  }

  /** Or-ing works separately above and below any bit position. */
  lemma {:induction false} OrSplit(a: nat, a': nat, b: nat, b': nat, k: nat)
    requires a' <= Ones(k) && b' <= Ones(k)
    ensures Or(Shl(a, k) + a', Shl(b, k) + b') == Shl(Or(a, b), k) + Or(a', b')
    decreases k
  {
    if k == 0 {
      OrZero(0);
    } else {
      OrSplit(a, a' / 2, b, b' / 2, k - 1);
    }
  }

  /** Or-ing a field into a word whose low 12, 24, 27 or 28 bits are clear. */
  lemma {:induction false} Or12(a: nat, b: nat)
    requires b <= 0xFFF
    ensures Or(0x1000 * a, b) == 0x1000 * a + b
  {
    OnesConstants();
    ShlConstants(a);
    OrDisjoint(a, b, 12);
  }

  lemma {:induction false} Or24(a: nat, b: nat)
    requires b <= 0xFF_FFFF
    ensures Or(0x100_0000 * a, b) == 0x100_0000 * a + b
  {
    OnesConstants();
    ShlConstants(a);
    OrDisjoint(a, b, 24);
  }

  lemma {:induction false} Or27(a: nat, b: nat)
    requires b <= 0x7FF_FFFF
    ensures Or(0x800_0000 * a, b) == 0x800_0000 * a + b
  {
    OnesConstants();
    ShlConstants(a);
    OrDisjoint(a, b, 27);
  }

  lemma {:induction false} Or28(a: nat, b: nat)
    requires b <= 0xFFF_FFFF
    ensures Or(0x1000_0000 * a, b) == 0x1000_0000 * a + b
  {
    OnesConstants();
    ShlConstants(a);
    OrDisjoint(a, b, 28);
  }

  /** Masking with ones keeps the low bits. */
  lemma {:induction false} AndOnes(x: nat, k: nat)
    ensures And(x, Ones(k)) == Low(x, k)
    decreases k
  {
    if k > 0 {
      AndOnes(x / 2, k - 1);
      if x == 0 {
        LowZero(k);
      }
    }
  }

  lemma {:induction false} LowZero(k: nat)
    ensures Low(0, k) == 0
  {
    if k > 0 {
      LowZero(k - 1);
    }
  }

  /** A mask shifted left by k selects bits from position k upwards. */
  lemma {:induction false} AndShl(x: nat, m: nat, k: nat)
    ensures And(x, Shl(m, k)) == Shl(And(Shr(x, k), m), k)
    decreases k
  {
    if k > 0 {
      AndShl(x / 2, m, k - 1);
    }
  }

  /** `x & (ones << k)` with w ones: bits k .. k+w-1 of x, left in place. */
  lemma {:induction false} AndField(x: nat, w: nat, k: nat)
    ensures And(x, Shl(Ones(w), k)) == Shl(Low(Shr(x, k), w), k)
  {
    AndShl(x, Ones(w), k);
    AndOnes(Shr(x, k), w);
  }

  /** Shifting down and masking split a number: the quotient and remainder by a power of two. */
  lemma {:induction false} SplitAt(x: nat, k: nat)
    ensures x == Shl(Shr(x, k), k) + Low(x, k)
    decreases k
  {
    if k > 0 {
      SplitAt(x / 2, k - 1);
    }
  }

  lemma {:induction false} DivUnique(x: nat, c: nat, q: nat, r: nat)
    requires r < c && x == c * q + r
    ensures x / c == q && x % c == r
  {
    var d := q - x / c;
    assert c * d == x % c - r;
    if d >= 1 {
      Multiple(c, d);
    } else if d <= -1 {
      Multiple(c, -d);
    }
  }

  lemma {:induction false} Multiple(c: nat, d: nat)
    requires d >= 1
    ensures c * d >= c
  {
  }

  /** Shifting by k and masking k bits, once 2^k is known to be c. */
  lemma {:induction false} SplitIs(x: nat, k: nat, c: nat)
    requires c == Ones(k) + 1
    requires Shl(Shr(x, k), k) == c * Shr(x, k)
    ensures Shr(x, k) == x / c && Low(x, k) == x % c
  {
    SplitAt(x, k);
    DivUnique(x, c, Shr(x, k), Low(x, k));
  }

  /** The shift distances of the driver, as divisions, and its masks, as remainders. */
  lemma {:induction false} SplitConstants(x: nat)
    ensures Shr(x, 8) == x / 0x100 && Low(x, 8) == x % 0x100
    ensures Shr(x, 12) == x / 0x1000 && Low(x, 12) == x % 0x1000
    ensures Shr(x, 24) == x / 0x100_0000
    ensures Shr(x, 27) == x / 0x800_0000
    ensures Shr(x, 28) == x / 0x1000_0000
  {
    OnesConstants();
    Shl8(Shr(x, 8));
    SplitIs(x, 8, 0x100);
    ShlConstants(Shr(x, 12));
    SplitIs(x, 12, 0x1000);
    ShlConstants(Shr(x, 24));
    SplitIs(x, 24, 0x100_0000);
    ShlConstants(Shr(x, 27));
    SplitIs(x, 27, 0x800_0000);
    ShlConstants(Shr(x, 28));
    SplitIs(x, 28, 0x1000_0000);
  }

  lemma {:induction false} SmallSplitConstants(x: nat)
    ensures Low(x, 1) == x % 2
    ensures Low(x, 2) == x % 4
    ensures Low(x, 3) == x % 8
    ensures Low(x, 4) == x % 0x10
  {
    OnesConstants();
    SplitIs(x, 1, 2);
    SplitIs(x, 2, 4);
    assert Shl(Shr(x, 3), 2) == 4 * Shr(x, 3);
    SplitIs(x, 3, 8);
    Shl4(Shr(x, 4));
    SplitIs(x, 4, 0x10);
  }

  /** The masks of the driver, as remainders. */
  lemma {:induction false} AndConstants(x: nat)
    ensures And(x, 1) == x % 2
    ensures And(x, 3) == x % 4
    ensures And(x, 7) == x % 8
    ensures And(x, 0xF) == x % 0x10
    ensures And(x, 0xFF) == x % 0x100
    ensures And(x, 0xFFF) == x % 0x1000
  {
    OnesConstants();
    AndOnes(x, 1);
    AndOnes(x, 2);
    AndOnes(x, 3);
    AndOnes(x, 4);
    AndOnes(x, 8);
    AndOnes(x, 12);
    SmallSplitConstants(x);
    SplitConstants(x);
  }
}
