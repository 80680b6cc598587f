/** Fixed-width unsigned words as bounded integers.

    C's unsigned operators are written out: `+`, `-`, `*` and `<<` reduce modulo
    the word size, `>>` divides by a power of two, and `^`, `&` work bit by bit. */
module Words {

  type u8 = x: int | 0 <= x < 0x100
  type u32 = x: int | 0 <= x < 0x1_0000_0000
  type u64 = x: int | 0 <= x < 0x1_0000_0000_0000_0000

  const U32_SIZE: nat := 0x1_0000_0000
  const U64_SIZE: nat := 0x1_0000_0000_0000_0000
  const U64_MAX: u64 := 0xFFFF_FFFF_FFFF_FFFF

  function Pow2(k: nat): (p: nat)
    ensures p >= 1
  {
    if k == 0 then 1 else 2 * Pow2(k - 1)
  }

  lemma {:induction false} Pow2Add(a: nat, b: nat)
    ensures Pow2(a + b) == Pow2(a) * Pow2(b)
  {
    if a == 0 {
      assert Pow2(0) * Pow2(b) == Pow2(b);
    } else {
      Pow2Add(a - 1, b);
      DoubleFactor(Pow2(a - 1), Pow2(b));
    }
  }

  lemma DoubleFactor(x: nat, y: nat)
    ensures 2 * x * y == 2 * (x * y)
  {
  }

  lemma WordSizes()
    ensures Pow2(8) == 0x100 && Pow2(32) == U32_SIZE && Pow2(64) == U64_SIZE
  {
    assert Pow2(4) == 16;
    Pow2Add(4, 4);
    Pow2Add(8, 8);
    Pow2Add(16, 16);
    Pow2Add(32, 32);
  }

  lemma {:induction false} Pow2Monotone(a: nat, b: nat)
    requires a <= b
    ensures Pow2(a) <= Pow2(b)
    decreases b
  {
    if a < b {
      Pow2Monotone(a, b - 1);
    }
  }

  /** `x >> k`, one bit at a time. */
  function Shr(x: nat, k: nat): (r: nat)
    ensures r <= x
    decreases k
  {
    if k == 0 then x else Shr(x / 2, k - 1)
  }

  /** Bit `i` of `x`. */
  function Bit(x: nat, i: nat): bool {
    if i == 0 then x % 2 == 1 else Bit(x / 2, i - 1)
  }

  /** Bitwise exclusive or. */
  function Xor(a: nat, b: nat): nat
    decreases a + b
  {
    if a == 0 && b == 0 then 0 else 2 * Xor(a / 2, b / 2) + (a + b) % 2
  }

  /** Bitwise and. */
  function And(a: nat, b: nat): nat {
    if a == 0 then 0 else 2 * And(a / 2, b / 2) + (if a % 2 == 1 && b % 2 == 1 then 1 else 0)
  }

  lemma {:induction false} XorBits(a: nat, b: nat, i: nat)
    ensures Bit(Xor(a, b), i) == (Bit(a, i) != Bit(b, i))
    decreases i
  {
    XorHalves(a, b);
    if i == 0 {
      assert Bit(a, 0) == (a % 2 == 1) && Bit(b, 0) == (b % 2 == 1);
    } else {
      XorBits(a / 2, b / 2, i - 1);
      assert Bit(Xor(a, b), i) == Bit(Xor(a / 2, b / 2), i - 1);
    }
  }

  lemma {:induction false} AndBits(a: nat, b: nat, i: nat)
    ensures Bit(And(a, b), i) == (Bit(a, i) && Bit(b, i))
    decreases i
  {
    assert And(a, b) / 2 == And(a / 2, b / 2);
    if i > 0 {
      AndBits(a / 2, b / 2, i - 1);
    }
  }

  lemma {:induction false} ShrBits(x: nat, k: nat, i: nat)
    ensures Bit(Shr(x, k), i) == Bit(x, i + k)
    decreases k
  {
    if k > 0 {
      ShrBits(x / 2, k - 1, i);
    }
  }

  /** Words with the same bits are the same. */
  lemma {:induction false} BitsTell(x: nat, y: nat)
    requires forall i: nat :: Bit(x, i) == Bit(y, i)
    ensures x == y
    decreases x + y
  {
    assert Bit(x, 0) == Bit(y, 0);
    if x + y > 0 {
      forall i: nat ensures Bit(x / 2, i) == Bit(y / 2, i) {
        assert Bit(x, i + 1) == Bit(y, i + 1);
      }
      BitsTell(x / 2, y / 2);
    }
  }

  /** A mask of `k` ones keeps the remainder modulo 2^k. */
  lemma {:induction false} AndMask(a: nat, k: nat)
    ensures And(a, Pow2(k) - 1) == a % Pow2(k)
  {
    if a == 0 {
      assert 0 % Pow2(k) == 0;
    } else if k == 0 {
      AndZero(a);
    } else {
      var p := Pow2(k - 1);
      assert (Pow2(k) - 1) / 2 == p - 1;
      AndMask(a / 2, k - 1);
      HalveRemainder(a, p);
    }
  }

  lemma {:induction false} AndZero(a: nat)
    ensures And(a, 0) == 0
  {
    if a != 0 {
      AndZero(a / 2);
    }
  }

  lemma HalveRemainder(a: nat, p: nat)
    requires p >= 1
    ensures a % (2 * p) == 2 * ((a / 2) % p) + a % 2
  {
    var q, r := (a / 2) / p, (a / 2) % p;
    assert a / 2 == q * p + r;
    assert a == q * (2 * p) + (2 * r + a % 2);
    DivModUnique(a, 2 * p, q, 2 * r + a % 2);
  }

  lemma Distribute(a: int, b: int, unit: int)
    ensures (a + b) * unit == a * unit + b * unit
  {
  }

  lemma DivModUnique(x: int, m: int, q: int, r: int)
    requires m > 0 && 0 <= r < m && x == q * m + r
    ensures x / m == q && x % m == r
  {
    QuotientUnique(m, q, r, x / m, x % m);
  }

  lemma QuotientUnique(m: int, q: int, r: int, q': int, r': int)
    requires 0 <= r < m && 0 <= r' < m && q * m + r == q' * m + r'
    ensures q == q' && r == r'
  {
    if q > q' {
      AtLeastOnce(q - q', m);
    } else if q < q' {
      AtLeastOnce(q' - q, m);
    }
  }

  lemma AtLeastOnce(k: int, m: int)
    requires k >= 1 && m >= 0
    ensures k * m >= m
  {
    assert k * m == m + (k - 1) * m;
  }

  lemma {:induction false} XorCommutes(a: nat, b: nat)
    ensures Xor(a, b) == Xor(b, a)
    decreases a + b
  {
    if a != 0 || b != 0 {
      XorCommutes(a / 2, b / 2);
    }
  }

  lemma {:induction false} XorZero(a: nat)
    ensures Xor(a, 0) == a && Xor(0, a) == a
  {
    if a != 0 {
      XorZero(a / 2);
    }
  }

  lemma {:induction false} XorSelf(a: nat)
    ensures Xor(a, a) == 0
  {
    if a != 0 {
      XorSelf(a / 2);
    }
  }

  lemma XorHalves(a: nat, b: nat)
    ensures Xor(a, b) / 2 == Xor(a / 2, b / 2) && Xor(a, b) % 2 == (a + b) % 2
  {
  }

  lemma {:induction false} XorAssociates(a: nat, b: nat, c: nat)
    ensures Xor(Xor(a, b), c) == Xor(a, Xor(b, c))
    decreases a + b + c
  {
    if a + b + c != 0 {
      XorAssociates(a / 2, b / 2, c / 2);
      XorAssociatesStep(a, b, c);
    }
  }

  lemma XorAssociatesStep(a: nat, b: nat, c: nat)
    requires Xor(Xor(a / 2, b / 2), c / 2) == Xor(a / 2, Xor(b / 2, c / 2))
    ensures Xor(Xor(a, b), c) == Xor(a, Xor(b, c))
  {
    hide Xor;
    var ab, bc := Xor(a, b), Xor(b, c);
    XorHalves(a, b);
    XorHalves(b, c);
    XorHalves(ab, c);
    XorHalves(a, bc);
    ParityOfSum(ab, a + b, c);
    ParityOfSum(bc, b + c, a);
    SameHalves(Xor(ab, c), Xor(a, bc));
  }

  lemma SameHalves(x: nat, y: nat)
    requires x / 2 == y / 2 && x % 2 == y % 2
    ensures x == y
  {
  }

  lemma ParityOfSum(x: nat, y: nat, z: nat)
    requires x % 2 == y % 2
    ensures (x + z) % 2 == (y + z) % 2
  {
  }

  /** Xoring with the same word twice gives the first word back. */
  lemma XorCancels(a: nat, b: nat)
    ensures Xor(Xor(a, b), b) == a
  {
    XorAssociates(a, b, b);
    XorSelf(b);
    XorZero(a);
  }

  lemma XorInjective(a: nat, b: nat, c: nat)
    requires Xor(a, c) == Xor(b, c)
    ensures a == b
  {
    XorCancels(a, c);
    XorCancels(b, c);
  }

  lemma {:induction false} XorBounded(a: nat, b: nat, k: nat)
    requires a < Pow2(k) && b < Pow2(k)
    ensures Xor(a, b) < Pow2(k)
    decreases k
  {
    if k > 0 && (a != 0 || b != 0) {
      XorBounded(a / 2, b / 2, k - 1);
    }
  }

  /** A right shift distributes over exclusive or. */
  lemma {:induction false} ShrXor(a: nat, b: nat, k: nat)
    ensures Shr(Xor(a, b), k) == Xor(Shr(a, k), Shr(b, k))
    decreases k
  {
    if k > 0 {
      XorHalves(a, b);
      ShrXor(a / 2, b / 2, k - 1);
    }
  }

  /** Shifting right by `j` and then by `k` shifts by `j + k`. */
  lemma {:induction false} ShrShr(x: nat, j: nat, k: nat)
    ensures Shr(Shr(x, j), k) == Shr(x, j + k)
    decreases j
  {
    if j > 0 {
      ShrShr(x / 2, j - 1, k);
    }
  }

  /** A right shift divides by a power of two, rounding down. */
  lemma {:induction false} ShrDivides(x: nat, k: nat)
    ensures Shr(x, k) == x / Pow2(k)
    decreases k
  {
    if k > 0 {
      ShrDivides(x / 2, k - 1);
      HalveQuotient(x, Pow2(k - 1));
    }
  }

  /** All bits of a word of `k` bits leave under a shift by `k`. */
  lemma {:induction false} ShrAll(x: nat, k: nat)
    requires x < Pow2(k)
    ensures Shr(x, k) == 0
  {
    if k > 0 {
      ShrAll(x / 2, k - 1);
    }
  }

  lemma HalveQuotient(x: nat, n: nat)
    requires n >= 1
    ensures x / 2 / n == x / (2 * n)
  {
    var q, r := x / 2 / n, x / 2 % n;
    assert x / 2 == q * n + r;
    assert q * (2 * n) == 2 * (q * n);
    DivModUnique(x, 2 * n, q, 2 * r + x % 2);
  }

  /** `x ^= x >> k` */
  function FoldRight(x: nat, k: nat): nat { Xor(x, Shr(x, k)) }

  lemma FoldBits(x: nat, k: nat, i: nat)
    ensures Bit(FoldRight(x, k), i) == (Bit(x, i) != Bit(x, i + k))
  {
    XorBits(x, Shr(x, k), i);
    ShrBits(x, k, i);
  }

  lemma FoldBounded(x: nat, k: nat, width: nat)
    requires x < Pow2(width)
    ensures FoldRight(x, k) < Pow2(width)
  {
    XorBounded(x, Shr(x, k), width);
  }

  /** Folding by `k` twice folds by `2 * k`. */
  lemma FoldTwice(x: nat, k: nat)
    ensures FoldRight(FoldRight(x, k), k) == FoldRight(x, 2 * k)
  {
    var s, t := Shr(x, k), Shr(x, 2 * k);
    ShrXor(x, s, k);
    ShrShr(x, k, k);
    XorAssociates(x, s, Xor(s, t));
    XorAssociates(s, s, t);
    XorSelf(s);
    XorZero(t);
  }

  lemma FoldsCommute(x: nat, j: nat, k: nat)
    ensures FoldRight(FoldRight(x, j), k) == FoldRight(FoldRight(x, k), j)
  {
    ShrXor(x, Shr(x, j), k);
    ShrXor(x, Shr(x, k), j);
    ShrShr(x, j, k);
    ShrShr(x, k, j);
    XorMiddleSwap(x, Shr(x, j), Shr(x, k), Shr(x, j + k));
  }

  /** Folding by the whole width changes nothing. */
  lemma FoldNothing(x: nat, k: nat, width: nat)
    requires x < Pow2(width) && width <= k
    ensures FoldRight(x, k) == x
  {
    Pow2Monotone(width, k);
    ShrAll(x, k);
    XorZero(x);
  }

  /** `x ^= x >> k` loses nothing: if two words meet, their difference equals its
      own shift, and only zero does. */
  lemma FoldInjective(x: nat, y: nat, k: nat)
    requires k >= 1
    requires FoldRight(x, k) == FoldRight(y, k)
    ensures x == y
  {
    var d := Xor(x, y);
    ShrXor(x, y, k);
    XorMiddleSwap(x, Shr(x, k), y, Shr(y, k));
    XorSelf(FoldRight(x, k));
    XorCancels(d, Shr(d, k));
    XorZero(Shr(d, k));
    EqualsOwnShift(d, k);
    XorCancels(x, y);
    XorZero(y);
  }

  lemma EqualsOwnShift(d: nat, k: nat)
    requires k >= 1 && d == Shr(d, k)
    ensures d == 0
  {
    assert Shr(d / 2, k - 1) <= d / 2;
  }

  lemma XorMiddleSwap(a: nat, b: nat, c: nat, d: nat)
    ensures Xor(Xor(a, b), Xor(c, d)) == Xor(Xor(a, c), Xor(b, d))
  {
    XorAssociates(a, b, Xor(c, d));
    XorAssociates(b, c, d);
    XorCommutes(b, c);
    XorAssociates(c, b, d);
    XorAssociates(a, c, Xor(b, d));
  }
}
