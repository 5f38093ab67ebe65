/** Unsigned 64-bit machine words, and the numbers they denote.

    The hash table masks hashes with `&`, sets the unmasked bits of a cursor with `|` and `~`,
    and increments a cursor whose bits are reversed.  Those steps are written on `bv64`.
    Everything that compares or counts is stated on the number a word denotes.

    Proofs by induction on the bits hide the word operators and use one lemma per operator
    for its effect on the lowest bit (`Odd`) and on the rest (`Half`). */
module Words {

  const ALL_ONES: bv64 := 0xFFFF_FFFF_FFFF_FFFF

  function Pow2(k: nat): (p: nat)
    ensures p > 0
  {
    if k == 0 then 1 else 2 * Pow2(k - 1)
  }

  predicate Odd(x: bv64) { x & 1 == 1 }

  function Bit(x: bv64): nat { if Odd(x) then 1 else 0 }

  function Half(x: bv64): bv64 { x >> 1 }

  function And(x: bv64, y: bv64): bv64 { x & y }

  function Or(x: bv64, y: bv64): bv64 { x | y }

  function Not(x: bv64): bv64 { !x }

  function Succ(x: bv64): bv64 { x + 1 }

  /** `w` moved up by one bit, with the lowest bit set to `b`. */
  function Push(w: bv64, b: bool): bv64 { (w << 1) | (if b then 1 else 0) }

  /** Two words that differ at most in the top bit. */
  predicate SameButTop(x: bv64, y: bv64) {
    (x ^ y) & 0x7FFF_FFFF_FFFF_FFFF == 0
  }

  predicate Disjoint(x: bv64, y: bv64) { x & y == 0 }

  /** The number denoted by the `n` lowest bits of a word. */
  function Low(n: nat, x: bv64): (v: nat)
    ensures v < Pow2(n)
  {
    if n == 0 then 0 else 2 * Low(n - 1, Half(x)) + Bit(x)
  }

  /** The number denoted by a word. */
  function Val(x: bv64): (v: nat)
    ensures v < Pow2(64)
  {
    Low(64, x)
  }

  /** The word that holds a number below 2^n, as C stores one in an `unsigned long`. */
  function Word(n: nat, v: nat): bv64 {
    if n == 0 then 0 else Push(Word(n - 1, v / 2), v % 2 == 1)
  }

  // ---------------------------------------------------------------- arithmetic

  lemma MulGap(a: nat, b: nat, d: nat)
    requires a < b
    ensures a * d + d <= b * d
  {
    assert (b - a) * d == b * d - a * d;
    assert (b - a - 1) * d >= 0;
  }

  lemma MulAtLeast(x: nat, y: nat, d: nat)
    requires x >= y
    ensures x * d >= y * d
  {
    assert (x - y) * d >= 0;
  }

  lemma DivUnique(n: nat, q: nat, r: nat, d: nat)
    requires d > 0 && n == q * d + r && r < d
    ensures n % d == r && n / d == q
  {
    var q', r' := n / d, n % d;
    assert n == q' * d + r' && r' < d;
    if q' > q {
      MulGap(q, q', d);
    } else if q' < q {
      MulGap(q', q, d);
    }
  }

  lemma DoubleMod(a: nat, b: nat, p: nat)
    requires p > 0 && b < 2
    ensures (2 * a + b) % (2 * p) == 2 * (a % p) + b
    ensures (2 * a + b) / (2 * p) == a / p
  {
    var q, r := a / p, a % p;
    assert 2 * a + b == q * (2 * p) + (2 * r + b);
    DivUnique(2 * a + b, q, 2 * r + b, 2 * p);
  }

  lemma {:induction false} PowAdd(a: nat, b: nat)
    ensures Pow2(a + b) == Pow2(a) * Pow2(b)
  {
    if a > 0 {
      PowAdd(a - 1, b);
    }
  }

  const LONG_MAX: nat := 0x7FFF_FFFF_FFFF_FFFF

  lemma Pow63()
    ensures Pow2(63) == LONG_MAX + 1
  {
    assert Pow2(16) == 0x1_0000;
    PowAdd(16, 16);
    PowAdd(32, 16);
    assert Pow2(15) == 0x8000;
    PowAdd(48, 15);
  }

  lemma PowMono(j: nat, k: nat)
    requires j <= k
    ensures Pow2(j) <= Pow2(k)
  {
    PowAdd(k - j, j);
    MulAtLeast(Pow2(k - j), 1, Pow2(j));
  }

  /** A counter that wraps around at `p`. */
  function Wrap(a: nat, p: nat): (r: nat)
    requires a <= p
  {
    if a == p then 0 else a
  }

  // ---------------------------------------------------------------- masks

  /** The bits set in `c` are the `n` lowest ones. */
  predicate Exactly(n: nat, c: bv64) {
    if n == 0 then c == 0 else Odd(c) && Exactly(n - 1, Half(c))
  }

  /** The `n` lowest bits of `c` are all set. */
  predicate Ones(n: nat, c: bv64) {
    n == 0 || (Odd(c) && Ones(n - 1, Half(c)))
  }

  lemma Exactly8(n: nat, c: bv64)
    requires c & 0xFF == 0xFF && Exactly(n, c >> 8)
    ensures Exactly(n + 8, c)
  {
    Exactly4(n, c >> 4);
    Exactly4(n + 4, c);
  }

  lemma Exactly4(n: nat, c: bv64)
    requires c & 0xF == 0xF && Exactly(n, c >> 4)
    ensures Exactly(n + 4, c)
  {
    assert Exactly(n + 1, c >> 3);
    assert Exactly(n + 2, c >> 2);
    assert Exactly(n + 3, c >> 1);
  }

  lemma AllOnes()
    ensures Exactly(64, ALL_ONES)
  {
    Exactly8(0, 0xFF);
    Exactly8(8, 0xFFFF);
    Exactly8(16, 0xFF_FFFF);
    Exactly8(24, 0xFFFF_FFFF);
    Exactly8(32, 0xFF_FFFF_FFFF);
    Exactly8(40, 0xFFFF_FFFF_FFFF);
    Exactly8(48, 0xFF_FFFF_FFFF_FFFF);
    Exactly8(56, ALL_ONES);
  }

  lemma {:induction false} OnesUpTo(n: nat, m: nat, c: bv64)
    requires Exactly(n, c) && m <= n
    ensures Ones(m, c)
  {
    hide Odd, Half;
    if m > 0 {
      OnesUpTo(n - 1, m - 1, Half(c));
    }
  }

  predicate AgreeOn(c: bv64, x: bv64, y: bv64) { (x ^ y) & c == 0 }

  lemma AgreeHalf(c: bv64, x: bv64, y: bv64)
    requires AgreeOn(c, x, y) && Odd(c)
    ensures AgreeOn(Half(c), Half(x), Half(y))
    ensures Odd(x) == Odd(y)
  {
  }

  /** The lowest `n` bits determine `Low(n, _)`. */
  lemma {:induction false} LowAgree(n: nat, c: bv64, x: bv64, y: bv64)
    requires Ones(n, c) && AgreeOn(c, x, y)
    ensures Low(n, x) == Low(n, y)
  {
    hide AgreeOn, Odd, Half;
    if n > 0 {
      AgreeHalf(c, x, y);
      LowAgree(n - 1, Half(c), Half(x), Half(y));
    }
  }

  /** Words that differ at most in the top bit agree on their 63 lowest bits. */
  lemma LowButTop(n: nat, x: bv64, y: bv64)
    requires n <= 63 && SameButTop(x, y)
    ensures Low(n, x) == Low(n, y)
  {
    AllOnes();
    assert Exactly(63, Half(ALL_ONES));
    OnesUpTo(63, n, Half(ALL_ONES));
    LowAgree(n, 0x7FFF_FFFF_FFFF_FFFF, x, y);
  }

  // ---------------------------------------------------------------- the operators, bit by bit

  lemma AndBits(x: bv64, m: bv64)
    ensures Half(And(x, m)) == And(Half(x), Half(m))
    ensures Odd(And(x, m)) == (Odd(x) && Odd(m))
  {
  }

  lemma NotBits(x: bv64)
    ensures SameButTop(Half(Not(x)), Not(Half(x)))
    ensures Odd(Not(x)) == !Odd(x)
  {
  }

  lemma OrBits(x: bv64, y: bv64)
    requires Disjoint(x, y)
    ensures Half(Or(x, y)) == Or(Half(x), Half(y))
    ensures Disjoint(Half(x), Half(y))
    ensures Odd(Or(x, y)) == (Odd(x) || Odd(y)) && !(Odd(x) && Odd(y))
  {
    hide Or, Half, Odd, Disjoint;
    OrHalf(x, y);
    OrDisjoint(x, y);
    OrOdd(x, y);
  }

  lemma OrHalf(x: bv64, y: bv64)
    ensures Half(Or(x, y)) == Or(Half(x), Half(y))
  {
  }

  lemma OrDisjoint(x: bv64, y: bv64)
    requires Disjoint(x, y)
    ensures Disjoint(Half(x), Half(y))
  {
  }

  lemma OrOdd(x: bv64, y: bv64)
    requires Disjoint(x, y)
    ensures Odd(Or(x, y)) == (Odd(x) || Odd(y)) && !(Odd(x) && Odd(y))
  {
  }

  lemma SuccBitsEven(x: bv64)
    requires !Odd(x)
    ensures Odd(Succ(x)) && Half(Succ(x)) == Half(x)
  {
  }

  lemma SuccBitsOdd(x: bv64)
    requires Odd(x)
    ensures !Odd(Succ(x)) && SameButTop(Half(Succ(x)), Succ(Half(x)))
  {
  }

  lemma PushBits(w: bv64, b: bool)
    ensures SameButTop(Half(Push(w, b)), w)
    ensures Odd(Push(w, b)) == b
  {
  }

  // ---------------------------------------------------------------- the operators, as numbers

  lemma {:induction false} LowAndZero(n: nat, x: bv64, m: bv64)
    requires Low(n, m) == 0
    ensures Low(n, And(x, m)) == 0
  {
    hide Half, Odd, And;
    if n > 0 {
      AndBits(x, m);
      LowAndZero(n - 1, Half(x), Half(m));
    }
  }

  /** Masking with the `k` lowest bits takes the rest of a division by 2^k. */
  lemma {:induction false} LowAnd(n: nat, x: bv64, m: bv64, k: nat)
    requires Low(n, m) == Pow2(k) - 1
    ensures Low(n, And(x, m)) == Low(n, x) % Pow2(k)
  {
    hide Half, Odd, And;
    if k == 0 {
      LowAndZero(n, x, m);
    } else if n > 0 {
      AndBits(x, m);
      LowAnd(n - 1, Half(x), Half(m), k - 1);
      DoubleMod(Low(n - 1, Half(x)), Bit(x), Pow2(k - 1));
    }
  }

  lemma {:induction false} LowNot(n: nat, x: bv64)
    requires n <= 64
    ensures Low(n, Not(x)) == Pow2(n) - 1 - Low(n, x)
  {
    hide Half, Odd, SameButTop, Not;
    if n > 0 {
      NotBits(x);
      LowButTop(n - 1, Half(Not(x)), Not(Half(x)));
      LowNot(n - 1, Half(x));
    }
  }

  lemma {:induction false} LowOr(n: nat, x: bv64, y: bv64)
    requires Disjoint(x, y)
    ensures Low(n, Or(x, y)) == Low(n, x) + Low(n, y)
  {
    hide Half, Odd, Disjoint, Or;
    if n > 0 {
      OrBits(x, y);
      LowOr(n - 1, Half(x), Half(y));
    }
  }

  lemma SuccEven(n: nat, x: bv64)
    requires !Odd(x) && n > 0
    ensures Low(n, Succ(x)) == Low(n, x) + 1 < Pow2(n)
  {
    hide Half, Odd, Succ;
    SuccBitsEven(x);
  }

  lemma SuccOdd(n: nat, x: bv64)
    requires Odd(x) && 0 < n <= 64
    ensures Low(n, Succ(x)) == 2 * Low(n - 1, Succ(Half(x)))
    ensures Low(n, x) == 2 * Low(n - 1, Half(x)) + 1
  {
    hide Half, Odd, Succ, SameButTop;
    SuccBitsOdd(x);
    LowButTop(n - 1, Half(Succ(x)), Succ(Half(x)));
  }

  /** Unsigned increment wraps around. */
  lemma {:induction false} LowSucc(n: nat, x: bv64)
    requires n <= 64
    ensures Low(n, Succ(x)) == Wrap(Low(n, x) + 1, Pow2(n))
  {
    hide Half, Odd, Succ;
    if n > 0 {
      if Odd(x) {
        SuccOdd(n, x);
        LowSucc(n - 1, Half(x));
      } else {
        SuccEven(n, x);
      }
    }
  }

  lemma {:induction false} LowWord(n: nat, v: nat)
    requires n <= 64 && v < Pow2(n)
    ensures Low(n, Word(n, v)) == v
  {
    hide Half, Odd, SameButTop, Push;
    if n > 0 {
      var w := Word(n - 1, v / 2);
      PushBits(w, v % 2 == 1);
      LowButTop(n - 1, Half(Word(n, v)), w);
      LowWord(n - 1, v / 2);
    }
  }

  // ---------------------------------------------------------------- single bits

  function Halves(n: nat, x: bv64): bv64 {
    if n == 0 then x else Halves(n - 1, Half(x))
  }

  /** The highest of `n + 1` bits is the lowest bit left after `n` halvings. */
  lemma {:induction false} LowTop(n: nat, x: bv64)
    ensures Low(n + 1, x) == Low(n, x) + Bit(Halves(n, x)) * Pow2(n)
  {
    hide Half, Odd;
    if n > 0 {
      LowTop(n - 1, Half(x));
    }
  }

  /** `c` has the bit of weight 2^n set and no other. */
  predicate OneHot(n: nat, c: bv64) {
    if n == 0 then c == 1 else !Odd(c) && OneHot(n - 1, Half(c))
  }

  lemma OneHot8(n: nat, c: bv64)
    requires c & 0xFF == 0 && OneHot(n, c >> 8)
    ensures OneHot(n + 8, c)
  {
    OneHot4(n, c >> 4);
    OneHot4(n + 4, c);
  }

  lemma OneHot4(n: nat, c: bv64)
    requires c & 0xF == 0 && OneHot(n, c >> 4)
    ensures OneHot(n + 4, c)
  {
    assert OneHot(n + 1, c >> 3);
    assert OneHot(n + 2, c >> 2);
    assert OneHot(n + 3, c >> 1);
  }

  const TOP: bv64 := 0x8000_0000_0000_0000

  lemma TopIsOneHot()
    ensures OneHot(63, TOP)
  {
    OneHot4(0, 0x10);
    assert OneHot(3, 0x8) && OneHot(2, 0x4) && OneHot(1, 0x2);
    assert OneHot(7, 0x80) by { OneHot4(3, 0x80); }
    OneHot8(7, 0x8000);
    OneHot8(15, 0x80_0000);
    OneHot8(23, 0x8000_0000);
    OneHot8(31, 0x80_0000_0000);
    OneHot8(39, 0x8000_0000_0000);
    OneHot8(47, 0x80_0000_0000_0000);
    OneHot8(55, TOP);
  }

  lemma TestBitStep(x: bv64, c: bv64)
    ensures c == 1 ==> (And(x, c) != 0) == Odd(x)
    ensures !Odd(c) ==> (And(x, c) != 0) == (And(Half(x), Half(c)) != 0)
  {
  }

  lemma {:induction false} TestBit(n: nat, x: bv64, c: bv64)
    requires OneHot(n, c)
    ensures Odd(Halves(n, x)) == (And(x, c) != 0)
  {
    hide Half, Odd, And;
    TestBitStep(x, c);
    if n > 0 {
      TestBit(n - 1, Half(x), Half(c));
    }
  }

  // ---------------------------------------------------------------- zero

  /** `x` has no bit outside `c`. */
  predicate Within(x: bv64, c: bv64) { x & !c == 0 }

  lemma WithinHalf(x: bv64, c: bv64)
    requires Within(x, c)
    ensures Within(Half(x), Half(c))
    ensures c == 0 ==> x == 0
    ensures Half(x) == 0 && !Odd(x) ==> x == 0
  {
  }

  /** Only the zero word denotes zero. */
  lemma {:induction false} ZeroWithin(n: nat, c: bv64, x: bv64)
    requires Exactly(n, c) && Within(x, c) && Low(n, x) == 0
    ensures x == 0
  {
    hide Half, Odd, Within;
    WithinHalf(x, c);
    if n > 0 {
      ZeroWithin(n - 1, Half(c), Half(x));
    }
  }

  lemma {:induction false} LowZero(n: nat)
    ensures Low(n, 0) == 0
  {
    if n > 0 {
      assert Half(0) == 0;
      LowZero(n - 1);
    }
  }

  lemma ZeroIff(x: bv64)
    ensures Val(x) == 0 <==> x == 0
  {
    hide Half, Odd;
    if Val(x) == 0 {
      AllOnes();
      ZeroWithin(64, ALL_ONES, x);
    } else if x == 0 {
      LowZero(64);
    }
  }
}
