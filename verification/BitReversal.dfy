/** The bit reversal behind the scan cursor, src/hash/dict.c:715-723. */
module BitReversal {
  import opened Words

  /** The number whose `n` binary digits are those of `a`, in the opposite order. */
  function Mirror(n: nat, a: nat): (r: nat)
    ensures r < Pow2(n)
  {
    if n == 0 then 0 else (a % 2) * Pow2(n - 1) + Mirror(n - 1, a / 2)
  }

  // ---------------------------------------------------------------- the exchange network

  /** The block size of stage `j`. */
  function Block(j: nat): bv7 {
    match j
    case 0 => 64
    case 1 => 32
    case 2 => 16
    case 3 => 8
    case 4 => 4
    case 5 => 2
    case 6 => 1
    case _ => 0
  }

  /** The mask of stage `j`: blocks of set bits alternating with blocks of clear bits. */
  function Mask(j: nat): bv64 {
    match j
    case 0 => ALL_ONES
    case 1 => 0x0000_0000_FFFF_FFFF
    case 2 => 0x0000_FFFF_0000_FFFF
    case 3 => 0x00FF_00FF_00FF_00FF
    case 4 => 0x0F0F_0F0F_0F0F_0F0F
    case 5 => 0x3333_3333_3333_3333
    case _ => 0x5555_5555_5555_5555
  }

  /** Narrow the mask of one stage to the mask of the next. */
  function Narrow(mask: bv64, s: bv7): bv64
    requires s <= 64
  {
    mask ^ (mask << s)
  }

  /** Exchange neighbouring blocks of `s` bits, `mask` selecting the lower block of each pair. */
  function Exchange(v: bv64, s: bv7, mask: bv64): bv64
    requires s <= 64
  {
    ((v >> s) & mask) | ((v << s) & !mask)
  }

  lemma Next(j: nat)
    requires j < 6
    ensures Block(j + 1) == Block(j) >> 1 && Block(j + 1) != 0
    ensures Narrow(Mask(j), Block(j + 1)) == Mask(j + 1)
    ensures Block(0) == 64 && Block(6) >> 1 == 0 && Mask(0) == ALL_ONES
  {
  }

  /** The first `j` stages. */
  function Stages(j: nat, v: bv64): bv64
    requires j <= 6
  {
    if j == 0 then v else Exchange(Stages(j - 1, v), Block(j), Mask(j))
  }

  function Rev(v: bv64): bv64 {
    Stages(6, v)
  }

  /** Reverse the bits of a word. */
  method ReverseBits(v0: bv64) returns (v: bv64)
    ensures v == Rev(v0)
  {
    hide Mask, Block, Narrow, Exchange;
    v := v0;
    var s: bv7 := 64;
    var mask := ALL_ONES;
    ghost var j := 0;
    Next(0);
    s := s >> 1;
    while s != 0
      invariant 0 <= j <= 6
      invariant if j < 6 then s == Block(j + 1) && s != 0 else s == 0
      invariant mask == Mask(j)
      invariant v == Stages(j, v0)
      decreases 6 - j
    {
      Next(j);
      mask := Narrow(mask, s);
      v := Exchange(v, s, mask);
      s := s >> 1;
      j := j + 1;
      if j < 6 { Next(j); }
    }
  }

  // ---------------------------------------------------------------- what the network computes

  /** The six stages written out. */
  function Flat(v: bv64): bv64 {
    var v := Exchange(v, 32, Mask(1));
    var v := Exchange(v, 16, Mask(2));
    var v := Exchange(v, 8, Mask(3));
    var v := Exchange(v, 4, Mask(4));
    var v := Exchange(v, 2, Mask(5));
    Exchange(v, 1, Mask(6))
  }

  lemma RevIsFlat(v: bv64)
    ensures Rev(v) == Flat(v)
  {
    hide Exchange, Mask;
    assert Stages(0, v) == v;
    assert Stages(1, v) == Exchange(v, 32, Mask(1));
    assert Stages(2, v) == Exchange(Stages(1, v), 16, Mask(2));
    assert Stages(3, v) == Exchange(Stages(2, v), 8, Mask(3));
    assert Stages(4, v) == Exchange(Stages(3, v), 4, Mask(4));
    assert Stages(5, v) == Exchange(Stages(4, v), 2, Mask(5));
    assert Stages(6, v) == Exchange(Stages(5, v), 1, Mask(6));
  }

  lemma FlatInverse(v: bv64)
    ensures Flat(Flat(v)) == v
  {
  }

  lemma FlatHalf(v: bv64)
    ensures SameButTop(Flat(v), Half(Flat(Half(v))))
    ensures !Odd(Flat(Half(v)))
  {
  }

  lemma FlatTop(v: bv64)
    ensures (And(Flat(v), TOP) != 0) == Odd(v)
    ensures Flat(0) == 0
  {
  }

  lemma LowUnfold(n: nat, x: bv64)
    requires n > 0
    ensures Low(n, x) == 2 * Low(n - 1, Half(x)) + Bit(x)
    ensures Low(n, x) / 2 == Low(n - 1, Half(x)) && Low(n, x) % 2 == Bit(x)
    ensures Pow2(n) == 2 * Pow2(n - 1)
    ensures Bit(x) == if Odd(x) then 1 else 0
  {
    hide Half, Odd;
  }

  /** One more low bit of `v` is one more high bit of its reversal. */
  lemma FlatStep(v: bv64)
    ensures 2 * Low(64, Flat(v)) == Low(64, Flat(Half(v))) + Bit(v) * Pow2(64)
  {
    hide *;
    var y, z := Flat(v), Flat(Half(v));
    FlatHalf(v);
    LowUnfold(64, z);
    LowUnfold(64, v);
    LowButTop(63, y, Half(z));
    TopBit(v);
    LowTop(63, y);
  }

  lemma TopBit(v: bv64)
    ensures Bit(Halves(63, Flat(v))) == Bit(v)
  {
    hide *;
    FlatTop(v);
    TopIsOneHot();
    TestBit(63, Flat(v), TOP);
    LowUnfold(1, v);
    LowUnfold(1, Halves(63, Flat(v)));
  }

  lemma MirrorUnfold(n: nat, a: nat)
    ensures Mirror(0, a) == 0 && Pow2(0) == 1
    ensures n > 0 ==> Mirror(n, a) == (a % 2) * Pow2(n - 1) + Mirror(n - 1, a / 2)
  {
  }

  lemma ExactlyHalf(n: nat, c: bv64, v: bv64)
    requires Exactly(n, c) && Within(v, c)
    ensures n == 0 ==> v == 0
    ensures n > 0 ==> Exactly(n - 1, Half(c)) && Within(Half(v), Half(c))
  {
    WithinHalf(v, c);
  }

  lemma MirrorBase()
    ensures Low(64, Flat(0)) == 0
  {
    hide Flat, Low;
    FlatTop(0);
    LowZero(64);
  }

  lemma {:induction false} MirrorWithin(n: nat, c: bv64, v: bv64)
    requires n <= 64 && Exactly(n, c) && Within(v, c)
    ensures Low(64, Flat(v)) == Mirror(n, Low(n, v)) * Pow2(64 - n)
  {
    hide *;
    ExactlyHalf(n, c, v);
    MirrorUnfold(n, Low(n, v));
    if n == 0 {
      MirrorBase();
    } else {
      MirrorWithin(n - 1, Half(c), Half(v));
      FlatStep(v);
      LowUnfold(n, v);
      LowUnfold(65 - n, v);
      PowAdd(64 - n, n);
      MirrorScale(Bit(v), Pow2(n - 1), Mirror(n - 1, Low(n - 1, Half(v))), Pow2(64 - n));
    }
  }

  lemma MirrorScale(b: nat, q: nat, m: nat, p: nat)
    ensures 2 * ((b * q + m) * p) == m * (2 * p) + b * (p * (2 * q))
  {
  }

  lemma WithinAll(v: bv64)
    ensures Within(v, ALL_ONES)
  {
  }

  /** The network reverses the binary digits of the number. */
  lemma RevIsMirror(v: bv64)
    ensures Val(Rev(v)) == Mirror(64, Val(v))
  {
    hide Flat, Rev, Low, Mirror, Pow2, Within, Exactly;
    AllOnes();
    WithinAll(v);
    RevIsFlat(v);
    MirrorWithin(64, ALL_ONES, v);
    MirrorUnfold(0, 0);
  }
}
