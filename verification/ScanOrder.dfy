/** The order in which the scan cursor of src/hash/dict.c visits hashes.

    A cursor counts upwards on the reversal of its bits, so the place of a word in the scan is
    the number its reversed bits denote.  A table of 2^k buckets cuts the places into 2^k equal
    blocks, one for each bucket. */
module ScanOrder {
  import opened Words
  import opened BitReversal

  /** The place of a hash or a cursor in the scan. */
  function Place(v: bv64): (p: nat)
    ensures p < Pow2(64)
  {
    Mirror(64, Val(v))
  }

  /** How many places share one bucket of a table of 2^k buckets. */
  function BlockSize(k: nat): (b: nat)
    requires k <= 64
    ensures b > 0
  {
    Pow2(64 - k)
  }

  // ---------------------------------------------------------------- digits of a reversal

  /** `a` without its `k` lowest digits. */
  function Drop(k: nat, a: nat): nat {
    if k == 0 then a else Drop(k - 1, a / 2)
  }

  lemma {:induction false} DropIsDiv(k: nat, a: nat)
    ensures Drop(k, a) == a / Pow2(k)
  {
    if k > 0 {
      DropIsDiv(k - 1, a / 2);
      DoubleMod(a / 2, a % 2, Pow2(k - 1));
    }
  }

  /** A reversal starts with the reversal of the `k` lowest digits and ends with that of the rest. */
  lemma {:induction false} MirrorSplit(n: nat, k: nat, a: nat)
    requires k <= n
    ensures Mirror(n, a) == Mirror(k, a) * Pow2(n - k) + Mirror(n - k, Drop(k, a))
  {
    if k > 0 {
      MirrorSplit(n - 1, k - 1, a / 2);
      PowAdd(k - 1, n - k);
      FirstDigit(a % 2, Pow2(k - 1), Mirror(k - 1, a / 2), Pow2(n - k), Mirror(n - k, Drop(k, a)));
    }
  }

  lemma FirstDigit(b: nat, q: nat, m: nat, p: nat, r: nat)
    ensures b * (q * p) + (m * p + r) == (b * q + m) * p + r
  {
  }

  lemma MirrorParts(n: nat, k: nat, a: nat)
    requires k <= n
    ensures Mirror(n, a) / Pow2(n - k) == Mirror(k, a)
    ensures Mirror(n, a) % Pow2(n - k) == Mirror(n - k, Drop(k, a))
  {
    MirrorSplit(n, k, a);
    DivUnique(Mirror(n, a), Mirror(k, a), Mirror(n - k, Drop(k, a)), Pow2(n - k));
  }

  /** Reversals of `k` digits agree exactly when the digits do. */
  lemma {:induction false} MirrorInjective(k: nat, a: nat, b: nat)
    ensures Mirror(k, a) == Mirror(k, b) <==> a % Pow2(k) == b % Pow2(k)
  {
    if k == 0 {
    } else {
      MirrorInjective(k - 1, a / 2, b / 2);
      DoubleMod(a / 2, a % 2, Pow2(k - 1));
      DoubleMod(b / 2, b % 2, Pow2(k - 1));
      DigitSplit(a % 2, Mirror(k - 1, a / 2), b % 2, Mirror(k - 1, b / 2), Pow2(k - 1));
      assert a == 2 * (a / 2) + a % 2 && b == 2 * (b / 2) + b % 2;
    }
  }

  lemma DigitSplit(x: nat, r: nat, y: nat, s: nat, p: nat)
    requires x < 2 && y < 2 && r < p && s < p
    ensures x * p + r == y * p + s <==> x == y && r == s
  {
  }

  lemma {:induction false} MirrorOnes(n: nat)
    ensures Mirror(n, Pow2(n) - 1) == Pow2(n) - 1
  {
    if n > 0 {
      assert (Pow2(n) - 1) / 2 == Pow2(n - 1) - 1;
      MirrorOnes(n - 1);
    }
  }

  // ---------------------------------------------------------------- buckets and blocks

  /** `m` is the mask of a table of 2^k buckets. */
  predicate IsMask(m: bv64, k: nat) {
    k <= 64 && Val(m) == Pow2(k) - 1
  }

  /** The bucket a masked hash selects. */
  function Bucket(h: bv64, m: bv64): nat {
    Val(h & m)
  }

  lemma BucketIsRest(h: bv64, m: bv64, k: nat)
    requires IsMask(m, k)
    ensures Bucket(h, m) == Val(h) % Pow2(k) < Pow2(k)
  {
    LowAnd(64, h, m, k);
  }

  /** Hashes share a bucket exactly when their places share a block. */
  lemma SameBucketSameBlock(h: bv64, v: bv64, m: bv64, k: nat)
    requires IsMask(m, k)
    ensures Bucket(h, m) == Bucket(v, m) <==> Place(h) / BlockSize(k) == Place(v) / BlockSize(k)
  {
    hide Mirror, Val, Bucket, Drop, Pow2;
    BucketIsRest(h, m, k);
    BucketIsRest(v, m, k);
    MirrorParts(64, k, Val(h));
    MirrorParts(64, k, Val(v));
    MirrorInjective(k, Val(h), Val(v));
  }

  // ---------------------------------------------------------------- the next cursor

  /** Set the unmasked bits, reverse, increment, reverse. */
  function NextCursor(v: bv64, m: bv64): bv64 {
    Rev(Rev(v | !m) + 1)
  }

  lemma PlaceOfRev(w: bv64)
    ensures Place(Rev(w)) == Val(w)
    ensures Place(w) == Val(Rev(w))
  {
    hide Flat, Rev, Mirror, Low, Exchange;
    RevIsMirror(w);
    RevIsMirror(Rev(w));
    RevIsFlat(w);
    RevIsFlat(Rev(w));
    FlatInverse(w);
  }

  lemma FillBits(v: bv64, m: bv64)
    ensures v | !m == Or(And(v, m), Not(m))
    ensures Disjoint(And(v, m), Not(m))
  {
  }

  lemma FilledValue(v: bv64, m: bv64, k: nat)
    requires IsMask(m, k)
    ensures Val(v | !m) == Val(v) % Pow2(k) + (Pow2(64 - k) - 1) * Pow2(k)
  {
    FillBits(v, m);
    FilledSum(v, m, k);
    assert Val(And(v, m)) + Val(Not(m)) == Val(v) % Pow2(k) + (Pow2(64 - k) - 1) * Pow2(k);
  }

  lemma FilledSum(v: bv64, m: bv64, k: nat)
    requires IsMask(m, k) && Disjoint(And(v, m), Not(m))
    ensures Val(Or(And(v, m), Not(m))) == Val(And(v, m)) + Val(Not(m))
    ensures Val(And(v, m)) == Val(v) % Pow2(k)
    ensures Val(Not(m)) == (Pow2(64 - k) - 1) * Pow2(k)
  {
    hide And, Or, Not, Low, Disjoint;
    LowOr(64, And(v, m), Not(m));
    LowAnd(64, v, m, k);
    LowNot(64, m);
    PowAdd(64 - k, k);
    OneLess(Pow2(64 - k), Pow2(k));
  }

  lemma OneLess(x: nat, y: nat)
    requires x > 0
    ensures (x - 1) * y == x * y - y
  {
  }

  /** The filled cursor is the last place of its block. */
  lemma FilledPlace(v: bv64, m: bv64, k: nat)
    requires IsMask(m, k)
    ensures Place(v | !m) == (Place(v) / BlockSize(k)) * BlockSize(k) + BlockSize(k) - 1
  {
    hide Mirror, Val, Pow2;
    FilledValue(v, m, k);
    FilledMirror(Val(v), Val(v | !m), k);
  }

  /** The same about numbers: the `k` lowest digits stay, the others become ones. */
  lemma FilledMirror(a: nat, u: nat, k: nat)
    requires k <= 64 && u == a % Pow2(k) + (Pow2(64 - k) - 1) * Pow2(k)
    ensures Mirror(64, u) == (Mirror(64, a) / BlockSize(k)) * BlockSize(k) + BlockSize(k) - 1
  {
    hide Mirror, Drop, Pow2;
    var p := Pow2(k);
    DivUnique(u, BlockSize(k) - 1, a % p, p);
    DropIsDiv(k, u);
    MirrorSplit(64, k, u);
    MirrorOnes(64 - k);
    MirrorInjective(k, a, u);
    MirrorParts(64, k, a);
  }

  /** The first place after the block that holds place `p`. */
  function BlockEnd(p: nat, k: nat): (e: nat)
    requires k <= 64
  {
    (p / BlockSize(k) + 1) * BlockSize(k)
  }

  lemma DivBound(p: nat, b: nat, n: nat)
    requires b > 0 && p < n * b
    ensures p < (p / b + 1) * b <= n * b && p / b < n
  {
    var q, r := p / b, p % b;
    assert p == q * b + r && r < b;
    assert (q + 1) * b == q * b + b;
    if q >= n {
      if q > n { MulGap(n, q, b); }
    } else if q + 1 < n {
      MulGap(q + 1, n, b);
    }
  }

  lemma BlockBounds(p: nat, k: nat)
    requires k <= 64 && p < Pow2(64)
    ensures p < BlockEnd(p, k) <= Pow2(64)
  {
    PowAdd(k, 64 - k);
    DivBound(p, BlockSize(k), Pow2(k));
  }

  lemma FilledBefore(v: bv64, m: bv64, k: nat)
    requires IsMask(m, k)
    ensures k <= 64 && Place(v | !m) + 1 == BlockEnd(Place(v), k) <= Pow2(64)
  {
    hide Place, Pow2;
    FilledPlace(v, m, k);
    BlockBounds(Place(v), k);
  }

  lemma PlaceAfter(w: bv64)
    ensures Place(Rev(Rev(w) + 1)) == Wrap(Place(w) + 1, Pow2(64))
  {
    hide Mirror, Low, Rev, Pow2;
    PlaceOfRev(w);
    PlaceOfRev(Rev(w) + 1);
    LowSucc(64, Rev(w));
  }

  /** The next cursor stands at the start of the next block, or back at zero after the last. */
  lemma NextPlace(v: bv64, m: bv64, k: nat)
    requires IsMask(m, k)
    ensures Place(v) < BlockEnd(Place(v), k) <= Pow2(64)
    ensures Place(NextCursor(v, m)) == Wrap(BlockEnd(Place(v), k), Pow2(64))
  {
    hide Place, Rev, Pow2, BlockEnd;
    FilledBefore(v, m, k);
    BlockBounds(Place(v), k);
    PlaceAfter(v | !m);
  }

  // ---------------------------------------------------------------- the end of the inner loop

  /** `v` without the bits of `m`. */
  function Clear(v: bv64, m: bv64): bv64 { v & !m }

  lemma CutBits(v: bv64, m: bv64)
    ensures v == Or(And(v, m), Clear(v, m)) && Disjoint(And(v, m), Clear(v, m))
  {
  }

  lemma CutValue(v: bv64, m: bv64, k: nat)
    requires IsMask(m, k)
    ensures Val(Clear(v, m)) == Val(v) - Val(v) % Pow2(k)
  {
    hide And, Or, Clear, Low, Disjoint, Pow2;
    CutBits(v, m);
    LowOr(64, And(v, m), Clear(v, m));
    LowAnd(64, v, m, k);
  }

  /** A smaller mask has no bit outside a larger one. */
  lemma MasksNest(m0: bv64, m1: bv64, j: nat, k: nat)
    requires IsMask(m0, j) && IsMask(m1, k) && j <= k
    ensures Clear(m0, m1) == 0
  {
    hide Clear, Low, Pow2;
    CutValue(m0, m1, k);
    PowMono(j, k);
    SmallRest(Val(m0), k);
    ZeroIff(Clear(m0, m1));
  }

  lemma NestedDiff(v: bv64, m0: bv64, m1: bv64)
    requires Clear(m0, m1) == 0
    ensures v & (m0 ^ m1) == Clear(And(v, m1), m0)
  {
  }

  /** The loop over the larger table goes on while the cursor is inside the smaller block. */
  lemma LoopTest(v: bv64, m0: bv64, m1: bv64, j: nat, k: nat)
    requires IsMask(m0, j) && IsMask(m1, k) && j <= k
    requires Place(v) % BlockSize(k) == 0
    ensures v & (m0 ^ m1) == 0 <==> Place(v) % BlockSize(j) == 0
  {
    hide Clear, Low, And, Mirror, Drop;
    MasksNest(m0, m1, j, k);
    NestedDiff(v, m0, m1);
    LowAnd(64, v, m1, k);
    ShortCursor(v, k);
    CutValue(And(v, m1), m0, j);
    ZeroIff(Clear(And(v, m1), m0));
    ShortCursor(v, j);
    SmallRest(Val(v), j);
  }

  lemma SmallRest(a: nat, k: nat)
    ensures a % Pow2(k) == a <==> a < Pow2(k)
  {
    if a < Pow2(k) { DivUnique(a, 0, a, Pow2(k)); }
  }

  lemma {:induction false} MirrorZero(n: nat, a: nat)
    ensures Mirror(n, a) == 0 <==> a % Pow2(n) == 0
    ensures Mirror(n, 0) == 0
  {
    if n > 0 { MirrorZero(n - 1, 0); }
    MirrorInjective(n, a, 0);
    DivUnique(0, 0, 0, Pow2(n));
  }

  /** A cursor at the start of a block has no bit beyond the mask. */
  lemma ShortCursor(v: bv64, k: nat)
    requires k <= 64
    ensures Place(v) % BlockSize(k) == 0 <==> Val(v) < Pow2(k)
    ensures Val(v) < Pow2(k) ==> Val(v) % Pow2(k) == Val(v)
  {
    hide Low, Mirror, Drop;
    var a, q := Val(v), Drop(k, Val(v));
    MirrorParts(64, k, a);
    MirrorZero(64 - k, q);
    DropIsDiv(k, a);
    PowAdd(64 - k, k);
    DivBound(a, Pow2(k), Pow2(64 - k));
    SmallQuotient(a, Pow2(k), Pow2(64 - k));
    SmallRest(a, k);
  }

  lemma SmallQuotient(a: nat, p: nat, n: nat)
    requires p > 0 && a < n * p
    ensures a / p < n
    ensures (a / p) % n == 0 <==> a < p
  {
    var q, r := a / p, a % p;
    assert a == q * p + r && r < p;
    DivBound(a, p, n);
    DivUnique(q, 0, q, n);
    if q > 0 { MulAtLeast(q, 1, p); }
  }
}
