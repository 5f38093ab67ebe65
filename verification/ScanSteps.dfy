/** What one call of the scan emits, and why a whole scan misses nothing. */
module ScanSteps {
  import opened Options
  import opened Words
  import opened ScanOrder
  import opened Buckets

  ghost predicate In<K, V>(b: seq<Chain<K, V>>, e: Entry<K, V>) {
    exists i :: 0 <= i < |b| && e in b[i]
  }

  /** Places `p` and `q` fall in the same block of a table of 2^k buckets. */
  predicate InBlock(p: nat, q: nat, k: nat)
    requires k <= 64
  {
    p / BlockSize(k) == q / BlockSize(k)
  }

  /** The multiple of `b` at or below `p`. */
  function StartOf(p: nat, b: nat): nat
    requires b > 0
  {
    var x: nat := p / b;
    Product(x, b);
    x * b
  }

  lemma Product(x: nat, b: nat)
    ensures x * b >= 0
  {
  }

  function BlockStart(p: nat, k: nat): nat
    requires k <= 64
  {
    StartOf(p, BlockSize(k))
  }

  ghost predicate Sized<K, V>(b: seq<Chain<K, V>>) {
    b == [] || (PowerOfTwo(|b|) && Log2(|b|) <= 63)
  }

  /** The masked hash is the bucket where a key is at home. */
  lemma MaskedIsHome(h: bv64, m: bv64, size: nat)
    requires PowerOfTwo(size) && Log2(size) <= 63 && Val(m) == size - 1
    ensures IsMask(m, Log2(size))
    ensures Bucket(h, m) == Home(h, size)
  {
    hide Val;
    BucketIsRest(h, m, Log2(size));
  }

  lemma InAtHome<K, V>(b: seq<Chain<K, V>>, hash: K -> bv64, e: Entry<K, V>)
    requires b != [] && Placed(b, hash)
    ensures In(b, e) <==> e in b[Home(hash(e.key), |b|)]
  {
    hide Home, Chained;
    if In(b, e) {
      var i :| 0 <= i < |b| && e in b[i];
      var p :| 0 <= p < |b[i]| && b[i][p] == e;
      LookupAt(b[i], hash, |b|, i, p);
    }
  }

  lemma AtHomeIn<K, V>(b: seq<Chain<K, V>>, hash: K -> bv64, i: nat, e: Entry<K, V>)
    requires Placed(b, hash) && i < |b| && e in b[i]
    ensures Home(hash(e.key), |b|) == i
  {
    hide Home, Chained;
    var p :| 0 <= p < |b[i]| && b[i][p] == e;
    LookupAt(b[i], hash, |b|, i, p);
  }

  lemma InIsFound<K, V>(b: seq<Chain<K, V>>, hash: K -> bv64, e: Entry<K, V>)
    requires b != [] && Placed(b, hash) && In(b, e)
    ensures Get(b, hash, e.key) == Some(e.val)
  {
    hide Home, Chained;
    InAtHome(b, hash, e);
    var i := Home(hash(e.key), |b|);
    var p :| 0 <= p < |b[i]| && b[i][p] == e;
    LookupAt(b[i], hash, |b|, i, p);
  }

  /** The bucket under the cursor holds the entries whose places share the block of the cursor. */
  lemma BucketIsBlock<K, V>(b: seq<Chain<K, V>>, hash: K -> bv64, m: bv64, v: bv64)
    requires b != [] && Sized(b) && Placed(b, hash) && Val(m) == |b| - 1
    ensures Bucket(v, m) < |b|
    ensures forall e :: e in b[Bucket(v, m)] <==>
                        In(b, e) && InBlock(Place(hash(e.key)), Place(v), Log2(|b|))
  {
    hide Place, Val, BlockSize, Chained, Home, Bucket, Placed, PowerOfTwo, In;
    MaskedIsHome(v, m, |b|);
    forall e
      ensures e in b[Bucket(v, m)] <==> In(b, e) && InBlock(Place(hash(e.key)), Place(v), Log2(|b|))
    {
      var h := hash(e.key);
      MaskedIsHome(h, m, |b|);
      SameBucketSameBlock(h, v, m, Log2(|b|));
      InAtHome(b, hash, e);
      if e in b[Bucket(v, m)] { AtHomeIn(b, hash, Bucket(v, m), e); }
    }
  }

  /** One call of the scan on the two bucket arrays (the second is empty outside a rehash).

      Outside a rehash it emits the block of the cursor.  During a rehash it emits the block of
      the cursor in the smaller table, and from the larger table everything from the start of the
      cursor's own block to the end of the block in the smaller table.  The next cursor stands at
      the end of that block, or at zero when the scan is over. */
  ghost predicate ScanStep<K(!new), V(!new)>(b0: seq<Chain<K, V>>, b1: seq<Chain<K, V>>, hash: K -> bv64,
                                             v: bv64, emitted: seq<Entry<K, V>>, next: bv64)
    requires Sized(b0) && Sized(b1)
  {
    if Total(b0) + Total(b1) == 0 then
      emitted == [] && next == 0
    else if b1 == [] then
      && (forall e :: e in emitted <==> In(b0, e) && InBlock(Place(hash(e.key)), Place(v), Log2(|b0|)))
      && Advanced(v, next, Log2(|b0|))
    else if |b0| > |b1| then
      BothStep(b1, b0, hash, v, emitted, next)
    else
      BothStep(b0, b1, hash, v, emitted, next)
  }

  ghost predicate BothStep<K(!new), V(!new)>(small: seq<Chain<K, V>>, large: seq<Chain<K, V>>, hash: K -> bv64,
                                             v: bv64, emitted: seq<Entry<K, V>>, next: bv64)
    requires Sized(small) && Sized(large)
  {
    && (forall e :: e in emitted <==>
          || (In(small, e) && InBlock(Place(hash(e.key)), Place(v), Log2(|small|)))
          || (In(large, e) && BlockStart(Place(v), Log2(|large|)) <= Place(hash(e.key))
              && Place(hash(e.key)) < BlockEnd(Place(v), Log2(|small|))))
    && Advanced(v, next, Log2(|small|))
  }

  predicate Advanced(v: bv64, next: bv64, k: nat)
    requires k <= 64
  {
    var e := BlockEnd(Place(v), k);
    Place(next) == if e == Pow2(64) then 0 else e
  }

  // ---------------------------------------------------------------- blocks inside blocks

  lemma BlockRange(p: nat, q: nat, k: nat)
    requires k <= 64
    ensures InBlock(p, q, k) <==> BlockStart(q, k) <= p < BlockEnd(q, k)
    ensures BlockStart(q, k) <= q < BlockEnd(q, k)
  {
    Range(p, q, BlockSize(k));
  }

  lemma Range(p: nat, q: nat, b: nat)
    requires b > 0
    ensures p / b == q / b <==> (q / b) * b <= p < (q / b + 1) * b
    ensures (q / b) * b <= q < (q / b + 1) * b
  {
    var x, y := p / b, q / b;
    assert p == x * b + p % b && q == y * b + q % b;
    assert (y + 1) * b == y * b + b;
    if x < y { MulAtLeast(y, x + 1, b); assert (x + 1) * b == x * b + b; }
    if y < x { MulAtLeast(x, y + 1, b); }
  }

  /** Small blocks, counted from `p`, fill the large block of `p` exactly. */
  lemma BlockInBlock(p: nat, q: nat, j: nat, k: nat)
    requires j <= k <= 64 && p <= q < BlockEnd(p, j)
    ensures q < BlockEnd(q, k) <= BlockEnd(p, j)
    ensures BlockEnd(q, k) % BlockSize(j) == 0 <==> BlockEnd(q, k) == BlockEnd(p, j)
    ensures BlockEnd(q, k) % BlockSize(k) == 0 && BlockStart(BlockEnd(q, k), k) == BlockEnd(q, k)
  {
    hide Pow2;
    PowAdd(64 - k, k - j);
    Nested(p, q, BlockSize(k), Pow2(k - j));
  }

  lemma Nested(p: nat, q: nat, b: nat, c: nat)
    requires b > 0 && c > 0 && b * c > 0
    requires p <= q < (p / (b * c) + 1) * (b * c)
    ensures var e, f := (q / b + 1) * b, (p / (b * c) + 1) * (b * c);
            q < e <= f && (e % (b * c) == 0 <==> e == f) && e % b == 0 && (e / b) * b == e
  {
    var x, y, d := p / (b * c), q / b, b * c;
    var e, f := (y + 1) * b, (x + 1) * d;
    Range(p, p, d);
    assert f == ((x + 1) * c) * b;
    DivBound(q, b, (x + 1) * c);
    DivUnique(e, y + 1, 0, b);
    DivUnique(f, x + 1, 0, d);
    if e < f {
      DivUnique(e, x, e - x * d, d) by { assert f == x * d + d; }
    }
  }

  // ---------------------------------------------------------------- the loop over the larger table

  /** Emitted so far: the block of `p` in the smaller table, and the larger table from the start
      of its own block of `p` up to the block of `q`. */
  ghost predicate Upto<K(!new), V(!new)>(small: seq<Chain<K, V>>, large: seq<Chain<K, V>>, hash: K -> bv64,
                                         p: nat, q: nat, j: nat, k: nat, emitted: seq<Entry<K, V>>)
    requires j <= 64 && k <= 64
  {
    forall e :: e in emitted <==>
      || (In(small, e) && InBlock(Place(hash(e.key)), p, j))
      || (In(large, e) && BlockStart(p, k) <= Place(hash(e.key)) < BlockStart(q, k))
  }

  lemma UptoStart<K(!new), V(!new)>(small: seq<Chain<K, V>>, large: seq<Chain<K, V>>, hash: K -> bv64,
                                    p: nat, j: nat, k: nat, first: seq<Entry<K, V>>)
    requires j <= 64 && k <= 64
    requires forall e :: e in first <==> In(small, e) && InBlock(Place(hash(e.key)), p, j)
    ensures Upto(small, large, hash, p, p, j, k, first)
  {
    hide In, InBlock, BlockStart, Place;
  }

  lemma UptoNext<K(!new), V(!new)>(small: seq<Chain<K, V>>, large: seq<Chain<K, V>>, hash: K -> bv64,
                                   p: nat, q: nat, j: nat, k: nat,
                                   emitted: seq<Entry<K, V>>, more: seq<Entry<K, V>>)
    requires j <= k <= 64 && p <= q < BlockEnd(p, j)
    requires Upto(small, large, hash, p, q, j, k, emitted)
    requires forall e :: e in more <==> In(large, e) && InBlock(Place(hash(e.key)), q, k)
    ensures Upto(small, large, hash, p, BlockEnd(q, k), j, k, emitted + more)
  {
    hide In, InBlock, BlockStart, BlockEnd, Place;
    BlockInBlock(p, q, j, k);
    StartMono(p, q, k);
    forall e: Entry<K, V>
      ensures e in emitted + more <==>
        || (In(small, e) && InBlock(Place(hash(e.key)), p, j))
        || (In(large, e) && BlockStart(p, k) <= Place(hash(e.key)) < BlockStart(BlockEnd(q, k), k))
    {
      BlockRange(Place(hash(e.key)), q, k);
    }
  }

  lemma UptoDone<K(!new), V(!new)>(small: seq<Chain<K, V>>, large: seq<Chain<K, V>>, hash: K -> bv64,
                                   p: nat, j: nat, k: nat, emitted: seq<Entry<K, V>>)
    requires j <= k <= 64
    requires Upto(small, large, hash, p, BlockEnd(p, j), j, k, emitted)
    ensures forall e :: e in emitted <==>
      || (In(small, e) && InBlock(Place(hash(e.key)), p, j))
      || (In(large, e) && BlockStart(p, k) <= Place(hash(e.key)) < BlockEnd(p, j))
  {
    hide In, InBlock, Place, BlockStart, BlockEnd;
    EndIsStart(p, j, k);
  }

  /** The end of a large block is the start of a small one. */
  lemma EndIsStart(p: nat, j: nat, k: nat)
    requires j <= k <= 64
    ensures BlockStart(BlockEnd(p, j), k) == BlockEnd(p, j)
  {
    hide Pow2;
    PowAdd(64 - k, k - j);
    MultipleIsStart(p / BlockSize(j) + 1, Pow2(k - j), BlockSize(k));
  }

  lemma MultipleIsStart(x: nat, c: nat, b: nat)
    requires b > 0
    ensures x * (b * c) >= 0 && StartOf(x * (b * c), b) == x * (b * c)
  {
    assert x * (b * c) == (x * c) * b + 0;
    DivUnique(x * (b * c), x * c, 0, b);
  }

  lemma StartMono(p: nat, q: nat, k: nat)
    requires p <= q && k <= 64
    ensures BlockStart(p, k) <= BlockStart(q, k)
  {
    hide BlockSize;
    var b := BlockSize(k);
    var x, y := p / b, q / b;
    DivMono(p, q, b);
    MulAtLeast(y, x, b);
  }

  lemma DivMono(p: nat, q: nat, b: nat)
    requires b > 0 && p <= q
    ensures p / b <= q / b
  {
    var x, y := p / b, q / b;
    assert p == x * b + p % b && q == y * b + q % b;
    if x > y { MulGap(y, x, b); }
  }

  /** The test that ends the inner loop. */
  predicate LoopDone(v: bv64, m0: bv64, m1: bv64) {
    v & (m0 ^ m1) == 0
  }

  /** The cursor leaves the inner loop exactly at the end of the smaller table's block. */
  lemma Turn(v: bv64, p: nat, m0: bv64, m1: bv64, j: nat, k: nat)
    requires IsMask(m0, j) && IsMask(m1, k) && j <= k <= 64
    requires p <= Place(v) < BlockEnd(p, j) && p < Pow2(64)
    ensures var e, next := BlockEnd(Place(v), k), NextCursor(v, m1);
            && Place(v) < e <= BlockEnd(p, j)
            && Place(next) == (if e == Pow2(64) then 0 else e)
            && (LoopDone(next, m0, m1) <==> e == BlockEnd(p, j))
  {
    hide Place, BlockEnd, NextCursor, Pow2, IsMask, LoopDone, BlockSize;
    var e := BlockEnd(Place(v), k);
    BlockInBlock(p, Place(v), j, k);
    NextPlace(v, m1, k);
    BlockBounds(p, j);
    WrapAligned(e, j);
    WrapAligned(e, k);
    ExitTest(NextCursor(v, m1), m0, m1, j, k);
  }

  lemma ExitTest(v: bv64, m0: bv64, m1: bv64, j: nat, k: nat)
    requires IsMask(m0, j) && IsMask(m1, k) && j <= k <= 64
    requires Place(v) % BlockSize(k) == 0
    ensures LoopDone(v, m0, m1) <==> Place(v) % BlockSize(j) == 0
  {
    hide Place, BlockSize;
    LoopTest(v, m0, m1, j, k);
  }

  /** Wrapping around keeps a place aligned to blocks. */
  lemma WrapAligned(e: nat, k: nat)
    requires k <= 64
    ensures (if e == Pow2(64) then 0 else e) % BlockSize(k) == 0 <==> e % BlockSize(k) == 0
  {
    PowAdd(k, 64 - k);
    DivUnique(Pow2(64), Pow2(k), 0, BlockSize(k));
    DivUnique(0, 0, 0, BlockSize(k));
  }
}
