/** The chained hash table with incremental rehashing of src/hash/dict.c.

    A dictionary owns two bucket arrays.  Outside a rehash the second one is missing; during a
    rehash the buckets of the first move to the second, one by one.  The ghost field `M` is the
    map the dictionary stands for. */
module Dict {
  import opened Options
  import opened Words
  import opened BitReversal
  import opened ScanOrder
  import opened Buckets
  import opened ScanSteps
  import opened ScanRuns

  const DICT_HT_INITIAL_SIZE := 4
  const DICT_FORCE_RESIZE_RATIO := 5
  const ULONG_RANGE: nat := 0x1_0000_0000_0000_0000

  /** A `dictht`.  `table` is null before the first allocation. */
  datatype Table<K, V> = Table(table: array?<Chain<K, V>>, size: nat, sizemask: bv64, used: nat)

  /** A position in a chain: table 0 or 1, bucket, and index in the chain. */
  datatype Ref = Ref(second: bool, bucket: nat, index: nat)

  /** Position of the first entry with this key, or the length of the chain. */
  method Search<K(==), V>(c: Chain<K, V>, key: K) returns (p: nat)
    ensures p <= |c|
    ensures p < |c| ==> c[p].key == key
    ensures p < |c| <==> Lookup(c, key).Some?
    ensures p < |c| ==> Lookup(c, key) == Some(c[p].val)
  {
    p := 0;
    while p < |c|
      invariant p <= |c|
      invariant Lookup(c, key) == Lookup(c[p..], key)
    {
      if c[p].key == key { return; }
      assert c[p..][1..] == c[p + 1..];
      p := p + 1;
    }
  }

  /** `r` is the capacity chosen for `size`: the smallest power of two, from 4 on, that is at
      least `size`, and 2^63 for the largest sizes. */
  ghost predicate Rounded(size: nat, r: nat) {
    && PowerOfTwo(r) && 4 <= r <= LONG_MAX + 1
    && if size >= LONG_MAX then r == LONG_MAX + 1
       else size <= r && (r == DICT_HT_INITIAL_SIZE || r / 2 < size)
  }

  lemma InitialSize()
    ensures !Rounded(DICT_HT_INITIAL_SIZE, 0)
  {
  }

  lemma DoubleIsLarger(used: nat, size: nat)
    requires 0 < size <= used <= LONG_MAX
    ensures used * 2 % ULONG_RANGE == 2 * used && !Rounded(2 * used, size)
  {
  }

  lemma RoundedUnique(size: nat, r: nat, s: nat)
    requires Rounded(size, r) && Rounded(size, s)
    ensures r == s
  {
    if r < s { Doubling(r, s); } else if s < r { Doubling(s, r); }
  }

  lemma Doubling(r: nat, s: nat)
    requires PowerOfTwo(r) && PowerOfTwo(s) && r < s
    ensures r <= s / 2
  {
    var j, k := Log2(r), Log2(s);
    if j >= k {
      PowMono(k, j);
    } else {
      PowMono(j + 1, k);
    }
  }

  method NextPower(size: nat) returns (i: nat)
    requires size < ULONG_RANGE
    ensures Rounded(size, i)
  {
    PowersOfTwo(63);
    Pow63();
    i := DICT_HT_INITIAL_SIZE;
    if size >= LONG_MAX { return LONG_MAX + 1; }
    ghost var k := 2;
    while i < size
      invariant i == Pow2(k) && 2 <= k <= 63
      invariant i == DICT_HT_INITIAL_SIZE || i / 2 < size
      decreases size - i
    {
      i := i * 2;
      k := k + 1;
    }
    PowersOfTwo(k);
    PowMono(2, k);
    PowMono(k, 63);
  }

  /** The masked hash is the bucket where a key is at home. */
  lemma BucketIsHome(h: bv64, mask: bv64, size: nat)
    requires PowerOfTwo(size) && 4 <= size <= LONG_MAX + 1 && Val(mask) == size - 1
    ensures Log2(size) <= 63 && IsMask(mask, Log2(size))
    ensures Bucket(h, mask) == Home(h, size)
  {
    hide Val;
    Pow63();
    if Log2(size) > 63 { PowMono(64, Log2(size)); }
    MaskedIsHome(h, mask, size);
  }

  /** Set the unmasked bits of the cursor, then increment it with its bits reversed: the cursor moves to
      the start of the next block of the table with this mask, or back to zero after the last. */
  method Advance(v0: bv64, m: bv64, ghost k: nat) returns (v: bv64)
    requires IsMask(m, k)
    ensures v == NextCursor(v0, m) && BlockEnd(Place(v0), k) <= Pow2(64)
    ensures Place(v) == Wrap(BlockEnd(Place(v0), k), Pow2(64))
  {
    hide Rev, Place, Pow2, BlockEnd, Wrap, Val;
    NextPlace(v0, m, k);
    v := v0 | !m;
    v := ReverseBits(v);
    v := v + 1;
    v := ReverseBits(v);
  }

  /** One turn of the loop that moves a chain, of which `de` is left. */
  lemma MoveStep<K(!new), V>(b0: seq<Chain<K, V>>, b1: seq<Chain<K, V>>, hash: K -> bv64, m: map<K, V>,
                             i: nat, de: Chain<K, V>, mask: bv64)
    requires i < |b0| && de != [] && Represents(b0[i := de], b1, hash, m)
    requires PowerOfTwo(|b1|) && 4 <= |b1| <= LONG_MAX + 1 && Val(mask) == |b1| - 1
    ensures var h := Bucket(hash(de[0].key), mask);
            && h < |b1|
            && Represents(b0[i := de[1..]], b1[h := [de[0]] + b1[h]], hash, m)
            && Total(b0[i := de[1..]]) == Total(b0[i := de]) - 1
            && Total(b1[h := [de[0]] + b1[h]]) == Total(b1) + 1
  {
    hide Represents, PowerOfTwo, Total, Val, Bucket;
    var b, h := b0[i := de], Bucket(hash(de[0].key), mask);
    BucketIsHome(hash(de[0].key), mask, |b1|);
    Moved(b, b1, hash, m, i);
    TotalUpdate(b, i, de[1..]);
    TotalUpdate(b1, h, [de[0]] + b1[h]);
    assert b[i := de[1..]] == b0[i := de[1..]];
  }

  lemma CountsStart<K, V>(b: seq<Chain<K, V>>, i: nat)
    requires i <= |b|
    ensures Fulls(b, i, i) == 0 && Voids(b, i, i) == 0
  {
  }

  /** From `j` to `k` all buckets are empty, but for the last one if `full`. */
  ghost predicate RunOrFull<K, V>(b: seq<Chain<K, V>>, j: int, k: int, full: bool) {
    && 0 <= j < k <= |b| && (forall m | j <= m < k - 1 :: b[m] == []) && (b[k - 1] != [] <==> full)
  }

  /** How the loop of a rehash ends: out of visits to empty buckets, out of steps, or without chains. */
  ghost predicate Looped<K, V>(b: seq<Chain<K, V>>, i: int, j: int, n: nat, spent: bool, empty: bool) {
    && 0 <= i <= j <= |b|
    && if spent then n > 0 && i < j && b[j - 1] == [] && Fulls(b, i, j) < n && Voids(b, i, j) == 10 * n
       else
         && Fulls(b, i, j) <= n && Voids(b, i, j) <= 10 * n && (n > 0 ==> Voids(b, i, j) < 10 * n)
         && (!empty ==> Fulls(b, i, j) == n && (n > 0 ==> i < j && b[j - 1] != []))
  }

  lemma LoopEnds<K, V>(b: seq<Chain<K, V>>, i: nat, j: nat, n: nat, spent: bool, empty: bool)
    requires i <= j <= |b| && Fulls(b, i, j) <= n && Voids(b, i, j) <= 10 * n
    requires if spent then i < j && n > 0 && b[j - 1] == [] && Fulls(b, i, j) < n && Voids(b, i, j) == 10 * n
             else n > 0 ==> Voids(b, i, j) < 10 * n && (empty || (Fulls(b, i, j) == n && i < j && b[j - 1] != []))
    ensures Looped(b, i, j, n, spent, empty)
  {
    hide Fulls, Voids;
  }

  lemma MoreLeft<K, V>(b: seq<Chain<K, V>>, i: int, j: int, n: nat, spent: bool, empty: bool)
    requires Looped(b, i, j, n, spent, empty) && !empty && exists m :: j <= m < |b| && b[m] != []
    ensures Stepped(b, i, n, true, j) && (n > 0 ==> i < j) && j <= i + 11 * n
  {
    hide Fulls, Voids;
    FullOrVoid(b, i, j);
  }

  lemma NoneLeft<K, V>(b: seq<Chain<K, V>>, i: int, j: int, n: nat)
    requires Looped(b, i, j, n, false, true) && forall m | j <= m < |b| :: b[m] == []
    ensures forall idx :: Stepped(b, i, n, false, idx)
  {
    hide Fulls, Voids;
    assert Progress(b, i, j, n, false);
  }

  lemma RunThenFull<K, V>(b: seq<Chain<K, V>>, i: nat, j: nat, k: nat, full: bool)
    requires i <= j && RunOrFull(b, j, k, full)
    ensures Fulls(b, i, k) == Fulls(b, i, j) + (if full then 1 else 0)
    ensures Voids(b, i, k) == Voids(b, i, j) + k - j - (if full then 1 else 0)
  {
    VoidsRun(b, i, j, k - 1);
  }

  lemma HeadIsIn<K, V>(b: seq<Chain<K, V>>, i: nat, e: Entry<K, V>)
    requires i < |b|
    ensures In(b[i := [e] + b[i]], e)
  {
    assert e in b[i := [e] + b[i]][i];
  }

  class Dict<K(==, !new), V(!new)> {
    const hash: K -> bv64
    var ht0: Table<K, V>
    var ht1: Table<K, V>
    var rehashidx: int
    var iterators: nat
    ghost var M: map<K, V>

    predicate IsRehashing()
      reads this
    {
      rehashidx != -1
    }

    ghost function Repr(): set<object>
      reads this
    {
      {this} + (if ht0.table == null then {} else {ht0.table}) + (if ht1.table == null then {} else {ht1.table})
    }

    static ghost function View(t: Table<K, V>): seq<Chain<K, V>>
      reads t.table
    {
      if t.table == null then [] else t.table[..]
    }

    static ghost predicate TableOk(t: Table<K, V>)
      reads t.table
    {
      if t.table == null then
        t.size == 0 && t.used == 0 && t.sizemask == 0
      else
        && t.table.Length == t.size && 4 <= t.size <= LONG_MAX + 1
        && PowerOfTwo(t.size) && Val(t.sizemask) == t.size - 1
        && t.used == Total(t.table[..])
    }

    ghost predicate Valid()
      reads this, Repr()
    {
      && TableOk(ht0) && TableOk(ht1)
      && (ht0.table != null ==> ht0.table != ht1.table)
      && Represents(View(ht0), View(ht1), hash, M)
      && (if rehashidx == -1 then ht1.table == null else
            && ht0.table != null && ht1.table != null && ht0.size != ht1.size
            && 0 <= rehashidx <= ht0.size
            && forall i | 0 <= i < rehashidx :: View(ht0)[i] == [])
    }

    constructor (hash: K -> bv64)
      ensures Valid() && fresh(Repr()) && M == map[] && this.hash == hash
      ensures !IsRehashing() && iterators == 0
    {
      this.hash := hash;
      ht0 := Table(null, 0, 0, 0);
      ht1 := Table(null, 0, 0, 0);
      rehashidx := -1;
      iterators := 0;
      M := map[];
    }

    /** Allocate an array of empty chains. */
    method NewTable(realsize: nat) returns (n: Table<K, V>)
      requires PowerOfTwo(realsize) && 4 <= realsize <= LONG_MAX + 1
      ensures TableOk(n) && n.table != null && fresh(n.table) && n.size == realsize
      ensures forall i | 0 <= i < realsize :: View(n)[i] == []
    {
      var table := new Chain<K, V>[realsize](_ => []);
      var mask := Word(64, realsize - 1);
      n := Table(table, realsize, mask, 0);
      Pow63();
      LowWord(64, realsize - 1);
      TotalZero(table[..]);
    }

    method Expand(size: nat) returns (ok: bool)
      requires Valid() && size < ULONG_RANGE
      modifies this`ht0, this`ht1, this`rehashidx
      ensures Valid() && fresh(Repr() - old(Repr())) && M == old(M)
      ensures ok <==> !old(IsRehashing()) && old(ht0.used) <= size && !Rounded(size, old(ht0.size))
      ensures if !ok then ht0 == old(ht0) && ht1 == old(ht1) && rehashidx == old(rehashidx)
              else if old(ht0.table) == null then !IsRehashing() && Rounded(size, ht0.size)
              else ht0 == old(ht0) && rehashidx == 0 && Rounded(size, ht1.size)
    {
      hide Represents, PowerOfTwo, Total, Val, Rounded;
      if IsRehashing() || ht0.used > size { return false; }
      var realsize := NextPower(size);
      if Rounded(size, ht0.size) { RoundedUnique(size, realsize, ht0.size); }
      if realsize == ht0.size { return false; }
      var n := NewTable(realsize);
      ghost var b, e := View(ht0), View(n);
      assert View(ht1) == [];
      EmptyArray(b, e, hash, M);
      if ht0.table == null {
        Swapped(b, e, hash, M);
        ht0 := n;
        return true;
      }
      ht1 := n;
      rehashidx := 0;
      return true;
    }

    /** Move the chain of bucket `rehashidx` to the second table and step over the bucket. */
    method MoveBucket()
      requires Valid() && IsRehashing() && rehashidx < ht0.size
      modifies this`ht0, this`ht1, this`rehashidx, Repr() - {this}
      ensures Valid() && M == old(M) && Repr() == old(Repr())
      ensures IsRehashing() && rehashidx == old(rehashidx) + 1
      ensures ht0.size == old(ht0.size) && ht1.size == old(ht1.size)
      ensures View(ht0) == old(View(ht0))[old(rehashidx) := []]
      ensures ht0.table == old(ht0.table) && ht1.table == old(ht1.table)
    {
      hide Represents, PowerOfTwo, Total, Val, Home, Bucket;
      var i := rehashidx;
      ghost var b0 := ht0.table[..];
      var de := ht0.table[i];
      assert b0[i := de] == b0;
      while de != []
        invariant ht0.table == old(ht0.table) && ht1.table == old(ht1.table) && rehashidx == i
        invariant ht0.table[..] == b0
        invariant ht0 == old(ht0).(used := ht0.used) && ht0.used == Total(b0[i := de])
        invariant TableOk(ht1) && ht1.size == old(ht1.size)
        invariant Represents(b0[i := de], View(ht1), hash, M)
        decreases |de|
      {
        var h := Bucket(hash(de[0].key), ht1.sizemask);
        ghost var b1 := ht1.table[..];
        MoveStep(b0, b1, hash, M, i, de, ht1.sizemask);
        ht1.table[h] := [de[0]] + ht1.table[h];
        assert ht1.table[..] == b1[h := [de[0]] + b1[h]];
        ht0 := ht0.(used := ht0.used - 1);
        ht1 := ht1.(used := ht1.used + 1);
        de := de[1..];
      }
      ht0.table[i] := [];
      assert ht0.table[..] == b0[i := []];
      rehashidx := rehashidx + 1;
    }

    /** A first table that still counts entries has a chain at or after `rehashidx`. */
    lemma SomeChainLeft()
      requires Valid() && IsRehashing() && ht0.used != 0
      ensures exists i :: rehashidx <= i < ht0.size && ht0.table[i] != []
    {
      hide Represents;
      TotalZero(View(ht0));
    }

    /** Step over empty buckets; 0 is returned when the visits run out first. */
    method SkipEmpty(visits: nat) returns (left: nat)
      requires Valid() && IsRehashing() && ht0.used != 0 && visits > 0
      modifies this`rehashidx
      ensures Valid() && IsRehashing() && left <= visits
      ensures rehashidx == old(rehashidx) + visits - left
      ensures left > 0 ==> rehashidx < ht0.size && View(ht0)[rehashidx] != []
      ensures rehashidx <= ht0.size && forall m | old(rehashidx) <= m < rehashidx :: View(ht0)[m] == []
    {
      hide Represents, PowerOfTwo, Total, Val;
      left := visits;
      SomeChainLeft();
      while ht0.table[rehashidx] == []
        invariant Valid() && IsRehashing() && 0 < left <= visits && rehashidx < ht0.size
        invariant rehashidx == old(rehashidx) + visits - left
        invariant forall m | old(rehashidx) <= m < rehashidx :: View(ht0)[m] == []
        decreases left
      {
        rehashidx := rehashidx + 1;
        left := left - 1;
        if left == 0 { return; }
        SomeChainLeft();
      }
    }

    /** Pass the empty buckets and move the chain behind them; 0 is returned when the visits run out. */
    method MoveOne(visits: nat) returns (left: nat)
      requires Valid() && IsRehashing() && ht0.used != 0 && visits > 0
      modifies this`ht0, this`ht1, this`rehashidx, Repr() - {this}
      ensures Valid() && IsRehashing() && M == old(M) && Repr() == old(Repr())
      ensures ht0.size == old(ht0.size) && ht1.size == old(ht1.size) && left <= visits
      ensures ht0.table == old(ht0.table) && ht1.table == old(ht1.table)
      ensures left == 0 ==> ht0.used != 0
      ensures rehashidx == old(rehashidx) + visits - left + if left == 0 then 0 else 1
      ensures |View(ht0)| == |old(View(ht0))|
      ensures forall m | rehashidx <= m < |View(ht0)| :: View(ht0)[m] == old(View(ht0))[m]
      ensures RunOrFull(old(View(ht0)), old(rehashidx), rehashidx, left > 0)
    {
      hide Represents, PowerOfTwo, Total, Val;
      left := SkipEmpty(visits);
      if left > 0 { MoveBucket(); }
    }

    lemma IndexBound()
      requires Valid() && IsRehashing()
      ensures 0 <= rehashidx <= |View(ht0)|
    {
      hide Represents, PowerOfTwo, Total, Val;
    }

    /** The loop of a rehash: `n` chains at most, and `10 n` empty buckets.  `spent` says that the visits
        to empty buckets ran out. */
    method MoveChains(n: nat) returns (spent: bool)
      requires Valid() && IsRehashing()
      modifies this`ht0, this`ht1, this`rehashidx, Repr() - {this}
      ensures Valid() && IsRehashing() && M == old(M) && Repr() == old(Repr())
      ensures ht0.size == old(ht0.size) && ht1.size == old(ht1.size)
      ensures ht0.table == old(ht0.table) && ht1.table == old(ht1.table)
      ensures |View(ht0)| == |old(View(ht0))| && old(rehashidx) <= rehashidx
      ensures forall m | rehashidx <= m < |View(ht0)| :: View(ht0)[m] == old(View(ht0))[m]
      ensures var (b, i, j) := (old(View(ht0)), old(rehashidx), rehashidx);
              Looped(b, i, j, n, spent, ht0.used == 0) && (spent ==> ht0.used != 0)
    {
      hide Represents, PowerOfTwo, Total, Val, Home, Bucket, Fulls, Voids, Looped, Valid, View;
      IndexBound();
      var emptyVisits := n * 10;
      var left := n;
      ghost var b, i := View(ht0), rehashidx;
      CountsStart(b, i);
      while left != 0 && ht0.used != 0
        invariant Valid() && IsRehashing() && M == old(M) && Repr() == old(Repr())
        invariant 0 <= left <= n && ht0.size == old(ht0.size) && ht1.size == old(ht1.size)
        invariant ht0.table == old(ht0.table) && ht1.table == old(ht1.table)
        invariant emptyVisits >= 0 && (n > 0 ==> emptyVisits > 0)
        invariant i <= rehashidx <= |b|
        invariant |View(ht0)| == |b| && forall m | rehashidx <= m < |b| :: View(ht0)[m] == b[m]
        invariant Fulls(b, i, rehashidx) == n - left && Voids(b, i, rehashidx) == 10 * n - emptyVisits
        invariant if left < n then b[rehashidx - 1] != [] else rehashidx == i
        decreases left
      {
        left := left - 1;
        ghost var j := rehashidx;
        emptyVisits := MoveOne(emptyVisits);
        RunThenFull(b, i, j, rehashidx, emptyVisits > 0);
        if emptyVisits == 0 {
          LoopEnds(b, i, rehashidx, n, true, false);
          return true;
        }
      }
      LoopEnds(b, i, rehashidx, n, false, ht0.used == 0);
      return false;
    }

    /** Move up to `n` chains, passing up to `10 n` empty buckets on the way. */
    method Rehash(n: nat) returns (more: bool)
      requires Valid()
      modifies this`ht0, this`ht1, this`rehashidx, Repr() - {this}
      ensures Valid() && M == old(M) && Repr() <= old(Repr())
      ensures more == IsRehashing()
      ensures !old(IsRehashing()) ==> ht0 == old(ht0)
      ensures old(ht0.table) != null ==> ht0.table != null
      ensures old(IsRehashing()) ==> Stepped(old(View(ht0)), old(rehashidx), n, more, rehashidx)
      ensures more ==> |View(ht0)| == |old(View(ht0))| && rehashidx >= 0
      ensures more ==> forall m | rehashidx <= m < |View(ht0)| :: View(ht0)[m] == old(View(ht0))[m]
      ensures more ==> old(rehashidx) <= rehashidx <= old(rehashidx) + 11 * n
      ensures more && n > 0 ==> old(rehashidx) < rehashidx
      ensures !more && old(IsRehashing()) ==> ht0.size == old(ht1.size) && ht0.used == |M|
      ensures old(IsRehashing()) ==> ht0.table == if more then old(ht0.table) else old(ht1.table)
    {
      hide Represents, PowerOfTwo, Total, Val, Home, Bucket, Looped, Stepped;
      if !IsRehashing() { return false; }
      ghost var b, i := View(ht0), rehashidx;
      var spent := MoveChains(n);
      if spent {
        SomeChainLeft();
        MoreLeft(b, i, rehashidx, n, spent, false);
        return true;
      }
      if ht0.used == 0 {
        NoChainLeft();
        NoneLeft(b, i, rehashidx, n);
        Finished();
        ht0 := ht1;
        ht1 := Table(null, 0, 0, 0);
        rehashidx := -1;
        return false;
      }
      SomeChainLeft();
      MoreLeft(b, i, rehashidx, n, spent, false);
      return true;
    }

    lemma NoChainLeft()
      requires Valid() && IsRehashing() && ht0.used == 0
      ensures forall m | 0 <= m < |View(ht0)| :: View(ht0)[m] == []
    {
      hide Represents;
      TotalZero(View(ht0));
    }

    /** An emptied first table can be dropped. */
    lemma Finished()
      requires Valid() && IsRehashing() && ht0.used == 0
      ensures Represents(View(ht1), [], hash, M) && ht1.used == |M|
    {
      hide Home, PowerOfTwo, Val, Chained;
      TotalZero(View(ht0));
      assert forall k :: Get(View(ht0), hash, k) == None;
      assert forall k :: Get<K, V>([], hash, k) == None;
    }

    // -------------------------------------------------------------- the operations

    method RehashStep()
      requires Valid()
      modifies this`ht0, this`ht1, this`rehashidx, Repr() - {this}
      ensures Valid() && M == old(M) && Repr() <= old(Repr())
      ensures !old(IsRehashing()) ==> !IsRehashing() && ht0 == old(ht0)
      ensures old(ht0.table) != null ==> ht0.table != null
      ensures iterators != 0 ==> ht0 == old(ht0) && ht1 == old(ht1) && rehashidx == old(rehashidx)
      ensures iterators == 0 && old(IsRehashing()) ==>
                && Stepped(old(View(ht0)), old(rehashidx), 1, IsRehashing(), rehashidx)
                && if IsRehashing() then rehashidx > old(rehashidx) && ht0.table == old(ht0.table)
                   else ht0.table == old(ht1.table)
    {
      hide Represents, PowerOfTwo, Total, Val, Stepped;
      if iterators == 0 {
        var _ := Rehash(1);
      }
    }

    /** Truncation of an `unsigned long` to a signed 32-bit `int`. */
    static function ToInt32(x: nat): (r: int)
      ensures -0x8000_0000 <= r < 0x8000_0000 && (x - r) % 0x1_0000_0000 == 0
      ensures x < 0x8000_0000 ==> r == x
    {
      var low := x % 0x1_0000_0000;
      if low < 0x8000_0000 then low else low - 0x1_0000_0000
    }

    /** Shrink to fit.  The count passes through a C `int`; a count of 2^31 or more is misread as a
        smaller one, which `Expand` refuses. */
    method Resize(canResize: bool) returns (ok: bool)
      requires Valid()
      modifies this`ht0, this`ht1, this`rehashidx
      ensures Valid() && fresh(Repr() - old(Repr())) && M == old(M)
      ensures var n := if |M| < DICT_HT_INITIAL_SIZE then DICT_HT_INITIAL_SIZE else |M|;
              && (ok <==> canResize && !old(IsRehashing()) && |M| < 0x8000_0000 && !Rounded(n, old(ht0.size)))
              && if !ok then ht0 == old(ht0) && ht1 == old(ht1) && rehashidx == old(rehashidx)
                 else if old(ht0.table) == null then !IsRehashing() && Rounded(n, ht0.size)
                 else ht0 == old(ht0) && rehashidx == 0 && Rounded(n, ht1.size)
    {
      hide Represents, PowerOfTwo, Total, Val, Rounded, ToInt32;
      if !canResize || IsRehashing() { return false; }
      var minimal := ToInt32(ht0.used);
      if minimal < DICT_HT_INITIAL_SIZE { minimal := DICT_HT_INITIAL_SIZE; }
      SizeIsCardinality();
      ok := Expand(minimal);
    }

    lemma SizeIsCardinality()
      requires Valid()
      ensures ht0.used + ht1.used == |M|
      ensures !IsRehashing() ==> ht1.used == 0
    {
      hide Placed, Get, PowerOfTwo, Val;
    }

    lemma TableFacts()
      requires Valid()
      ensures ht0.table == null <==> ht0.size == 0
      ensures ht0.table == null ==> ht0.used == 0 && !IsRehashing()
      ensures IsRehashing() ==> ht1.table != null && ht0.table != ht1.table
    {
      hide Represents, PowerOfTwo, Total, Val;
    }

    /** The first table is missing, or holds at least as many entries as buckets, and growing is allowed
        or the chains are too long on average. */
    predicate MustGrow(canResize: bool)
      reads this
    {
      ht0.size == 0 || (ht0.used >= ht0.size && (canResize || ht0.used / ht0.size > DICT_FORCE_RESIZE_RATIO))
    }

    /** The growth policy.  The doubled count is an `unsigned long` and could wrap around. */
    method ExpandIfNeeded(canResize: bool) returns (ok: bool)
      requires Valid()
      modifies this`ht0, this`ht1, this`rehashidx
      ensures Valid() && fresh(Repr() - old(Repr())) && M == old(M)
      ensures old(ht0.used) <= LONG_MAX ==> ok
      ensures ok ==> ht0.table != null
      ensures !ok ==> ht0 == old(ht0) && ht1 == old(ht1) && rehashidx == old(rehashidx)
      ensures old(IsRehashing()) || !old(MustGrow(canResize)) ==>
                ok && ht0 == old(ht0) && ht1 == old(ht1) && rehashidx == old(rehashidx)
      ensures !old(IsRehashing()) && old(ht0.size) == 0 ==>
              ok && !IsRehashing() && Rounded(DICT_HT_INITIAL_SIZE, ht0.size)
      ensures !old(IsRehashing()) && old(ht0.size) > 0 && old(MustGrow(canResize)) && old(ht0.used) <= LONG_MAX ==>
                ok && ht0 == old(ht0) && rehashidx == 0 && Rounded(2 * ht0.used, ht1.size)
      ensures old(ht0.table) != null ==> ht0 == old(ht0)
    {
      hide Represents, PowerOfTwo, Total, Val, Rounded, Valid;
      TableFacts();
      if IsRehashing() { return true; }
      if ht0.size == 0 {
        InitialSize();
        ok := Expand(DICT_HT_INITIAL_SIZE);
        TableFacts();
        return;
      }
      if ht0.used >= ht0.size && (canResize || ht0.used / ht0.size > DICT_FORCE_RESIZE_RATIO) {
        if ht0.used <= LONG_MAX { DoubleIsLarger(ht0.used, ht0.size); }
        ok := Expand((ht0.used * 2) % ULONG_RANGE);
        return;
      }
      return true;
    }

    /** The bucket where a new key goes, or -1 with the place where the key already is. */
    method KeyIndex(key: K, h: bv64, canResize: bool) returns (index: int, existing: Option<Ref>)
      requires Valid() && h == hash(key)
      modifies this`ht0, this`ht1, this`rehashidx
      ensures Valid() && fresh(Repr() - old(Repr())) && M == old(M)
      ensures existing == None && index == -1 ==> old(ht0.used) > LONG_MAX
      ensures index != -1 <==> existing == None && ht0.table != null && key !in M && index >= 0
      ensures index >= 0 ==> index == Home(h, if IsRehashing() then ht1.size else ht0.size)
      ensures existing.Some? ==> key in M && PointsTo(existing.value, key)
      ensures old(ht0.table) != null ==> ht0 == old(ht0)
      ensures old(IsRehashing()) ==> ht1 == old(ht1) && rehashidx == old(rehashidx)
    {
      hide Represents, PowerOfTwo, Total, Val, Home, Bucket, Rounded, Valid, Lookup;
      existing := None;
      var ok := ExpandIfNeeded(canResize);
      if !ok { return -1, None; }
      var idx := Bucket(h, ht0.sizemask);
      BucketsAreHome(h);
      var p := Search(ht0.table[idx], key);
      Looked(key);
      if p < |ht0.table[idx]| { return -1, Some(Ref(false, idx, p)); }
      if IsRehashing() {
        idx := Bucket(h, ht1.sizemask);
        p := Search(ht1.table[idx], key);
        if p < |ht1.table[idx]| { return -1, Some(Ref(true, idx, p)); }
      }
      index := idx;
    }

    /** The masks select the buckets where keys are at home. */
    lemma BucketsAreHome(h: bv64)
      requires Valid() && ht0.table != null
      ensures Bucket(h, ht0.sizemask) < ht0.table.Length == ht0.size
      ensures Bucket(h, ht0.sizemask) == Home(h, ht0.size)
      ensures IsRehashing() ==> ht1.table != null && Bucket(h, ht1.sizemask) < ht1.table.Length == ht1.size
      ensures IsRehashing() ==> Bucket(h, ht1.sizemask) == Home(h, ht1.size)
    {
      hide Represents, PowerOfTwo, Total, Val, Home, Bucket;
      BucketIsHome(h, ht0.sizemask, ht0.size);
      if IsRehashing() { BucketIsHome(h, ht1.sizemask, ht1.size); }
    }

    ghost predicate PointsTo(r: Ref, key: K)
      reads this, Repr()
    {
      var b := View(if r.second then ht1 else ht0);
      r.bucket < |b| && r.index < |b[r.bucket]| && b[r.bucket][r.index].key == key
    }

    /** What the two chains where a key is at home say about the map. */
    lemma Looked(key: K)
      requires Valid() && ht0.table != null
      ensures var x := Lookup(ht0.table[Home(hash(key), ht0.size)], key);
              var y := if IsRehashing() then Lookup(ht1.table[Home(hash(key), ht1.size)], key) else None;
              Either(x, y) == Some(MapGet(M, key))
    {
      hide PowerOfTwo, Val, Home, Total, Placed;
      assert Either(Get(View(ht0), hash, key), Get(View(ht1), hash, key)) == Some(MapGet(M, key));
    }

    /** Insert a new key; an existing one is left alone and reported.  The error branch of
        `KeyIndex` needs more than 2^63 - 1 entries. */
    method AddRaw(key: K, val: V, canResize: bool) returns (added: bool, existing: Option<Ref>)
      requires Valid()
      modifies this`ht0, this`ht1, this`rehashidx, this`M, Repr() - {this}
      ensures Valid() && fresh(Repr() - old(Repr()))
      ensures M == if added then old(M)[key := val] else old(M)
      ensures added ==> key !in old(M) && existing == None
      ensures existing.Some? ==> key in M && PointsTo(existing.value, key)
      ensures |old(M)| <= LONG_MAX ==> added == (key !in old(M)) && existing.Some? == (key in old(M))
      ensures added ==> In(View(if IsRehashing() then ht1 else ht0), Entry(key, val))
      ensures old(IsRehashing()) && iterators == 0 ==> ht0.table != old(ht0.table) || rehashidx > old(rehashidx)
    {
      hide Represents, PowerOfTwo, Total, Val, Home, Bucket, Stepped, Valid;
      TableFacts();
      if IsRehashing() { RehashStep(); }
      SizeIsCardinality();
      var index;
      index, existing := KeyIndex(key, hash(key), canResize);
      if index == -1 { return false, existing; }
      ghost var b := View(if IsRehashing() then ht1 else ht0);
      PushEntry(key, val, index);
      HeadIsIn(b, index, Entry(key, val));
      return true, None;
    }

    /** Link a new entry at the head of its chain, in the second table during a rehash. */
    method PushEntry(key: K, val: V, index: nat)
      requires Valid() && ht0.table != null && key !in M
      requires index == Home(hash(key), if IsRehashing() then ht1.size else ht0.size)
      modifies this`ht0, this`ht1, this`M, Repr() - {this}
      ensures Valid() && Repr() == old(Repr()) && M == old(M)[key := val]
      ensures ht0.table == old(ht0.table) && ht1.table == old(ht1.table)
      ensures var (b0, b1, e) := (old(View(ht0)), old(View(ht1)), Entry(key, val));
              if IsRehashing() then index < |b1| && View(ht0) == b0 && View(ht1) == b1[index := [e] + b1[index]]
              else index < |b0| && View(ht1) == b1 && View(ht0) == b0[index := [e] + b0[index]]
    {
      hide Represents, PowerOfTwo, Total, Val, Home;
      ghost var b0, b1 := View(ht0), View(ht1);
      var e := Entry(key, val);
      if IsRehashing() {
        Swapped(b0, b1, hash, M);
        Pushed(b1, b0, hash, M, key, val);
        TotalUpdate(b1, index, [e] + b1[index]);
        Swapped(b1[index := [e] + b1[index]], b0, hash, M[key := val]);
        ht1.table[index] := [e] + ht1.table[index];
        ht1 := ht1.(used := ht1.used + 1);
        assert View(ht1) == b1[index := [e] + b1[index]];
      } else {
        Pushed(b0, b1, hash, M, key, val);
        TotalUpdate(b0, index, [e] + b0[index]);
        ht0.table[index] := [e] + ht0.table[index];
        ht0 := ht0.(used := ht0.used + 1);
        assert View(ht0) == b0[index := [e] + b0[index]];
      }
      M := M[key := val];
    }

    method Add(key: K, val: V, canResize: bool) returns (ok: bool)
      requires Valid()
      modifies this`ht0, this`ht1, this`rehashidx, this`M, Repr() - {this}
      ensures Valid() && fresh(Repr() - old(Repr()))
      ensures M == if ok then old(M)[key := val] else old(M)
      ensures ok ==> key !in old(M)
      ensures |old(M)| <= LONG_MAX ==> ok == (key !in old(M))
    {
      hide Represents, PowerOfTwo, Total, Val, Home;
      var existing;
      ok, existing := AddRaw(key, val, canResize);
    }

    /** Overwrite the value of the entry found. */
    method SetVal(r: Ref, key: K, val: V)
      requires Valid() && PointsTo(r, key)
      modifies this`M, Repr() - {this}
      ensures Valid() && M == old(M)[key := val]
    {
      hide Represents, PowerOfTwo, Total, Val, Home;
      ghost var b0, b1 := View(ht0), View(ht1);
      var e := Entry(key, val);
      if r.second {
        Swapped(b0, b1, hash, M);
        Overwritten(b1, b0, hash, M, r.bucket, r.index, val);
        TotalUpdate(b1, r.bucket, b1[r.bucket][r.index := e]);
        Swapped(b1[r.bucket := b1[r.bucket][r.index := e]], b0, hash, M[key := val]);
        ht1.table[r.bucket] := ht1.table[r.bucket][r.index := e];
        assert View(ht1) == b1[r.bucket := b1[r.bucket][r.index := e]];
      } else {
        Overwritten(b0, b1, hash, M, r.bucket, r.index, val);
        TotalUpdate(b0, r.bucket, b0[r.bucket][r.index := e]);
        ht0.table[r.bucket] := ht0.table[r.bucket][r.index := e];
        assert View(ht0) == b0[r.bucket := b0[r.bucket][r.index := e]];
      }
      M := M[key := val];
    }

    /** Add or overwrite. */
    method Replace(key: K, val: V, canResize: bool) returns (isNew: bool)
      requires Valid() && |M| <= LONG_MAX
      modifies this`ht0, this`ht1, this`rehashidx, this`M, Repr() - {this}
      ensures Valid() && fresh(Repr() - old(Repr()))
      ensures M == old(M)[key := val] && isNew == (key !in old(M))
    {
      hide Represents, PowerOfTwo, Total, Val, Home;
      var existing;
      isNew, existing := AddRaw(key, val, canResize);
      if !isNew {
        SetVal(existing.value, key, val);
      }
    }

    /** Unlink the entry of a chain of the first or the second table. */
    method Unlink(r: Ref, key: K) returns (val: V)
      requires Valid() && PointsTo(r, key)
      modifies this`ht0, this`ht1, this`M, Repr() - {this}
      ensures Valid() && Repr() == old(Repr()) && ht0.table == old(ht0.table)
      ensures key in old(M) && val == old(M)[key] && M == old(M) - {key}
    {
      hide Represents, PowerOfTwo, Total, Val, Home;
      ghost var b0, b1 := View(ht0), View(ht1);
      if r.second {
        var c := ht1.table[r.bucket];
        val := c[r.index].val;
        Swapped(b0, b1, hash, M);
        Unlinked(b1, b0, hash, M, r.bucket, r.index);
        TotalUpdate(b1, r.bucket, Without(c, r.index));
        Swapped(b1[r.bucket := Without(c, r.index)], b0, hash, M - {key});
        ht1.table[r.bucket] := Without(c, r.index);
        ht1 := ht1.(used := ht1.used - 1);
        assert View(ht1) == b1[r.bucket := Without(c, r.index)];
      } else {
        var c := ht0.table[r.bucket];
        val := c[r.index].val;
        Unlinked(b0, b1, hash, M, r.bucket, r.index);
        TotalUpdate(b0, r.bucket, Without(c, r.index));
        ht0.table[r.bucket] := Without(c, r.index);
        ht0 := ht0.(used := ht0.used - 1);
        assert View(ht0) == b0[r.bucket := Without(c, r.index)];
        assert forall i | 0 <= i < rehashidx :: View(ht0)[i] == [];
      }
      M := M - {key};
    }

    /** The loop over the two tables shared by lookup and deletion. */
    method Locate(key: K) returns (r: Option<Ref>)
      requires Valid() && ht0.table != null
      ensures r.Some? <==> key in M
      ensures r.Some? ==> PointsTo(r.value, key)
      ensures r.Some? ==> View(if r.value.second then ht1 else ht0)[r.value.bucket][r.value.index].val == M[key]
    {
      hide Represents, PowerOfTwo, Total, Val, Home, Bucket;
      Looked(key);
      var idx := Bucket(hash(key), ht0.sizemask);
      BucketIsHome(hash(key), ht0.sizemask, ht0.size);
      var p := Search(ht0.table[idx], key);
      if p < |ht0.table[idx]| { return Some(Ref(false, idx, p)); }
      if !IsRehashing() { return None; }
      idx := Bucket(hash(key), ht1.sizemask);
      BucketIsHome(hash(key), ht1.sizemask, ht1.size);
      p := Search(ht1.table[idx], key);
      if p < |ht1.table[idx]| { return Some(Ref(true, idx, p)); }
      return None;
    }

    lemma EmptyMap()
      requires Valid() && ht0.used == 0 && ht1.used == 0
      ensures M == map[]
    {
      SizeIsCardinality();
    }

    lemma TableExists()
      requires Valid() && (ht0.used != 0 || ht1.used != 0)
      ensures ht0.table != null
    {
      hide Represents;
    }

    method Delete(key: K) returns (removed: Option<V>)
      requires Valid()
      modifies this`ht0, this`ht1, this`rehashidx, this`M, Repr() - {this}
      ensures Valid() && Repr() <= old(Repr())
      ensures removed == MapGet(old(M), key) && M == old(M) - {key}
      ensures old(IsRehashing()) && iterators == 0 && old(M) != map[] ==>
                ht0.table != old(ht0.table) || rehashidx > old(rehashidx)
    {
      hide Represents, PowerOfTwo, Total, Val, Home;
      if ht0.used == 0 && ht1.used == 0 { EmptyMap(); return None; }
      TableExists();
      if IsRehashing() { RehashStep(); }
      var r := Locate(key);
      if r.None? { assert M - {key} == M; return None; }
      var val := Unlink(r.value, key);
      return Some(val);
    }

    method Find(key: K) returns (found: Option<V>)
      requires Valid()
      modifies this`ht0, this`ht1, this`rehashidx, Repr() - {this}
      ensures Valid() && Repr() <= old(Repr()) && M == old(M)
      ensures found == MapGet(M, key)
      ensures old(IsRehashing()) && iterators == 0 && M != map[] ==>
                ht0.table != old(ht0.table) || rehashidx > old(rehashidx)
    {
      hide Represents, PowerOfTwo, Total, Val, Home;
      if ht0.used + ht1.used == 0 { EmptyMap(); return None; }
      TableExists();
      if IsRehashing() { RehashStep(); }
      var r := Locate(key);
      if r.None? { return None; }
      var t := if r.value.second then ht1 else ht0;
      return Some(t.table[r.value.bucket][r.value.index].val);
    }

    // -------------------------------------------------------------- the scan

    /** The entries at the cursor in one table. */
    method EmitBucket(t: Table<K, V>, v: bv64) returns (emitted: Chain<K, V>)
      requires Valid() && t.table != null && (t == ht0 || t == ht1)
      ensures Sized(View(t)) && IsMask(t.sizemask, Log2(t.size))
      ensures forall e :: e in emitted <==>
                In(View(t), e) && InBlock(Place(hash(e.key)), Place(v), Log2(t.size))
      ensures DistinctKeys(emitted)
    {
      hide Total, Val, Place, BlockSize, PowerOfTwo, In, Bucket, Get, DistinctKeys;
      BucketIsHome(v, t.sizemask, t.size);
      BucketIsBlock(t.table[..], hash, t.sizemask, v);
      emitted := t.table[Bucket(v, t.sizemask)];
      ChainedDistinct(emitted, hash, t.size, Bucket(v, t.sizemask));
    }

    lemma AlwaysSized()
      requires Valid()
      ensures Sized(View(ht0)) && Sized(View(ht1))
    {
      hide Represents, Total, Val, PowerOfTwo;
      if ht0.table != null { BucketIsHome(0, ht0.sizemask, ht0.size); }
      if ht1.table != null { BucketIsHome(0, ht1.sizemask, ht1.size); }
    }

    /** The dictionary as one call of the scan finds it. */
    ghost function Snap(): Snapshot<K, V>
      reads this, Repr()
    {
      Snapshot(View(ht0), View(ht1), M)
    }

    lemma SnapIsConsistent()
      requires Valid()
      ensures Consistent(Snap(), hash)
    {
      hide Represents, Total, Val, PowerOfTwo;
      AlwaysSized();
    }

    lemma UsedIsTotal()
      requires Valid()
      ensures ht0.used + ht1.used == Total(View(ht0)) + Total(View(ht1))
    {
      hide Represents, Val, PowerOfTwo;
    }

    /** One call of the scan.  It only reads the dictionary. */
    method Scan(v0: bv64) returns (v: bv64, emitted: Chain<K, V>)
      requires Valid()
      ensures Sized(Snap().b0) && Sized(Snap().b1)
      ensures ScanStep(Snap().b0, Snap().b1, hash, v0, emitted, v) && DistinctKeys(emitted)
    {
      hide Represents, Total, Val, Place, BlockSize, PowerOfTwo, In, InBlock, BlockEnd, BothStep, NextCursor, IsMask,
           Pow2, Log2;
      AlwaysSized();
      UsedIsTotal();
      if ht0.used + ht1.used == 0 { return 0, []; }
      TableExists();
      if !IsRehashing() {
        var m0 := ht0.sizemask;
        emitted := EmitBucket(ht0, v0);
        v := Advance(v0, m0, Log2(ht0.size));
      } else {
        var t0, t1 := ht0, ht1;
        if t0.size > t1.size {
          t0, t1 := ht1, ht0;
        }
        v, emitted := ScanBoth(t0, t1, v0);
      }
    }

    /** During a rehash no key is in both tables, so what one call emits later is new. */
    lemma OnceEach(t0: Table<K, V>, t1: Table<K, V>, p: nat, q: nat, j: nat, k: nat, emitted: Chain<K, V>,
                   more: Chain<K, V>)
      requires Valid() && IsRehashing() && ((t0 == ht0 && t1 == ht1) || (t0 == ht1 && t1 == ht0))
      requires j <= 64 && k <= 64 && Upto(View(t0), View(t1), hash, p, q, j, k, emitted)
      requires forall e :: e in more <==> In(View(t1), e) && InBlock(Place(hash(e.key)), q, k)
      requires DistinctKeys(emitted) && DistinctKeys(more)
      ensures DistinctKeys(emitted + more)
    {
      hide Total, Val, Place, BlockStart, PowerOfTwo, In, Get, DistinctKeys, InBlock;
      forall e, f | e in emitted && f in more ensures e.key != f.key {
        BlockRange(Place(hash(f.key)), q, k);
        if In(View(t0), e) && e.key == f.key {
          OneTable(e, f, t0, t1);
        }
      }
      JoinedDistinct(emitted, more);
    }

    lemma OneTable(e: Entry<K, V>, f: Entry<K, V>, t0: Table<K, V>, t1: Table<K, V>)
      requires Valid() && IsRehashing() && ((t0 == ht0 && t1 == ht1) || (t0 == ht1 && t1 == ht0))
      requires In(View(t0), e) && In(View(t1), f)
      ensures e.key != f.key
    {
      hide Total, Val, PowerOfTwo, Home;
      InIsFound(View(t0), hash, e);
      InIsFound(View(t1), hash, f);
      assert Either(Get(View(ht0), hash, e.key), Get(View(ht1), hash, e.key)) == Some(MapGet(M, e.key));
    }

    /** The step during a rehash: the smaller table first, then its expansions in the larger. */
    method ScanBoth(t0: Table<K, V>, t1: Table<K, V>, v0: bv64) returns (v: bv64, emitted: Chain<K, V>)
      requires Valid() && IsRehashing() && t0.size < t1.size
      requires (t0 == ht0 && t1 == ht1) || (t0 == ht1 && t1 == ht0)
      ensures Sized(View(t0)) && Sized(View(t1))
      ensures BothStep(View(t0), View(t1), hash, v0, emitted, v) && DistinctKeys(emitted)
    {
      hide Represents, Total, Val, Place, BlockSize, PowerOfTwo, In, InBlock, BlockEnd, BlockStart, NextCursor, IsMask,
           Upto, LoopDone, Pow2, DistinctKeys;
      AlwaysSized();
      var m0, m1 := t0.sizemask, t1.sizemask;
      ghost var j, k := Log2(t0.size), Log2(t1.size);
      ghost var p := Place(v0);
      ghost var q := p;
      LogMono(t0.size, t1.size);
      BlockBounds(p, j);
      v := v0;
      BucketIsHome(0, m1, t1.size);
      emitted := EmitBucket(t0, v);
      UptoStart(View(t0), View(t1), hash, p, j, k, emitted);
      while true
        invariant Place(v) == q && p <= q < BlockEnd(p, j) && IsMask(m0, j) && IsMask(m1, k)
        invariant Upto(View(t0), View(t1), hash, p, q, j, k, emitted) && DistinctKeys(emitted)
        decreases BlockEnd(p, j) - q
      {
        var more := EmitBucket(t1, v);
        UptoNext(View(t0), View(t1), hash, p, q, j, k, emitted, more);
        OnceEach(t0, t1, p, q, j, k, emitted, more);
        Turn(v, p, m0, m1, j, k);
        emitted := emitted + more;
        v := Advance(v, m1, k);
        q := BlockEnd(q, k);
        if LoopDone(v, m0, m1) { break; }
      }
      UptoDone(View(t0), View(t1), hash, p, j, k, emitted);
    }
  }

  lemma LogMono(r: nat, s: nat)
    requires PowerOfTwo(r) && PowerOfTwo(s) && r < s
    ensures Log2(r) < Log2(s)
  {
    if Log2(r) >= Log2(s) { PowMono(Log2(s), Log2(r)); }
  }
}
