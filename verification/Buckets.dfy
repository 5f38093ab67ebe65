/** The chains of the two bucket arrays of a dictionary, and what it means that they hold a map. */
module Buckets {
  import opened Options
  import opened Words

  datatype Entry<K, V> = Entry(key: K, val: V)

  type Chain<K, V> = seq<Entry<K, V>>

  // ---------------------------------------------------------------- counting

  function Total<K, V>(b: seq<Chain<K, V>>): nat {
    if b == [] then 0 else |b[0]| + Total(b[1..])
  }

  lemma {:induction false} TotalUpdate<K, V>(b: seq<Chain<K, V>>, i: nat, c: Chain<K, V>)
    requires i < |b|
    ensures Total(b[i := c]) + |b[i]| == Total(b) + |c|
  {
    if i == 0 {
      assert b[0 := c][1..] == b[1..];
    } else {
      assert b[i := c][1..] == b[1..][i - 1 := c];
      TotalUpdate(b[1..], i - 1, c);
    }
  }

  lemma {:induction false} TotalZero<K, V>(b: seq<Chain<K, V>>)
    ensures Total(b) == 0 <==> forall i | 0 <= i < |b| :: b[i] == []
  {
    if b != [] {
      TotalZero(b[1..]);
      assert forall i | 1 <= i < |b| :: b[i] == b[1..][i - 1];
    }
  }

  /** The numbers of buckets from `i` to `j` that hold something, and that hold nothing. */
  function Fulls<K, V>(b: seq<Chain<K, V>>, i: nat, j: nat): nat
    requires i <= j <= |b|
  {
    if i == j then 0 else Fulls(b, i, j - 1) + if b[j - 1] == [] then 0 else 1
  }

  function Voids<K, V>(b: seq<Chain<K, V>>, i: nat, j: nat): nat
    requires i <= j <= |b|
  {
    if i == j then 0 else Voids(b, i, j - 1) + if b[j - 1] == [] then 1 else 0
  }

  /** `n` steps of a rehash from bucket `i` on stop at bucket `j`: after `n` chains were moved or `10 n`
      empty buckets were passed, whichever comes first, with a chain left; or with none left. */
  ghost predicate Progress<K, V>(b: seq<Chain<K, V>>, i: nat, j: nat, n: nat, more: bool) {
    && i <= j <= |b| && Fulls(b, i, j) <= n && Voids(b, i, j) <= 10 * n
    && if more then
         && (exists m :: j <= m < |b| && b[m] != [])
         && (n > 0 ==> i < j && if b[j - 1] == [] then Voids(b, i, j) == 10 * n else Fulls(b, i, j) == n)
       else
         && (forall m | j <= m < |b| :: b[m] == [])
         && (n > 0 ==> Voids(b, i, j) < 10 * n)
  }

  /** What came of `n` steps from bucket `i` on: `more` says whether chains are left, from `idx` on. */
  ghost predicate Stepped<K, V>(b: seq<Chain<K, V>>, i: int, n: nat, more: bool, idx: int) {
    0 <= i && if more then 0 <= idx && Progress(b, i, idx, n, true) else exists j: nat :: Progress(b, i, j, n, false)
  }

  lemma {:induction false} FullOrVoid<K, V>(b: seq<Chain<K, V>>, i: nat, j: nat)
    requires i <= j <= |b|
    ensures Fulls(b, i, j) + Voids(b, i, j) == j - i
  {
    if i < j { FullOrVoid(b, i, j - 1); }
  }

  lemma {:induction false} VoidsRun<K, V>(b: seq<Chain<K, V>>, i: nat, j: nat, k: nat)
    requires i <= j <= k <= |b| && forall m | j <= m < k :: b[m] == []
    ensures Fulls(b, i, k) == Fulls(b, i, j) && Voids(b, i, k) == Voids(b, i, j) + k - j
  {
    if j < k { VoidsRun(b, i, j, k - 1); }
  }

  // ---------------------------------------------------------------- powers of two

  function Log2(n: nat): nat {
    if n <= 1 then 0 else 1 + Log2(n / 2)
  }

  predicate PowerOfTwo(n: nat) {
    n == Pow2(Log2(n))
  }

  lemma {:induction false} PowersOfTwo(k: nat)
    ensures Log2(Pow2(k)) == k && PowerOfTwo(Pow2(k))
  {
    if k > 0 { PowersOfTwo(k - 1); }
  }

  // ---------------------------------------------------------------- one chain

  /** The bucket a key belongs to in an array of `size` buckets. */
  function Home(h: bv64, size: nat): (i: nat)
    requires size > 0
    ensures i < size
  {
    Val(h) % size
  }

  function Lookup<K(==), V>(c: Chain<K, V>, k: K): Option<V> {
    if c == [] then None else if c[0].key == k then Some(c[0].val) else Lookup(c[1..], k)
  }

  /** Chain `i` of an array of `size`: its entries belong there and no key occurs twice. */
  ghost predicate Chained<K, V>(c: Chain<K, V>, hash: K -> bv64, size: nat, i: nat)
    requires size > 0
  {
    c == [] || (Home(hash(c[0].key), size) == i && Lookup(c[1..], c[0].key) == None
                && Chained(c[1..], hash, size, i))
  }

  /** No key occurs twice. */
  ghost predicate DistinctKeys<K, V>(c: Chain<K, V>) {
    forall i, j | 0 <= i < j < |c| :: c[i].key != c[j].key
  }

  lemma ChainedDistinct<K, V>(c: Chain<K, V>, hash: K -> bv64, size: nat, i: nat)
    requires size > 0 && Chained(c, hash, size, i)
    ensures DistinctKeys(c)
  {
    hide Home;
    forall p, q | 0 <= p < q < |c| ensures c[p].key != c[q].key { KeyOnce(c, hash, size, i, p, q); }
  }

  lemma {:induction false} KeyOnce<K, V>(c: Chain<K, V>, hash: K -> bv64, size: nat, i: nat, p: nat, q: nat)
    requires size > 0 && Chained(c, hash, size, i) && p < q < |c|
    ensures c[p].key != c[q].key
  {
    hide Home;
    if p == 0 {
      LookupAt(c[1..], hash, size, i, q - 1);
    } else {
      KeyOnce(c[1..], hash, size, i, p - 1, q - 1);
    }
  }

  lemma JoinedDistinct<K, V>(c: Chain<K, V>, d: Chain<K, V>)
    requires DistinctKeys(c) && DistinctKeys(d) && forall e, f | e in c && f in d :: e.key != f.key
    ensures DistinctKeys(c + d)
  {
    var t := c + d;
    forall i, j | 0 <= i < j < |t| ensures t[i].key != t[j].key {
      if i < |c| <= j { assert t[i] in c && t[j] in d; }
    }
  }

  function Without<T>(c: seq<T>, p: nat): seq<T>
    requires p < |c|
  {
    c[..p] + c[p + 1..]
  }

  /** The entry at any position is the one its key leads to. */
  lemma {:induction false} LookupAt<K, V>(c: Chain<K, V>, hash: K -> bv64, size: nat, i: nat, p: nat)
    requires size > 0 && Chained(c, hash, size, i) && p < |c|
    ensures Lookup(c, c[p].key) == Some(c[p].val)
    ensures Home(hash(c[p].key), size) == i
  {
    hide Home;
    if p > 0 {
      LookupAt(c[1..], hash, size, i, p - 1);
    }
  }

  lemma {:induction false} LookupFrom<K, V>(c: Chain<K, V>, k: K)
    ensures Lookup(c, k).Some? ==> Entry(k, Lookup(c, k).value) in c
  {
    if c != [] && c[0].key != k {
      LookupFrom(c[1..], k);
    }
  }

  lemma {:induction false} Cut<K, V>(c: Chain<K, V>, hash: K -> bv64, size: nat, i: nat, p: nat)
    requires size > 0 && Chained(c, hash, size, i) && p < |c|
    ensures Chained(Without(c, p), hash, size, i)
    ensures forall k :: Lookup(Without(c, p), k) == if k == c[p].key then None else Lookup(c, k)
  {
    hide Home;
    if p == 0 {
      assert Without(c, 0) == c[1..];
    } else {
      Cut(c[1..], hash, size, i, p - 1);
      LookupAt(c[1..], hash, size, i, p - 1);
      var d := Without(c, p);
      assert d[0] == c[0] && d[1..] == Without(c[1..], p - 1);
      forall k ensures Lookup(d, k) == if k == c[p].key then None else Lookup(c, k) {
        assert Lookup(d[1..], k) == if k == c[p].key then None else Lookup(c[1..], k);
      }
    }
  }

  lemma {:induction false} Set<K, V>(c: Chain<K, V>, hash: K -> bv64, size: nat, i: nat, p: nat, v: V)
    requires size > 0 && Chained(c, hash, size, i) && p < |c|
    ensures var d := c[p := Entry(c[p].key, v)];
            && Chained(d, hash, size, i)
            && forall k :: Lookup(d, k) == if k == c[p].key then Some(v) else Lookup(c, k)
  {
    hide Home;
    var d := c[p := Entry(c[p].key, v)];
    if p == 0 {
      assert d[1..] == c[1..];
    } else {
      Set(c[1..], hash, size, i, p - 1, v);
      LookupAt(c[1..], hash, size, i, p - 1);
      assert d[1..] == c[1..][p - 1 := Entry(c[p].key, v)];
      forall k ensures Lookup(d, k) == if k == c[p].key then Some(v) else Lookup(c, k) {
        assert Lookup(d[1..], k) == if k == c[p].key then Some(v) else Lookup(c[1..], k);
      }
    }
  }

  // ---------------------------------------------------------------- the arrays

  ghost predicate Placed<K, V>(b: seq<Chain<K, V>>, hash: K -> bv64) {
    forall i | 0 <= i < |b| :: Chained(b[i], hash, |b|, i)
  }

  ghost function Get<K, V>(b: seq<Chain<K, V>>, hash: K -> bv64, k: K): Option<V> {
    if b == [] then None else Lookup(b[Home(hash(k), |b|)], k)
  }

  function MapGet<K(==), V>(m: map<K, V>, k: K): Option<V> {
    if k in m then Some(m[k]) else None
  }

  /** What two lookups say together; `None` for both, or for a key found twice. */
  function Either<V>(x: Option<V>, y: Option<V>): Option<Option<V>> {
    if x == None then Some(y) else if y == None then Some(x) else None
  }

  /** The two arrays together hold exactly the entries of `m`, each of them once. */
  ghost predicate Represents<K(!new), V>(b0: seq<Chain<K, V>>, b1: seq<Chain<K, V>>,
                                         hash: K -> bv64, m: map<K, V>) {
    && Placed(b0, hash) && Placed(b1, hash)
    && (forall k :: Either(Get(b0, hash, k), Get(b1, hash, k)) == Some(MapGet(m, k)))
    && |m| == Total(b0) + Total(b1)
  }

  lemma Swapped<K(!new), V>(b0: seq<Chain<K, V>>, b1: seq<Chain<K, V>>, hash: K -> bv64, m: map<K, V>)
    requires Represents(b0, b1, hash, m)
    ensures Represents(b1, b0, hash, m)
  {
    hide Get, MapGet, Total, Placed;
  }

  /** Replacing one chain changes the lookups of the keys at home there. */
  lemma GetUpdated<K, V>(b: seq<Chain<K, V>>, hash: K -> bv64, i: nat, c: Chain<K, V>, k: K)
    requires i < |b|
    ensures Get(b[i := c], hash, k) == if Home(hash(k), |b|) == i then Lookup(c, k) else Get(b, hash, k)
  {
  }

  /** A new first array, told apart from the old one by the lookup of a single key. */
  lemma Changed<K(!new), V>(b0: seq<Chain<K, V>>, b0': seq<Chain<K, V>>, b1: seq<Chain<K, V>>,
                            hash: K -> bv64, m: map<K, V>, m': map<K, V>, key: K)
    requires Represents(b0, b1, hash, m) && Placed(b0', hash)
    requires forall k | k != key :: Get(b0', hash, k) == Get(b0, hash, k) && MapGet(m', k) == MapGet(m, k)
    requires Get(b1, hash, key) == None && Get(b0', hash, key) == MapGet(m', key)
    requires |m'| - |m| == Total(b0') - Total(b0)
    ensures Represents(b0', b1, hash, m')
  {
    hide Get, MapGet, Total, Placed;
  }

  /** Push a new entry on the chain of its bucket. */
  lemma Pushed<K(!new), V>(b0: seq<Chain<K, V>>, b1: seq<Chain<K, V>>, hash: K -> bv64,
                           m: map<K, V>, key: K, val: V)
    requires Represents(b0, b1, hash, m) && |b0| > 0 && key !in m
    ensures var i := Home(hash(key), |b0|);
            Represents(b0[i := [Entry(key, val)] + b0[i]], b1, hash, m[key := val])
  {
    hide Home;
    var i := Home(hash(key), |b0|);
    var c := [Entry(key, val)] + b0[i];
    var b := b0[i := c];
    assert Either(Get(b0, hash, key), Get(b1, hash, key)) == Some(None);
    assert c[1..] == b0[i];
    forall k ensures Get(b, hash, k) == if k == key then Some(val) else Get(b0, hash, k) {
      GetUpdated(b0, hash, i, c, k);
    }
    TotalUpdate(b0, i, c);
    Changed(b0, b, b1, hash, m, m[key := val], key);
  }

  /** Unlink one entry from its chain. */
  lemma Unlinked<K(!new), V>(b0: seq<Chain<K, V>>, b1: seq<Chain<K, V>>, hash: K -> bv64,
                             m: map<K, V>, i: nat, p: nat)
    requires Represents(b0, b1, hash, m) && i < |b0| && p < |b0[i]|
    ensures var e := b0[i][p];
            && MapGet(m, e.key) == Some(e.val)
            && Represents(b0[i := Without(b0[i], p)], b1, hash, m - {e.key})
  {
    hide Home;
    var key, c := b0[i][p].key, Without(b0[i], p);
    var b := b0[i := c];
    LookupAt(b0[i], hash, |b0|, i, p);
    assert Either(Get(b0, hash, key), Get(b1, hash, key)) == Some(MapGet(m, key));
    Cut(b0[i], hash, |b0|, i, p);
    forall k ensures Get(b, hash, k) == if k == key then None else Get(b0, hash, k) {
      GetUpdated(b0, hash, i, c, k);
    }
    TotalUpdate(b0, i, c);
    assert m.Keys == (m - {key}).Keys + {key};
    Changed(b0, b, b1, hash, m, m - {key}, key);
  }

  /** Overwrite the value of one entry. */
  lemma Overwritten<K(!new), V>(b0: seq<Chain<K, V>>, b1: seq<Chain<K, V>>, hash: K -> bv64,
                                m: map<K, V>, i: nat, p: nat, val: V)
    requires Represents(b0, b1, hash, m) && i < |b0| && p < |b0[i]|
    ensures var key := b0[i][p].key;
            key in m && Represents(b0[i := b0[i][p := Entry(key, val)]], b1, hash, m[key := val])
  {
    hide Home;
    var key := b0[i][p].key;
    var c := b0[i][p := Entry(key, val)];
    var b := b0[i := c];
    LookupAt(b0[i], hash, |b0|, i, p);
    assert Either(Get(b0, hash, key), Get(b1, hash, key)) == Some(MapGet(m, key));
    Set(b0[i], hash, |b0|, i, p, val);
    forall k ensures Get(b, hash, k) == if k == key then Some(val) else Get(b0, hash, k) {
      GetUpdated(b0, hash, i, c, k);
    }
    TotalUpdate(b0, i, c);
    assert m.Keys == m[key := val].Keys;
    Changed(b0, b, b1, hash, m, m[key := val], key);
  }

  /** Move the first entry of a chain to the other array. */
  lemma Moved<K(!new), V>(b0: seq<Chain<K, V>>, b1: seq<Chain<K, V>>, hash: K -> bv64,
                          m: map<K, V>, i: nat)
    requires Represents(b0, b1, hash, m) && i < |b0| && |b0[i]| > 0 && |b1| > 0
    ensures var e := b0[i][0];
            var h := Home(hash(e.key), |b1|);
            Represents(b0[i := b0[i][1..]], b1[h := [e] + b1[h]], hash, m)
  {
    hide Home, Represents;
    var e := b0[i][0];
    Unlinked(b0, b1, hash, m, i, 0);
    var c := b0[i := b0[i][1..]];
    assert Without(b0[i], 0) == b0[i][1..];
    Swapped(c, b1, hash, m - {e.key});
    Pushed(b1, c, hash, m - {e.key}, e.key, e.val);
    assert (m - {e.key})[e.key := e.val] == m;
    var h := Home(hash(e.key), |b1|);
    Swapped(b1[h := [e] + b1[h]], c, hash, m);
  }

  /** An array of empty chains holds nothing. */
  lemma EmptyArray<K(!new), V>(b0: seq<Chain<K, V>>, b: seq<Chain<K, V>>, hash: K -> bv64, m: map<K, V>)
    requires Represents(b0, [], hash, m)
    requires forall i | 0 <= i < |b| :: b[i] == []
    ensures Represents(b0, b, hash, m) && Total(b) == 0
  {
    TotalZero(b);
    assert forall k :: Get(b, hash, k) == None && Get<K, V>([], hash, k) == None;
  }
}
