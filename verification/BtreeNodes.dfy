/** Nodes of the on-disk B-tree as 252 bytes, and the order of their keys; src/tree/btree.c. */
module BtreeNodes {
  import opened Bytes
  import opened Options
  import opened LittleEndian
  import opened Memory
  import opened DiskImages

  const BTREE_MAX_KEYS: nat := 7
  const BTREE_NODE_SIZE: nat := 252

  /** Where the fields of a node start. */
  const KEYS_POS: nat := 16
  const VALUES_POS: nat := 128
  const CHILDREN_POS: nat := 184
  const END_MARK_POS: nat := 248

  type Key = k: seq<Byte> | |k| == 16 witness seq(16, _ => 0)

  /** `memcmp` on blocks of one length. */
  function Memcmp(a: seq<Byte>, b: seq<Byte>): int
    requires |a| == |b|
  {
    if a == [] then 0 else if a[0] != b[0] then a[0] - b[0] else Memcmp(a[1..], b[1..])
  }

  /** `memcmp` compares the numbers that the blocks spell. */
  lemma {:induction false} MemcmpOrder(a: seq<Byte>, b: seq<Byte>)
    requires |a| == |b|
    ensures Memcmp(a, b) < 0 <==> Number(a) < Number(b)
    ensures Memcmp(a, b) == 0 <==> a == b
    ensures Memcmp(a, b) == 0 <==> Number(a) == Number(b)
  {
    if a != [] {
      var (x, y) := (a[1..], b[1..]);
      assert a == [a[0]] + x && b == [b[0]] + y;
      NumberFirst(a[0], x);
      NumberFirst(b[0], y);
      NumberBound(x);
      NumberBound(y);
      MemcmpOrder(x, y);
      if a[0] < b[0] { HigherDigit(a[0], b[0], Number(x), Number(y), Pow256(|x|)); }
      if b[0] < a[0] { HigherDigit(b[0], a[0], Number(y), Number(x), Pow256(|x|)); }
    }
  }

  lemma HigherDigit(c: nat, d: nat, u: nat, v: nat, p: nat)
    requires c < d && u < p
    ensures c * p + u < d * p + v
  {
    assert (c + 1) * p <= d * p;
  }

  // ---------------------------------------------------------------- fields

  /** A node in memory: `struct btree_node`. */
  datatype Rec = Rec(numkeys: nat, isleaf: nat, keys: seq<Key>, values: seq<nat>, children: seq<nat>)

  ghost predicate Storable(r: Rec) {
    && r.numkeys < 0x1_0000_0000 && r.isleaf < 0x1_0000_0000
    && |r.keys| == BTREE_MAX_KEYS && |r.values| == BTREE_MAX_KEYS && |r.children| == BTREE_MAX_KEYS + 1
    && (forall v | v in r.values :: v < 2 * POW63) && (forall c | c in r.children :: c < 2 * POW63)
  }

  function FreshRec(): (r: Rec)
    ensures Storable(r) && r.numkeys == 0 && r.isleaf == 0
  {
    Rec(0, 0, seq(7, _ => seq(16, _ => 0)), seq(7, _ => 0), seq(8, _ => 0))
  }

  function Flat(parts: seq<seq<Byte>>): seq<Byte> {
    if parts == [] then [] else parts[0] + Flat(parts[1..])
  }

  function BigAll(s: seq<nat>): seq<seq<Byte>> {
    seq(|s|, i requires 0 <= i < |s| => Big(s[i], 8))
  }

  function EncodeHead(mark: nat, r: Rec): (b: seq<Byte>)
    ensures |b| == KEYS_POS && b[..4] == Big(mark, 4) && b[4..8] == Big(r.numkeys, 4) && b[8..12] == Big(r.isleaf, 4)
    ensures b[12..16] == Big(0, 4)
  {
    Big(mark, 4) + Big(r.numkeys, 4) + Big(r.isleaf, 4) + Big(0, 4)
  }

  /** The image `btree_write_node` writes. */
  function EncodeNode(mark: nat, r: Rec): (b: seq<Byte>) {
    EncodeHead(mark, r)
    + (Flat(r.keys) + (Flat(BigAll(r.values)) + (Flat(BigAll(r.children)) + Big(mark, 4))))
  }

  function KeyAt(b: seq<Byte>, i: nat): Key
    requires |b| == BTREE_NODE_SIZE && i < 7
  {
    b[KEYS_POS + 16 * i..KEYS_POS + 16 * i + 16]
  }

  function ValueAt(b: seq<Byte>, i: nat): nat
    requires |b| == BTREE_NODE_SIZE && i < 7
  {
    Number(b[VALUES_POS + 8 * i..VALUES_POS + 8 * i + 8])
  }

  function ChildAt(b: seq<Byte>, i: nat): nat
    requires |b| == BTREE_NODE_SIZE && i < 8
  {
    Number(b[CHILDREN_POS + 8 * i..CHILDREN_POS + 8 * i + 8])
  }

  /** What `btree_read_node` makes of 252 bytes: nothing when the marks differ. */
  function DecodeNode(b: seq<Byte>): Option<Rec>
    requires |b| == BTREE_NODE_SIZE
  {
    if b[..4] != b[END_MARK_POS..] then None
    else Some(Rec(Number(b[4..8]), Number(b[8..12]),
                  seq(7, i requires 0 <= i < 7 => KeyAt(b, i)),
                  seq(7, i requires 0 <= i < 7 => ValueAt(b, i)),
                  seq(8, i requires 0 <= i < 8 => ChildAt(b, i))))
  }

  lemma {:induction false} FlatLength(parts: seq<seq<Byte>>, w: nat)
    requires forall p | p in parts :: |p| == w
    ensures |Flat(parts)| == w * |parts|
  {
    if parts != [] {
      FlatLength(parts[1..], w);
      Times(w, |parts| - 1);
    }
  }

  lemma Times(w: nat, n: nat)
    ensures w * (n + 1) == w * n + w
  {
  }

  lemma {:induction false} FlatSplit(parts: seq<seq<Byte>>, i: nat)
    requires i < |parts|
    ensures Flat(parts) == Flat(parts[..i]) + parts[i] + Flat(parts[i + 1..])
  {
    if i > 0 {
      FlatSplit(parts[1..], i - 1);
      assert parts[1..][..i - 1] == parts[..i][1..];
      assert parts[1..][i..] == parts[i + 1..];
    } else {
      assert parts[..0] == [] && Flat(parts[..0]) == [];
    }
  }

  lemma FlatAt(parts: seq<seq<Byte>>, w: nat, i: nat)
    requires (forall p | p in parts :: |p| == w) && i < |parts|
    ensures |Flat(parts)| == w * |parts| && w * i + w <= w * |parts| && Flat(parts)[w * i..w * i + w] == parts[i]
  {
    hide Flat;
    FlatSplit(parts, i);
    FlatLength(parts, w);
    FlatLength(parts[..i], w);
    Middle(Flat(parts[..i]), parts[i], Flat(parts[i + 1..]));
  }

  lemma Middle(a: seq<Byte>, b: seq<Byte>, c: seq<Byte>)
    ensures (a + b + c)[|a|..|a| + |b|] == b
  {
  }

  lemma WordsAt(s: seq<nat>, i: nat)
    requires i < |s| && forall v | v in s :: v < 2 * POW63
    ensures |Flat(BigAll(s))| == 8 * |s| && Number(Flat(BigAll(s))[8 * i..8 * i + 8]) == s[i]
  {
    hide Pow256, Big, Flat, Number;
    FlatAt(BigAll(s), 8, i);
    assert s[i] in s;
    Widths();
    NumberBig(s[i], 8);
  }

  /** The parts of an encoded node, in their places. */
  lemma EncodedParts(mark: nat, r: Rec)
    requires Storable(r)
    ensures var b := EncodeNode(mark, r);
            && |b| == BTREE_NODE_SIZE && b[..4] == Big(mark, 4) == b[END_MARK_POS..]
            && b[4..8] == Big(r.numkeys, 4) && b[8..12] == Big(r.isleaf, 4) && b[12..16] == Big(0, 4)
            && b[KEYS_POS..VALUES_POS] == Flat(r.keys)
            && b[VALUES_POS..CHILDREN_POS] == Flat(BigAll(r.values))
            && b[CHILDREN_POS..END_MARK_POS] == Flat(BigAll(r.children))
  {
    hide Flat, Big, BigAll, EncodeHead;
    FlatAt(r.keys, 16, 0);
    WordsAt(r.values, 0);
    WordsAt(r.children, 0);
    var b := EncodeNode(mark, r);
    var (h, k, v, c, m) := (EncodeHead(mark, r), Flat(r.keys), Flat(BigAll(r.values)), Flat(BigAll(r.children)),
      Big(mark, 4));
    Halves(c, m);
    Halves(v, c + m);
    Halves(k, v + (c + m));
    Halves(h, k + (v + (c + m)));
    Cut(b, 16, 0, 4);
    Cut(b, 16, 4, 8);
    Cut(b, 16, 8, 12);
    Cut(b, 16, 12, 16);
    Tail(b, 16, 112);
    Tail(b, 128, 56);
    Tail(b, 184, 64);
  }

  lemma Halves(a: seq<Byte>, b: seq<Byte>)
    ensures (a + b)[..|a|] == a && (a + b)[|a|..] == b
  {
  }

  lemma Cut(b: seq<Byte>, n: nat, c: nat, d: nat)
    requires c <= d <= n <= |b|
    ensures b[..n][c..d] == b[c..d] && b[..n][..d] == b[..d]
  {
  }

  lemma Tail(b: seq<Byte>, n: nat, d: nat)
    requires n + d <= |b|
    ensures b[n..][..d] == b[n..n + d] && b[n..][d..] == b[n + d..]
  {
  }

  lemma SliceOfSlice(b: seq<Byte>, lo: nat, hi: nat, d: nat, n: nat)
    requires lo <= hi <= |b| && lo + d + n <= hi
    ensures b[lo..hi][d..d + n] == b[lo + d..lo + d + n]
  {
    var (x, y) := (b[lo..hi][d..d + n], b[lo + d..lo + d + n]);
    assert |x| == |y| && forall k | 0 <= k < n :: x[k] == b[lo..hi][d + k] == y[k];
  }

  /** The bytes of a node on disk: numbers have their most significant bytes first. */
  lemma NodeFormat(mark: nat, r: Rec)
    requires Storable(r)
    ensures var b := EncodeNode(mark, r);
            && |b| == 252 && b[0..4] == b[248..252] == Big(mark, 4)
            && b[4..8] == Big(r.numkeys, 4) && b[8..12] == Big(r.isleaf, 4) && b[12..16] == [0, 0, 0, 0]
            && (forall i | 0 <= i < 7 :: b[16 + 16 * i..32 + 16 * i] == r.keys[i])
            && (forall i | 0 <= i < 7 :: b[128 + 8 * i..136 + 8 * i] == Big(r.values[i], 8))
            && forall i | 0 <= i < 8 :: b[184 + 8 * i..192 + 8 * i] == Big(r.children[i], 8)
  {
    hide Flat, Big, BigAll, EncodeNode;
    EncodedParts(mark, r);
    FourZeros();
    var b := EncodeNode(mark, r);
    forall i | 0 <= i < 7
      ensures b[16 + 16 * i..32 + 16 * i] == r.keys[i] && b[128 + 8 * i..136 + 8 * i] == Big(r.values[i], 8)
    {
      FlatAt(r.keys, 16, i);
      SliceOfSlice(b, KEYS_POS, VALUES_POS, 16 * i, 16);
      BytesAt(r.values, i);
      SliceOfSlice(b, VALUES_POS, CHILDREN_POS, 8 * i, 8);
    }
    forall i | 0 <= i < 8 ensures b[184 + 8 * i..192 + 8 * i] == Big(r.children[i], 8) {
      BytesAt(r.children, i);
      SliceOfSlice(b, CHILDREN_POS, END_MARK_POS, 8 * i, 8);
    }
  }

  lemma FourZeros()
    ensures Big(0, 4) == [0, 0, 0, 0]
  {
    assert Big(0, 2) == [0, 0];
  }

  lemma BytesAt(s: seq<nat>, i: nat)
    requires i < |s|
    ensures |Flat(BigAll(s))| == 8 * |s| && Flat(BigAll(s))[8 * i..8 * i + 8] == Big(s[i], 8)
  {
    hide Big, Flat;
    FlatAt(BigAll(s), 8, i);
  }

  /** Reading a node back. */
  lemma DecodeEncodeNode(mark: nat, r: Rec)
    requires Storable(r)
    ensures |EncodeNode(mark, r)| == BTREE_NODE_SIZE && DecodeNode(EncodeNode(mark, r)) == Some(r)
  {
    hide Flat, Big, BigAll, EncodeNode, Number, Pow256;
    EncodedParts(mark, r);
    var b := EncodeNode(mark, r);
    Widths();
    NumberBig(r.numkeys, 4);
    NumberBig(r.isleaf, 4);
    var d := DecodeNode(b).value;
    forall i | 0 <= i < 7 ensures d.keys[i] == r.keys[i] && d.values[i] == r.values[i] {
      FlatAt(r.keys, 16, i);
      SliceOfSlice(b, KEYS_POS, VALUES_POS, 16 * i, 16);
      WordsAt(r.values, i);
      SliceOfSlice(b, VALUES_POS, CHILDREN_POS, 8 * i, 8);
    }
    forall i | 0 <= i < 8 ensures d.children[i] == r.children[i] {
      WordsAt(r.children, i);
      SliceOfSlice(b, CHILDREN_POS, END_MARK_POS, 8 * i, 8);
    }
    assert d.keys == r.keys && d.values == r.values && d.children == r.children;
  }

  // ---------------------------------------------------------------- one pointer overwritten

  /** One child pointer replaced in place. */
  lemma ChildPatched(b: seq<Byte>, i: nat, v: nat)
    requires |b| == BTREE_NODE_SIZE && i < 8 && v < 2 * POW63 && DecodeNode(b).Some?
    ensures var r := DecodeNode(b).value;
            DecodeNode(Patched(b, CHILDREN_POS + 8 * i, Big(v, 8))) == Some(r.(children := r.children[i := v]))
  {
    hide Patched, Big, Number, Pow256;
    var c := Patched(b, CHILDREN_POS + 8 * i, Big(v, 8));
    PatchElsewhere(b, CHILDREN_POS + 8 * i, Big(v, 8));
    Widths();
    NumberBig(v, 8);
    FixedParts(b, c, CHILDREN_POS + 8 * i);
    var (r, q) := (DecodeNode(b).value, DecodeNode(c).value);
    forall k | 0 <= k < 7 ensures q.keys[k] == r.keys[k] && q.values[k] == r.values[k] {
      assert c[KEYS_POS + 16 * k..KEYS_POS + 16 * k + 16] == b[KEYS_POS + 16 * k..KEYS_POS + 16 * k + 16];
      assert c[VALUES_POS + 8 * k..VALUES_POS + 8 * k + 8] == b[VALUES_POS + 8 * k..VALUES_POS + 8 * k + 8];
    }
    forall k | 0 <= k < 8 ensures q.children[k] == r.children[i := v][k] {
      if k != i {
        assert c[CHILDREN_POS + 8 * k..CHILDREN_POS + 8 * k + 8] == b[CHILDREN_POS + 8 * k..CHILDREN_POS + 8 * k + 8];
      }
    }
    assert q.keys == r.keys && q.values == r.values && q.children == r.children[i := v];
  }

  /** One value pointer replaced in place. */
  lemma ValuePatched(b: seq<Byte>, i: nat, v: nat)
    requires |b| == BTREE_NODE_SIZE && i < 7 && v < 2 * POW63 && DecodeNode(b).Some?
    ensures var r := DecodeNode(b).value;
            DecodeNode(Patched(b, VALUES_POS + 8 * i, Big(v, 8))) == Some(r.(values := r.values[i := v]))
  {
    hide Patched, Big, Number, Pow256;
    var c := Patched(b, VALUES_POS + 8 * i, Big(v, 8));
    PatchElsewhere(b, VALUES_POS + 8 * i, Big(v, 8));
    Widths();
    NumberBig(v, 8);
    FixedParts(b, c, VALUES_POS + 8 * i);
    var (r, q) := (DecodeNode(b).value, DecodeNode(c).value);
    forall k | 0 <= k < 7 ensures q.keys[k] == r.keys[k] && q.values[k] == r.values[i := v][k] {
      assert c[KEYS_POS + 16 * k..KEYS_POS + 16 * k + 16] == b[KEYS_POS + 16 * k..KEYS_POS + 16 * k + 16];
      if k != i {
        assert c[VALUES_POS + 8 * k..VALUES_POS + 8 * k + 8] == b[VALUES_POS + 8 * k..VALUES_POS + 8 * k + 8];
      }
    }
    forall k | 0 <= k < 8 ensures q.children[k] == r.children[k] {
      assert c[CHILDREN_POS + 8 * k..CHILDREN_POS + 8 * k + 8] == b[CHILDREN_POS + 8 * k..CHILDREN_POS + 8 * k + 8];
    }
    assert q.keys == r.keys && q.values == r.values[i := v] && q.children == r.children;
  }

  /** Marks and counts stay when a word between them is written. */
  lemma FixedParts(b: seq<Byte>, c: seq<Byte>, o: nat)
    requires |b| == BTREE_NODE_SIZE && VALUES_POS <= o && o + 8 <= END_MARK_POS && Elsewhere(b, c, o, 8)
    ensures |c| == |b| && c[..4] == b[..4] && c[4..8] == b[4..8] && c[8..12] == b[8..12]
            && c[END_MARK_POS..] == b[END_MARK_POS..]
  {
    assert c[0..4] == b[0..4];
    assert c[END_MARK_POS..|c|] == b[END_MARK_POS..|b|];
  }
}
