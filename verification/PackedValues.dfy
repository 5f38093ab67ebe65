/** Arrays of signed integers packed into bytes, all of the same width. */
module PackedValues {
  import opened Bytes
  import opened LittleEndian
  import opened Memory

  predicate Width(w: nat) {
    w == 2 || w == 4 || w == 8
  }

  /** The bytes of the record at `pos`. */
  function Slot(b: seq<Byte>, w: nat, pos: nat): (s: seq<Byte>)
    requires Width(w) && (pos + 1) * w <= |b|
    ensures |s| == w
  {
    SlotRange(w, pos);
    b[pos * w..pos * w + w]
  }

  lemma SlotRange(w: nat, pos: nat)
    requires Width(w)
    ensures (pos + 1) * w == pos * w + w && 0 <= pos * w
  {
  }

  function ValueAt(b: seq<Byte>, w: nat, pos: nat): int
    requires Width(w) && (pos + 1) * w <= |b|
  {
    Signed(Slot(b, w, pos))
  }

  lemma Ordered(w: nat, i: nat, n: nat)
    requires Width(w) && i < n
    ensures (i + 1) * w <= n * w && i * w < n * w
  {
  }

  /** The first `n` records. */
  function Values(b: seq<Byte>, w: nat, n: nat): (s: seq<int>)
    requires Width(w) && n * w <= |b|
    ensures |s| == n
  {
    seq(n, i requires 0 <= i < n => (Ordered(w, i, n); ValueAt(b, w, i)))
  }

  lemma SamePart(b: seq<Byte>, c: seq<Byte>, w: nat, pos: nat)
    requires Width(w) && (pos + 1) * w <= |b| && (pos + 1) * w <= |c|
    requires forall i | pos * w <= i < pos * w + w :: i < |b| && i < |c| && b[i] == c[i]
    ensures ValueAt(b, w, pos) == ValueAt(c, w, pos)
  {
    SlotRange(w, pos);
    assert Slot(b, w, pos) == Slot(c, w, pos);
  }

  lemma Apart(w: nat, i: nat, j: nat)
    requires Width(w) && i != j
    ensures i * w + w <= j * w || j * w + w <= i * w
  {
  }

  /** One record set, all others kept. */
  lemma PatchedValue(b: seq<Byte>, w: nat, pos: nat, v: int, k: nat)
    requires Width(w) && Fits(v, w) && (pos + 1) * w <= |b| && (k + 1) * w <= |b|
    ensures ValueAt(Patched(b, pos * w, Pack(v, w)), w, k) == if k == pos then v else ValueAt(b, w, k)
  {
    hide Fits, Pack, Signed;
    SlotRange(w, pos);
    SlotRange(w, k);
    var c := Patched(b, pos * w, Pack(v, w));
    if k == pos {
      assert Slot(c, w, k) == Pack(v, w);
      UnpackPack(v, w);
    } else {
      Apart(w, k, pos);
      SamePart(b, c, w, k);
    }
  }
}
