/** Files as byte strings: big-endian integers, writes at an offset, and what a write leaves alone;
    the helpers of src/tree/btree.c. */
module DiskImages {
  import opened Bytes
  import opened LittleEndian
  import opened Memory

  type Image = seq<Byte>

  const POW63: nat := 0x8000_0000_0000_0000

  // ---------------------------------------------------------------- numbers

  /** `n` bytes, most significant first. */
  function Big(u: nat, n: nat): (b: seq<Byte>)
    ensures |b| == n
  {
    if n == 0 then [] else Big(u / 256, n - 1) + [u % 256]
  }

  function Number(b: seq<Byte>): nat {
    if b == [] then 0 else 256 * Number(b[..|b| - 1]) + b[|b| - 1]
  }

  lemma {:induction false} NumberBig(u: nat, n: nat)
    requires u < Pow256(n)
    ensures Number(Big(u, n)) == u
  {
    if n > 0 {
      NumberBig(u / 256, n - 1);
      var b := Big(u, n);
      assert b[..n - 1] == Big(u / 256, n - 1);
    }
  }

  /** Byte `i` of `n` is the digit in base 256 with `n - 1 - i` less significant ones behind it. */
  lemma {:induction false} BigDigitAt(u: nat, n: nat, i: nat)
    requires i < n
    ensures Big(u, n)[i] == u / Pow256(n - 1 - i) % 256
  {
    if i < n - 1 {
      BigDigitAt(u / 256, n - 1, i);
      DivTwice(u, Pow256(n - 2 - i));
    }
  }

  lemma {:induction false} NumberBound(b: seq<Byte>)
    ensures Number(b) < Pow256(|b|)
  {
    if b != [] { NumberBound(b[..|b| - 1]); }
  }

  /** Byte strings of one length are told apart by their numbers. */
  lemma {:induction false} NumberInjective(a: seq<Byte>, b: seq<Byte>)
    requires |a| == |b| && Number(a) == Number(b)
    ensures a == b
  {
    if a != [] {
      var (c, d) := (a[..|a| - 1], b[..|b| - 1]);
      DigitAndRest(a[|a| - 1], Number(c));
      DigitAndRest(b[|b| - 1], Number(d));
      NumberInjective(c, d);
      assert a == c + [a[|a| - 1]] && b == d + [b[|b| - 1]];
    }
  }

  /** The first byte decides before the others do. */
  lemma {:induction false} NumberFirst(x: Byte, b: seq<Byte>)
    ensures Number([x] + b) == x * Pow256(|b|) + Number(b)
  {
    if b == [] {
      assert [x] + b == [x];
      assert Number([x][..0]) == 0;
    } else {
      var (c, last) := (b[..|b| - 1], b[|b| - 1]);
      NumberFirst(x, c);
      var w := [x] + b;
      assert w[..|w| - 1] == [x] + c;
      Spread(x, Pow256(|c|));
    }
  }

  lemma Spread(x: nat, p: nat)
    ensures 256 * (x * p) == x * (256 * p)
  {
  }

  // ---------------------------------------------------------------- words of a file

  /** The 64-bit number at an offset. */
  function Word(img: Image, o: nat): nat {
    if o + 8 <= |img| then Number(img[o..o + 8]) else 0
  }

  /** What a write of `n` bytes at `o` leaves alone. */
  ghost predicate Elsewhere(old_: Image, new_: Image, o: nat, n: nat) {
    && |new_| == |old_| && o + n <= |old_|
    && forall a: nat, b: nat | a <= b <= |old_| && (b <= o || o + n <= a) :: new_[a..b] == old_[a..b]
  }

  lemma PatchElsewhere(img: Image, o: nat, s: seq<Byte>)
    requires o + |s| <= |img|
    ensures Elsewhere(img, Patched(img, o, s), o, |s|)
    ensures Patched(img, o, s)[o..o + |s|] == s
  {
    var p := Patched(img, o, s);
    forall a: nat, b: nat | a <= b <= |img| && (b <= o || o + |s| <= a) ensures p[a..b] == img[a..b] {
      var (u, v) := (p[a..b], img[a..b]);
      forall i | 0 <= i < b - a ensures u[i] == v[i] {
        assert u[i] == p[a + i] && v[i] == img[a + i];
      }
    }
  }

  lemma WordElsewhere(img: Image, new_: Image, o: nat, n: nat, a: nat)
    requires Elsewhere(img, new_, o, n) && (a + 8 <= o || o + n <= a)
    ensures Word(new_, a) == Word(img, a)
  {
  }

  lemma WordWritten(img: Image, o: nat, v: nat)
    requires o + 8 <= |img| && v < 2 * POW63
    ensures Word(Patched(img, o, Big(v, 8)), o) == v
    ensures Elsewhere(img, Patched(img, o, Big(v, 8)), o, 8)
  {
    hide Patched, Elsewhere, Pow256;
    PatchElsewhere(img, o, Big(v, 8));
    Widths();
    NumberBig(v, 8);
  }

  /** A piece of a kept piece is kept. */
  lemma SlicePart(x: Image, y: Image, a: nat, b: nat, c: nat, d: nat)
    requires a <= c <= d <= b <= |x| && b <= |y| && x[a..b] == y[a..b]
    ensures x[c..d] == y[c..d]
  {
    var (u, v) := (x[c..d], y[c..d]);
    forall i | 0 <= i < d - c ensures u[i] == v[i] {
      assert u[i] == x[c + i] == x[a..b][c + i - a] && v[i] == y[c + i] == y[a..b][c + i - a];
    }
  }

  lemma WordPart(x: Image, y: Image, a: nat, b: nat, o: nat)
    requires a <= o && o + 8 <= b <= |x| && b <= |y| && x[a..b] == y[a..b]
    ensures Word(x, o) == Word(y, o)
  {
    SlicePart(x, y, a, b, o, o + 8);
  }
}
