/** Integers in memory: fixed numbers of bytes, least significant first, two's complement. */
module LittleEndian {
  import opened Bytes

  function Pow256(n: nat): (p: nat)
    ensures p > 0
  {
    if n == 0 then 1 else 256 * Pow256(n - 1)
  }

  function Unsigned(b: seq<Byte>): nat {
    if b == [] then 0 else b[0] + 256 * Unsigned(b[1..])
  }

  function Encode(u: nat, n: nat): (b: seq<Byte>)
    ensures |b| == n
  {
    if n == 0 then [] else [u % 256] + Encode(u / 256, n - 1)
  }

  lemma {:induction false} UnsignedBound(b: seq<Byte>)
    ensures Unsigned(b) < Pow256(|b|)
  {
    if b != [] { UnsignedBound(b[1..]); }
  }

  lemma {:induction false} DecodeEncode(u: nat, n: nat)
    requires u < Pow256(n)
    ensures Unsigned(Encode(u, n)) == u
  {
    if n > 0 {
      DecodeEncode(u / 256, n - 1);
      assert Encode(u, n)[1..] == Encode(u / 256, n - 1);
    }
  }

  lemma {:induction false} EncodeDecode(b: seq<Byte>)
    ensures Encode(Unsigned(b), |b|) == b
  {
    if b != [] {
      EncodeDecode(b[1..]);
      DigitAndRest(b[0], Unsigned(b[1..]));
      assert b == [b[0]] + b[1..];
    }
  }

  /** Byte `i` is digit `i` of the number in base 256, counted from the least significant one. */
  lemma {:induction false} DigitAt(u: nat, n: nat, i: nat)
    requires i < n
    ensures Encode(u, n)[i] == u / Pow256(i) % 256
  {
    if i > 0 {
      DigitAt(u / 256, n - 1, i - 1);
      DivTwice(u, Pow256(i - 1));
    }
  }

  lemma DivTwice(u: nat, p: nat)
    requires p > 0
    ensures 256 * p > 0 && u / 256 / p == u / (256 * p)
  {
    var (q, r) := (u / 256 / p, u / 256 % p);
    assert u / 256 == q * p + r;
    assert u == q * (256 * p) + (256 * r + u % 256);
    Quotient(u, 256 * p, q, 256 * r + u % 256);
  }

  lemma Quotient(u: nat, d: nat, q: nat, r: nat)
    requires d > 0 && u == q * d + r && r < d
    ensures u / d == q
  {
    var (x, y) := (u / d, u % d);
    assert u == x * d + y;
    if x < q { Gap(x, q, d); } else if q < x { Gap(q, x, d); }
  }

  lemma Gap(a: nat, b: nat, d: nat)
    requires a < b
    ensures a * d + d <= b * d
  {
    var c: nat := b - a - 1;
    Spread3(a, c, d);
    assert b == a + 1 + c;
  }

  lemma Spread3(a: nat, c: nat, d: nat)
    ensures (a + 1 + c) * d == a * d + d + c * d && c * d >= 0
  {
  }

  /** Two, three, four and eight bytes, the least significant one first. */
  lemma BytesOf(b: seq<Byte>)
    ensures |b| == 2 ==> Unsigned(b) == b[0] as nat + 0x100 * (b[1] as nat)
    ensures |b| == 3 ==> Unsigned(b) == b[0] as nat + 0x100 * (b[1] as nat) + 0x1_0000 * (b[2] as nat)
    ensures |b| == 4 ==>
            Unsigned(b) == b[0] as nat + 0x100 * (b[1] as nat) + 0x1_0000 * (b[2] as nat) + 0x100_0000 * (b[3] as nat)
    ensures |b| == 8 ==>
              Unsigned(b) == b[0] as nat + 0x100 * (b[1] as nat) + 0x1_0000 * (b[2] as nat)
                + 0x100_0000 * (b[3] as nat) + 0x1_0000_0000 * (b[4] as nat)
                             + 0x100_0000_0000 * (b[5] as nat) + 0x1_0000_0000_0000 * (b[6] as nat)
                               + 0x100_0000_0000_0000 * (b[7] as nat)
  {
    if 2 <= |b| <= 4 {
      FewBytes(b);
    } else if |b| == 8 {
      FewBytes(b[4..]);
      FewBytes(b[..4]);
      assert b == b[..4] + b[4..];
      UnsignedJoin(b[..4], b[4..]);
      Widths();
    }
  }

  lemma FewBytes(b: seq<Byte>)
    requires 2 <= |b| <= 4
    ensures |b| == 2 ==> Unsigned(b) == b[0] as nat + 0x100 * (b[1] as nat)
    ensures |b| == 3 ==> Unsigned(b) == b[0] as nat + 0x100 * (b[1] as nat) + 0x1_0000 * (b[2] as nat)
    ensures |b| == 4 ==>
            Unsigned(b) == b[0] as nat + 0x100 * (b[1] as nat) + 0x1_0000 * (b[2] as nat) + 0x100_0000 * (b[3] as nat)
  {
    assert Unsigned(b) == b[0] as nat + 256 * Unsigned(b[1..]);
    assert Unsigned(b[1..]) == b[1] + 256 * Unsigned(b[1..][1..]) && b[1..][1..] == b[2..];
    if |b| > 2 { assert Unsigned(b[2..]) == b[2] + 256 * Unsigned(b[2..][1..]) && b[2..][1..] == b[3..]; }
    if |b| > 3 { assert Unsigned(b[3..]) == b[3] + 256 * Unsigned(b[3..][1..]); }
  }

  lemma {:induction false} UnsignedJoin(a: seq<Byte>, b: seq<Byte>)
    ensures Unsigned(a + b) == Unsigned(a) + Pow256(|a|) * Unsigned(b)
  {
    if a == [] {
      assert a + b == b;
    } else {
      UnsignedJoin(a[1..], b);
      assert (a + b)[1..] == a[1..] + b;
      Regroup(Pow256(|a| - 1), Unsigned(b));
    }
  }

  lemma Regroup(p: nat, u: nat)
    ensures 256 * (p * u) == (256 * p) * u
  {
  }

  lemma DigitAndRest(d: Byte, u: nat)
    ensures (d + 256 * u) % 256 == d && (d + 256 * u) / 256 == u
  {
  }

  /** The values that `n` bytes can hold with a sign. */
  predicate Fits(v: int, n: nat) {
    0 <= 2 * v + Pow256(n) < 2 * Pow256(n)
  }

  function Signed(b: seq<Byte>): int {
    if 2 * Unsigned(b) < Pow256(|b|) then Unsigned(b) else Unsigned(b) - Pow256(|b|)
  }

  function Pack(v: int, n: nat): (b: seq<Byte>)
    requires Fits(v, n)
    ensures |b| == n
  {
    Encode(if v < 0 then v + Pow256(n) else v, n)
  }

  lemma UnpackPack(v: int, n: nat)
    requires Fits(v, n)
    ensures Signed(Pack(v, n)) == v
  {
    DecodeEncode(if v < 0 then v + Pow256(n) else v, n);
  }

  lemma SignedFits(b: seq<Byte>)
    ensures Fits(Signed(b), |b|)
  {
    UnsignedBound(b);
  }

  lemma {:induction false} PowGrows(m: nat, n: nat)
    requires m <= n
    ensures Pow256(m) <= Pow256(n)
  {
    if m < n { PowGrows(m, n - 1); }
  }

  lemma FitsMore(v: int, m: nat, n: nat)
    requires Fits(v, m) && m <= n
    ensures Fits(v, n)
  {
    PowGrows(m, n);
  }

  lemma Widths()
    ensures Pow256(1) == 0x100 && Pow256(2) == 0x1_0000 && Pow256(3) == 0x100_0000
    ensures Pow256(4) == 0x1_0000_0000 && Pow256(8) == 0x1_0000_0000_0000_0000
  {
    assert Pow256(4) == 0x1_0000_0000;
    assert Pow256(5) == 0x100_0000_0000;
    assert Pow256(8) == 0x1_0000_0000_0000_0000;
  }
}
