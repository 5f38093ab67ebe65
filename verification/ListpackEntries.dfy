/** The entries of a listpack, src/list/listpack.c:49-117 and 210-370: an element encoded as an
    integer or as a string, followed by its length, which is read from the right. */
module ListpackEntries {
  import opened Bytes
  import opened Options
  import opened LittleEndian
  import opened Decimals

  type Str = seq<Byte>

  const LP_ENCODING_6BIT_STR: Byte := 0x80
  const LP_ENCODING_13BIT_INT: Byte := 0xC0
  const LP_ENCODING_12BIT_STR: Byte := 0xE0
  const LP_ENCODING_32BIT_STR: Byte := 0xF0
  const LP_ENCODING_16BIT_INT: Byte := 0xF1
  const LP_ENCODING_24BIT_INT: Byte := 0xF2
  const LP_ENCODING_32BIT_INT: Byte := 0xF3
  const LP_ENCODING_64BIT_INT: Byte := 0xF4
  const LP_EOF: Byte := 0xFF

  const UINT32_MAX: nat := 0xFFFF_FFFF

  predicate Is7BitUint(c: Byte) { c < 0x80 }
  predicate Is6BitStr(c: Byte) { LP_ENCODING_6BIT_STR <= c < LP_ENCODING_13BIT_INT }
  predicate Is13BitInt(c: Byte) { LP_ENCODING_13BIT_INT <= c < LP_ENCODING_12BIT_STR }
  predicate Is12BitStr(c: Byte) { LP_ENCODING_12BIT_STR <= c < LP_ENCODING_32BIT_STR }

  // ---------------------------------------------------------------- the length from the right

  function Pow128(n: nat): (p: nat)
    ensures p > 0
  {
    if n == 0 then 1 else 128 * Pow128(n - 1)
  }

  /** A number in `n` bytes of seven bits, most significant first; all but the first byte have the
      top bit set. */
  function Field(l: nat, n: nat): (b: seq<Byte>)
    requires n > 0 && l < Pow128(n)
    ensures |b| == n
    decreases n
  {
    if n == 1 then [l] else Field(l / 128, n - 1) + [l % 128 + 128]
  }

  /** The number of bytes that the source gives to a length. */
  function BackSize(l: nat): (n: nat)
    requires l < 0x8_0000_0000
    ensures 1 <= n <= 5 && l < Pow128(n)
  {
    Powers128();
    if l <= 127 then 1 else if l < 16383 then 2 else if l < 2097151 then 3 else if l < 268435455 then 4 else 5
  }

  lemma Powers128()
    ensures Pow128(1) == 128 && Pow128(2) == 16384 && Pow128(3) == 2097152
    ensures Pow128(4) == 268435456 && Pow128(5) == 0x8_0000_0000
  {
    assert Pow128(3) == 2097152;
    assert Pow128(5) == 0x8_0000_0000;
  }

  function Backlen(l: nat): (b: seq<Byte>)
    requires l < 0x8_0000_0000
    ensures |b| == BackSize(l)
  {
    Field(l, BackSize(l))
  }

  /** A field of `n` bytes that ends the string. */
  predicate EndsInField(b: seq<Byte>, n: nat) {
    && 1 <= n <= |b| && b[|b| - n] < 128
    && forall i | |b| - n < i < |b| :: b[i] >= 128
  }

  /** The number in the last `n` bytes, seven bits from each. */
  function FieldValue(b: seq<Byte>, n: nat): nat
    requires n <= |b|
  {
    if n == 0 then 0 else b[|b| - 1] as nat % 128 + 128 * FieldValue(b[..|b| - 1], n - 1)
  }

  /** Reading from the right undoes writing. */
  lemma {:induction false} FieldReads(a: seq<Byte>, l: nat, n: nat)
    requires n > 0 && l < Pow128(n)
    ensures EndsInField(a + Field(l, n), n) && FieldValue(a + Field(l, n), n) == l
    decreases n
  {
    var b := a + Field(l, n);
    if n == 1 {
      assert b[|b| - 1] == l;
    } else {
      FieldReads(a, l / 128, n - 1);
      assert b[..|b| - 1] == a + Field(l / 128, n - 1);
      assert b[|b| - 1] == l % 128 + 128;
      FieldGrows(a + Field(l / 128, n - 1), n - 1, l % 128 + 128);
      assert b == a + Field(l / 128, n - 1) + [l % 128 + 128];
    }
  }

  lemma FieldGrows(b: seq<Byte>, n: nat, c: Byte)
    requires EndsInField(b, n) && c >= 128
    ensures EndsInField(b + [c], n + 1)
  {
    var d := b + [c];
    forall i | |d| - (n + 1) < i < |d| ensures d[i] >= 128 {
      if i < |b| { assert d[i] == b[i]; }
    }
    assert d[|d| - (n + 1)] == b[|b| - n];
  }

  lemma BacklenReads(a: seq<Byte>, l: nat)
    requires l < 0x8_0000_0000
    ensures EndsInField(a + Backlen(l), BackSize(l)) && FieldValue(a + Backlen(l), BackSize(l)) == l
  {
    FieldReads(a, l, BackSize(l));
  }

  lemma Quotients(l: nat)
    ensures l / 128 / 128 == l / 16384 && l / 16384 / 128 == l / 2097152 && l / 2097152 / 128 == l / 268435456
  {
  }

  /** Encode a length. */
  method EncodeBacklen(l: nat) returns (buf: seq<Byte>)
    requires l < 0x8_0000_0000
    ensures buf == Backlen(l)
  {
    Quotients(l);
    Powers128();
    if l <= 127 {
      buf := [l];
    } else if l < 16383 {
      buf := [l / 128, l % 128 + 128];
    } else if l < 2097151 {
      buf := [l / 16384, l / 128 % 128 + 128, l % 128 + 128];
      FieldThree(l);
    } else if l < 268435455 {
      buf := [l / 2097152, l / 16384 % 128 + 128, l / 128 % 128 + 128, l % 128 + 128];
      FieldFour(l);
    } else {
      buf := [l / 268435456, l / 2097152 % 128 + 128, l / 16384 % 128 + 128, l / 128 % 128 + 128, l % 128 + 128];
      FieldFive(l);
    }
  }

  lemma FieldThree(l: nat)
    requires l < 2097152
    ensures Pow128(3) == 2097152
    ensures Field(l, 3) == [l / 16384, l / 128 % 128 + 128, l % 128 + 128]
  {
    Quotients(l);
    Powers128();
    assert Field(l / 128, 2) == [l / 128 / 128, l / 128 % 128 + 128];
  }

  lemma FieldFour(l: nat)
    requires l < 268435456
    ensures Pow128(4) == 268435456
    ensures Field(l, 4) == [l / 2097152, l / 16384 % 128 + 128, l / 128 % 128 + 128, l % 128 + 128]
  {
    Quotients(l);
    Powers128();
    FieldThree(l / 128);
    assert l / 128 / 16384 == l / 2097152;
  }

  lemma FieldFive(l: nat)
    requires l < 0x8_0000_0000
    ensures Pow128(5) == 0x8_0000_0000
    ensures Field(l, 5)
         == [l / 268435456, l / 2097152 % 128 + 128, l / 16384 % 128 + 128, l / 128 % 128 + 128, l % 128 + 128]
  {
    Quotients(l);
    Powers128();
    FieldFour(l / 128);
    assert l / 128 / 2097152 == l / 268435456 && l / 128 / 16384 == l / 2097152;
  }

  /** Decode the field that ends at `p`; a field of more than five bytes reads as UINT64_MAX. */
  method DecodeBacklen(b: seq<Byte>, p0: nat, ghost n: nat) returns (val: int)
    requires p0 < |b| && EndsInField(b[..p0 + 1], n)
    ensures val == if n <= 5 then FieldValue(b[..p0 + 1], n) else UINT64_MAX
  {
    val := 0;
    var shift, p := 0, p0;
    ghost var k := 0;
    while true
      invariant k < n && p == p0 - k && p >= p0 + 1 - n && shift == 7 * k && k <= 4
      invariant val + Pow128(k) * FieldValue(b[..p + 1], n - k) == FieldValue(b[..p0 + 1], n)
      decreases n - k
    {
      DecodeStep(b, p, n - k, Pow128(k));
      assert b[..p0 + 1][p] == b[p];
      val := val + (b[p] as nat % 128) * Pow128(shift / 7);
      if b[p] < 128 {
        return;
      }
      shift := shift + 7;
      p := p - 1;
      k := k + 1;
      if shift > 28 {
        return UINT64_MAX;
      }
    }
  }

  lemma DecodeStep(b: seq<Byte>, p: nat, m: nat, s: nat)
    requires p < |b| && 1 <= m <= p + 1
    ensures s * FieldValue(b[..p + 1], m) == b[p] as nat % 128 * s + (128 * s) * FieldValue(b[..p], m - 1)
  {
    assert b[..p + 1][..p] == b[..p];
    var f := FieldValue(b[..p], m - 1);
    assert s * (b[p] as nat % 128 + 128 * f) == b[p] as nat % 128 * s + (128 * s) * f;
  }

  // ---------------------------------------------------------------- encoded elements

  /** The encoding of an integer: the shortest that fits. */
  function IntBody(v: int): (b: seq<Byte>)
    requires Int64(v)
    ensures 1 <= |b| <= 9
  {
    Widths();
    if 0 <= v <= 127 then [v]
    else if -4096 <= v <= 4095 then
      var u := if v < 0 then v + 8192 else v;
      [LP_ENCODING_13BIT_INT + u / 256, u % 256]
    else if -32768 <= v <= 32767 then [LP_ENCODING_16BIT_INT] + Pack(v, 2)
    else if -8388608 <= v <= 8388607 then [LP_ENCODING_24BIT_INT] + Pack(v, 3)
    else if -2147483648 <= v <= 2147483647 then [LP_ENCODING_32BIT_INT] + Pack(v, 4)
    else [LP_ENCODING_64BIT_INT] + Pack(v, 8)
  }

  /** The encoding of a string: its length and its bytes. */
  function StrBody(s: Str): (b: seq<Byte>)
    requires |s| <= UINT32_MAX
  {
    if |s| < 64 then [LP_ENCODING_6BIT_STR + |s|] + s
    else if |s| < 4096 then [LP_ENCODING_12BIT_STR + |s| / 256, |s| % 256] + s
    else [LP_ENCODING_32BIT_STR] + Encode(|s|, 4) + s
  }

  /** `b` is what the source stores for an element: an integer encoding for the decimal form of a
      64-bit integer, a string encoding for everything else. */
  ghost predicate Encodes(b: seq<Byte>, s: Str) {
    || (exists v | Int64(v) :: Decimal(v) == s && b == IntBody(v))
    || (NoInt64(s) && |s| <= UINT32_MAX && b == StrBody(s))
  }

  /** The bytes that must be readable to tell the size of an encoding. */
  function HeaderSize(c: Byte): (n: nat)
    ensures 1 <= n <= 5
  {
    if Is12BitStr(c) then 2 else if c == LP_ENCODING_32BIT_STR then 5 else 1
  }

  /** The size of the encoded element that starts at `p`, in a 32-bit variable. */
  function EncodedSize(b: seq<Byte>, p: nat): nat
    requires p < |b| && p + HeaderSize(b[p]) <= |b|
  {
    var c := b[p];
    if Is7BitUint(c) then 1
    else if Is6BitStr(c) then 1 + (c - LP_ENCODING_6BIT_STR)
    else if Is13BitInt(c) then 2
    else if c == LP_ENCODING_16BIT_INT then 3
    else if c == LP_ENCODING_24BIT_INT then 4
    else if c == LP_ENCODING_32BIT_INT then 5
    else if c == LP_ENCODING_64BIT_INT then 9
    else if Is12BitStr(c) then 2 + ((c - LP_ENCODING_12BIT_STR) * 256 + b[p + 1])
    else if c == LP_ENCODING_32BIT_STR then (5 + Unsigned(b[p + 1..p + 5])) % (UINT32_MAX + 1)
    else if c == LP_EOF then 1
    else 0
  }

  /** A complete encoded element, of any of the encodings. */
  predicate IsBody(b: seq<Byte>) {
    b != [] && b[0] <= LP_ENCODING_64BIT_INT && HeaderSize(b[0]) <= |b| && EncodedSize(b, 0) == |b|
  }

  datatype Content = Number(v: int) | Text(s: Str)

  /** The integer or the string that is encoded at `p`. */
  function ContentAt(b: seq<Byte>, p: nat): Content
    requires p < |b| && p + HeaderSize(b[p]) <= |b| && p + EncodedSize(b, p) <= |b|
  {
    var c := b[p];
    if Is7BitUint(c) then Number(c)
    else if Is6BitStr(c) then Text(b[p + 1..p + EncodedSize(b, p)])
    else if Is13BitInt(c) then
      var u := (c - LP_ENCODING_13BIT_INT) * 256 + b[p + 1];
      Number(if u >= 4096 then u - 8192 else u)
    else if LP_ENCODING_16BIT_INT <= c <= LP_ENCODING_64BIT_INT then Number(Signed(b[p + 1..p + EncodedSize(b, p)]))
    else if Is12BitStr(c) then Text(b[p + 2..p + EncodedSize(b, p)])
    else if c == LP_ENCODING_32BIT_STR then
      if EncodedSize(b, p) < 5 then Text([]) else Text(b[p + 5..p + EncodedSize(b, p)])
    else Number(12345678900000000 + c)
  }

  /** The element as the caller sees it when it asks for a string. */
  function Shown(c: Content): Str {
    if c.Number? then Decimal(c.v) else c.s
  }

  function Element(b: seq<Byte>): Str
    requires IsBody(b)
  {
    Shown(ContentAt(b, 0))
  }

  /** An encoded element reads the same wherever it lies. */
  lemma ReadsInPlace(a: seq<Byte>, b: seq<Byte>, c: seq<Byte>)
    requires IsBody(b)
    ensures var m := a + b + c;
            && m[|a|] == b[0] && |a| + HeaderSize(m[|a|]) <= |m|
            && EncodedSize(m, |a|) == |b| && ContentAt(m, |a|) == ContentAt(b, 0)
  {
    var m := a + b + c;
    assert forall i | 0 <= i < |b| :: m[|a| + i] == b[i];
    if b[0] == LP_ENCODING_32BIT_STR {
      assert m[|a| + 1..|a| + 5] == b[1..5];
      assert m[|a| + 5..|a| + |b|] == b[5..|b|];
    } else if b[0] != LP_EOF {
      assert m[|a| + 1..|a| + |b|] == b[1..|b|];
      if |b| >= 2 { assert m[|a| + 2..|a| + |b|] == b[2..|b|]; }
    }
  }

  lemma IntReads(v: int)
    requires Int64(v)
    ensures IsBody(IntBody(v)) && ContentAt(IntBody(v), 0) == Number(v)
  {
    hide Pack, Signed;
    Widths();
    var b := IntBody(v);
    if 0 <= v <= 127 || -4096 <= v <= 4095 {
    } else if -32768 <= v <= 32767 {
      PackedReads(v, 2, b);
    } else if -8388608 <= v <= 8388607 {
      PackedReads(v, 3, b);
    } else if -2147483648 <= v <= 2147483647 {
      PackedReads(v, 4, b);
    } else {
      PackedReads(v, 8, b);
    }
  }

  lemma PackedReads(v: int, n: nat, b: seq<Byte>)
    requires Fits(v, n) && |b| == n + 1 && b[1..] == Pack(v, n)
    ensures Signed(b[1..n + 1]) == v
  {
    assert b[1..n + 1] == b[1..];
    UnpackPack(v, n);
  }

  lemma StrReads(s: Str)
    requires |s| <= UINT32_MAX
    ensures IsBody(StrBody(s)) <==> |s| <= UINT32_MAX - 5
    ensures IsBody(StrBody(s)) ==> ContentAt(StrBody(s), 0) == Text(s)
  {
    hide Encode, Unsigned;
    Widths();
    var b := StrBody(s);
    if |s| < 64 {
      assert b[1..1 + |s|] == s;
    } else if |s| < 4096 {
      assert b[2..2 + |s|] == s;
    } else {
      DecodeEncode(|s|, 4);
      assert b[1..5] == Encode(|s|, 4);
      assert Unsigned(b[1..5]) == |s| && |b| == 5 + |s|;
      assert b[5..5 + |s|] == s;
    }
  }

  /** What is stored for an element reads back as the element, exactly when its size fits 32 bits. */
  lemma EncodedReads(b: seq<Byte>, s: Str)
    requires Encodes(b, s)
    ensures IsBody(b) <==> |s| <= UINT32_MAX - 5
    ensures IsBody(b) ==> Element(b) == s
  {
    hide IntBody, StrBody, ContentAt, Decimal, IsBody;
    if NoInt64(s) && b == StrBody(s) {
      StrReads(s);
    } else {
      var v :| Int64(v) && Decimal(v) == s && b == IntBody(v);
      IntReads(v);
      DecimalLength(v);
    }
  }

  /** The integer encoding, byte by byte, src/list/listpack.c:236-281. */
  method EncodeInt(w: int) returns (intenc: seq<Byte>)
    requires Int64(w)
    ensures intenc == IntBody(w)
  {
    hide Encode;
    Widths();
    var v := w;
    if v >= 0 && v <= 127 {
      return [v];
    } else if v >= -4096 && v <= 4095 {
      if v < 0 { v := 8192 + v; }
      return [LP_ENCODING_13BIT_INT + v / 256, v % 256];
    } else if v >= -32768 && v <= 32767 {
      if v < 0 { v := 0x1_0000 + v; }
      SpreadTwo(v);
      return [LP_ENCODING_16BIT_INT, v % 256, v / 256];
    } else if v >= -8388608 && v <= 8388607 {
      if v < 0 { v := 0x100_0000 + v; }
      SpreadThree(v);
      return [LP_ENCODING_24BIT_INT, v % 256, v / 256 % 256, v / 0x1_0000];
    } else if v >= -2147483648 && v <= 2147483647 {
      if v < 0 { v := 0x1_0000_0000 + v; }
      SpreadFour(v);
      return [LP_ENCODING_32BIT_INT, v % 256, v / 256 % 256, v / 0x1_0000 % 256, v / 0x100_0000];
    } else {
      if v < 0 { v := 0x1_0000_0000_0000_0000 + v; }
      SpreadEight(v);
      return [LP_ENCODING_64BIT_INT, v % 256, v / 256 % 256, v / 0x1_0000 % 256, v / 0x100_0000 % 256,
              v / 0x1_0000_0000 % 256, v / 0x100_0000_0000 % 256, v / 0x1_0000_0000_0000 % 256,
              v / 0x100_0000_0000_0000];
    }
  }

  /** The choice of the encoding and its size, in 32 bits for strings; an integer is encoded here. */
  method EncodeGetType(ele: Str) returns (isInt: bool, intenc: seq<Byte>, enclen: nat)
    requires |ele| <= UINT32_MAX
    ensures isInt ==> enclen == |intenc| && Encodes(intenc, ele)
    ensures !isInt ==> NoInt64(ele) && (enclen == |StrBody(ele)| <==> |ele| <= UINT32_MAX - 5)
  {
    hide Decimal, NoInt64, IntBody;
    var r := StringToInt64(ele);
    if r.Some? {
      intenc := EncodeInt(r.value);
      return true, intenc, |intenc|;
    }
    if |ele| < 64 { enclen := 1 + |ele|; }
    else if |ele| < 4096 { enclen := 2 + |ele|; }
    else { enclen := (5 + |ele|) % (UINT32_MAX + 1); }
    return false, [], enclen;
  }

  /** The bytes of a number, one by one. */
  lemma SpreadTwo(u: nat)
    requires u < 0x1_0000
    ensures Encode(u, 2) == [u % 256, u / 256]
  {
    assert Encode(u / 256, 1) == [u / 256 % 256] + Encode(u / 256 / 256, 0);
  }

  lemma SpreadThree(u: nat)
    requires u < 0x100_0000
    ensures Encode(u, 3) == [u % 256, u / 256 % 256, u / 0x1_0000]
  {
    SpreadTwo(u / 256);
    assert u / 256 / 256 == u / 0x1_0000;
  }

  lemma SpreadFour(u: nat)
    requires u < 0x1_0000_0000
    ensures Encode(u, 4) == [u % 256, u / 256 % 256, u / 0x1_0000 % 256, u / 0x100_0000]
  {
    SpreadThree(u / 256);
    assert u / 256 / 256 == u / 0x1_0000 && u / 256 / 0x1_0000 == u / 0x100_0000;
  }

  lemma LowFour(u: nat, n: nat)
    ensures Encode(u, n + 4)
         == [u % 256, u / 256 % 256, u / 0x1_0000 % 256, u / 0x100_0000 % 256] + Encode(u / 0x1_0000_0000, n)
  {
    var (a, b, c) := (u / 256, u / 0x1_0000, u / 0x100_0000);
    assert a / 256 == b && b / 256 == c && c / 256 == u / 0x1_0000_0000;
    assert Encode(u, n + 4) == [u % 256] + Encode(a, n + 3);
    assert Encode(a, n + 3) == [a % 256] + Encode(b, n + 2);
    assert Encode(b, n + 2) == [b % 256] + Encode(c, n + 1);
    assert Encode(c, n + 1) == [c % 256] + Encode(u / 0x1_0000_0000, n);
  }

  lemma SpreadEight(u: nat)
    requires u < 0x1_0000_0000_0000_0000
    ensures Encode(u, 8)
         == [u % 256, u / 256 % 256, u / 0x1_0000 % 256, u / 0x100_0000 % 256,
             u / 0x1_0000_0000 % 256, u / 0x100_0000_0000 % 256, u / 0x1_0000_0000_0000 % 256,
             u / 0x100_0000_0000_0000]
  {
    hide Encode;
    var h := u / 0x1_0000_0000;
    LowFour(u, 4);
    SpreadFour(h);
    assert h / 256 == u / 0x100_0000_0000 && h / 0x1_0000 == u / 0x1_0000_0000_0000
        && h / 0x100_0000 == u / 0x100_0000_0000_0000;
  }
}
