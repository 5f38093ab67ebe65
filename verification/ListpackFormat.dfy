/** The bytes of a listpack, spelled out: each encoding with its tag and digits, for writing and for
    reading; src/list/listpack.c:49-117, 233-370 and 493-560. */
module ListpackFormat {
  import opened Bytes
  import opened LittleEndian
  import opened Decimals
  import opened ListpackEntries

  /** The bytes written for an integer: a tag, and the digits in base 256 of its two's complement.
      Quotients are rounded down. */
  lemma IntFormat(v: int)
    requires Int64(v)
    ensures 0 <= v <= 127 ==> IntBody(v) == [v]
    ensures (-4096 <= v < 0 || 127 < v <= 4095) ==> IntBody(v) == [0xC0 + v / 0x100 % 0x20, v % 0x100]
    ensures (-32768 <= v < -4096 || 4095 < v <= 32767) ==> IntBody(v) == [0xF1, v % 0x100, v / 0x100 % 0x100]
    ensures (-8388608 <= v < -32768 || 32767 < v <= 8388607) ==>
              IntBody(v) == [0xF2, v % 0x100, v / 0x100 % 0x100, v / 0x1_0000 % 0x100]
    ensures (-2147483648 <= v < -8388608 || 8388607 < v <= 2147483647) ==>
              IntBody(v) == [0xF3, v % 0x100, v / 0x100 % 0x100, v / 0x1_0000 % 0x100, v / 0x100_0000 % 0x100]
    ensures (v < -2147483648 || v > 2147483647) ==>
              IntBody(v) == [0xF4, v % 0x100, v / 0x100 % 0x100, v / 0x1_0000 % 0x100, v / 0x100_0000 % 0x100,
                             v / 0x1_0000_0000 % 0x100, v / 0x100_0000_0000 % 0x100,
                             v / 0x1_0000_0000_0000 % 0x100, v / 0x100_0000_0000_0000 % 0x100]
  {
    hide IntBody;
    if -4096 <= v <= 4095 {
      SmallInt(v);
    } else if -32768 <= v <= 32767 {
      TwoByteInt(v);
    } else if -8388608 <= v <= 8388607 {
      ThreeByteInt(v);
    } else if -2147483648 <= v <= 2147483647 {
      FourByteInt(v);
    } else {
      EightByteInt(v);
    }
  }

  lemma SmallInt(v: int)
    requires -4096 <= v <= 4095
    ensures IntBody(v) == if 0 <= v <= 127 then [v] else [0xC0 + v / 0x100 % 0x20, v % 0x100]
  {
  }

  lemma TwoByteInt(v: int)
    requires -32768 <= v < -4096 || 4095 < v <= 32767
    ensures IntBody(v) == [0xF1, v % 0x100, v / 0x100 % 0x100]
  {
    hide Encode, Pow256;
    Widths();
    var u := if v < 0 then v + 0x1_0000 else v;
    SpreadTwo(u);
    TwoDigits(v, u);
  }

  lemma TwoDigits(v: int, u: nat)
    requires -32768 <= v <= 32767 && u == if v < 0 then v + 0x1_0000 else v
    ensures u % 256 == v % 256 && u / 256 == v / 0x100 % 256
  {
    var k := if v < 0 then 1 else 0;
    Digit(v, u, 1, 0x100 * k);
    LastDigit(v, u, 0x100, k);
  }

  lemma ThreeByteInt(v: int)
    requires -8388608 <= v < -32768 || 32767 < v <= 8388607
    ensures IntBody(v) == [0xF2, v % 0x100, v / 0x100 % 0x100, v / 0x1_0000 % 0x100]
  {
    hide Encode, Pow256;
    Widths();
    var u := if v < 0 then v + 0x100_0000 else v;
    SpreadThree(u);
    ThreeDigits(v, u);
  }

  lemma ThreeDigits(v: int, u: nat)
    requires -8388608 <= v <= 8388607 && u == if v < 0 then v + 0x100_0000 else v
    ensures u % 256 == v % 256 && u / 256 % 256 == v / 0x100 % 256 && u / 0x1_0000 == v / 0x1_0000 % 256
  {
    var k := if v < 0 then 1 else 0;
    Digit(v, u, 1, 0x1_0000 * k);
    Digit(v, u, 0x100, 0x100 * k);
    LastDigit(v, u, 0x1_0000, k);
  }

  lemma FourByteInt(v: int)
    requires -2147483648 <= v < -8388608 || 8388607 < v <= 2147483647
    ensures IntBody(v) == [0xF3, v % 0x100, v / 0x100 % 0x100, v / 0x1_0000 % 0x100, v / 0x100_0000 % 0x100]
  {
    hide Encode, Pow256;
    Widths();
    var u := if v < 0 then v + 0x1_0000_0000 else v;
    SpreadFour(u);
    FourDigits(v, u);
  }

  lemma FourDigits(v: int, u: nat)
    requires -2147483648 <= v <= 2147483647 && u == if v < 0 then v + 0x1_0000_0000 else v
    ensures u % 256 == v % 256 && u / 256 % 256 == v / 0x100 % 256 && u / 0x1_0000 % 256 == v / 0x1_0000 % 256
    ensures u / 0x100_0000 == v / 0x100_0000 % 256
  {
    var k := if v < 0 then 1 else 0;
    Digit(v, u, 1, 0x100_0000 * k);
    Digit(v, u, 0x100, 0x1_0000 * k);
    Digit(v, u, 0x1_0000, 0x100 * k);
    LastDigit(v, u, 0x100_0000, k);
  }

  lemma EightByteInt(v: int)
    requires Int64(v) && (v < -2147483648 || v > 2147483647)
    ensures IntBody(v) == [0xF4, v % 0x100, v / 0x100 % 0x100, v / 0x1_0000 % 0x100, v / 0x100_0000 % 0x100,
                           v / 0x1_0000_0000 % 0x100, v / 0x100_0000_0000 % 0x100,
                           v / 0x1_0000_0000_0000 % 0x100, v / 0x100_0000_0000_0000 % 0x100]
  {
    hide Encode, Pow256;
    Widths();
    var u := if v < 0 then v + 0x1_0000_0000_0000_0000 else v;
    SpreadEight(u);
    EightDigits(v, u);
  }

  lemma EightDigits(v: int, u: nat)
    requires Int64(v) && u == if v < 0 then v + 0x1_0000_0000_0000_0000 else v
    ensures u % 256 == v % 256 && u / 256 % 256 == v / 0x100 % 256 && u / 0x1_0000 % 256 == v / 0x1_0000 % 256
    ensures u / 0x100_0000 % 256 == v / 0x100_0000 % 256 && u / 0x1_0000_0000 % 256 == v / 0x1_0000_0000 % 256
    ensures u / 0x100_0000_0000 % 256 == v / 0x100_0000_0000 % 256
    ensures u / 0x1_0000_0000_0000 % 256 == v / 0x1_0000_0000_0000 % 256
    ensures u / 0x100_0000_0000_0000 == v / 0x100_0000_0000_0000 % 256
  {
    var k := if v < 0 then 1 else 0;
    Digit(v, u, 1, 0x100_0000_0000_0000 * k);
    Digit(v, u, 0x100, 0x1_0000_0000_0000 * k);
    Digit(v, u, 0x1_0000, 0x100_0000_0000 * k);
    Digit(v, u, 0x100_0000, 0x1_0000_0000 * k);
    Digit(v, u, 0x1_0000_0000, 0x100_0000 * k);
    Digit(v, u, 0x100_0000_0000, 0x1_0000 * k);
    Digit(v, u, 0x1_0000_0000_0000, 0x100 * k);
    LastDigit(v, u, 0x100_0000_0000_0000, k);
  }

  /** A multiple of a higher place does not change a digit. */
  lemma Digit(v: int, u: int, d: nat, k: nat)
    requires d > 0 && u == v + 256 * d * k
    ensures u / d % 256 == v / d % 256
  {
    var (q, r) := (v / d, v % d);
    Shift(q, d, 256 * k);
    assert u == (q + 256 * k) * d + r by { Assoc(d, k); }
    IntQuotient(u, d, q + 256 * k, r);
  }

  lemma LastDigit(v: int, u: nat, d: nat, k: nat)
    requires d > 0 && u == v + 256 * d * k && u < 256 * d
    ensures u / d == v / d % 256
  {
    Digit(v, u, d, k);
    var (q, r) := (u / d, u % d);
    assert u == q * d + r;
    if q >= 256 { IntGap(255, q, d); }
  }

  lemma Assoc(d: nat, k: nat)
    ensures 256 * d * k == 256 * k * d
  {
  }

  lemma Shift(q: int, d: nat, m: nat)
    ensures (q + m) * d == q * d + m * d
  {
  }

  lemma IntQuotient(u: int, d: nat, q: int, r: nat)
    requires u == q * d + r && r < d
    ensures u / d == q
  {
    var (x, y) := (u / d, u % d);
    assert u == x * d + y;
    if x < q { IntGap(x, q, d); } else if q < x { IntGap(q, x, d); }
  }

  lemma IntGap(a: int, b: int, d: nat)
    requires a < b
    ensures a * d + d <= b * d
  {
    var c: nat := b - a - 1;
    Shift(a, d, 1 + c);
    Shift(1, d, c);
    assert c * d >= 0;
  }

  /** What the forms with this number of bytes can hold. */
  predicate FormHolds(n: nat, v: int) {
    match n
    case 1 => 0 <= v <= 127
    case 2 => -4096 <= v <= 4095
    case 3 => -32768 <= v <= 32767
    case 4 => -8388608 <= v <= 8388607
    case 5 => -2147483648 <= v <= 2147483647
    case 9 => Int64(v)
    case _ => false
  }

  /** The form chosen holds the integer, and no shorter one does. */
  lemma ShortestForm(v: int, n: nat)
    requires Int64(v)
    ensures FormHolds(|IntBody(v)|, v) && (FormHolds(n, v) ==> |IntBody(v)| <= n)
  {
  }

  /** The bytes written for a string. */
  lemma StrFormat(s: Str)
    requires |s| <= UINT32_MAX
    ensures |s| < 64 ==> StrBody(s) == [0x80 + |s|] + s
    ensures 64 <= |s| < 4096 ==> StrBody(s) == [0xE0 + |s| / 0x100, |s| % 0x100] + s
    ensures 4096 <= |s| ==>
              StrBody(s) == [0xF0, |s| % 0x100, |s| / 0x100 % 0x100, |s| / 0x1_0000 % 0x100, |s| / 0x100_0000] + s
  {
    hide Encode;
    if 4096 <= |s| {
      SpreadFour(|s|);
    }
  }

  /** The bytes written for the length of an element. */
  lemma BacklenFormat(l: nat)
    requires l < 0x8_0000_0000
    ensures l <= 127 ==> Backlen(l) == [l]
    ensures 127 < l < 16383 ==> Backlen(l) == [l / 0x80, 0x80 + l % 0x80]
    ensures 16383 <= l < 2097151 ==> Backlen(l) == [l / 0x4000, 0x80 + l / 0x80 % 0x80, 0x80 + l % 0x80]
    ensures 2097151 <= l < 268435455 ==>
              Backlen(l) == [l / 0x20_0000, 0x80 + l / 0x4000 % 0x80, 0x80 + l / 0x80 % 0x80, 0x80 + l % 0x80]
    ensures 268435455 <= l ==>
              Backlen(l) == [l / 0x1000_0000, 0x80 + l / 0x20_0000 % 0x80, 0x80 + l / 0x4000 % 0x80,
                             0x80 + l / 0x80 % 0x80, 0x80 + l % 0x80]
  {
    hide Field;
    Powers128();
    if l <= 127 {
      assert Field(l, 1) == [l] by { OneDigit7(l); }
    } else if l < 16383 {
      TwoDigits7(l);
    } else if l < 2097151 {
      FieldThree(l);
    } else if l < 268435455 {
      FieldFour(l);
    } else {
      FieldFive(l);
    }
  }

  lemma OneDigit7(l: nat)
    requires l < Pow128(1)
    ensures Field(l, 1) == [l]
  {
  }

  lemma TwoDigits7(l: nat)
    requires l < Pow128(2)
    ensures Pow128(2) == 16384
    ensures Field(l, 2) == [l / 0x80, 0x80 + l % 0x80]
  {
    Powers128();
  }

  /** Which buffers are complete elements, by the first byte. */
  lemma BodyFormat(b: Str)
    requires b != []
    ensures b[0] <= 0x7F ==> (IsBody(b) <==> |b| == 1)
    ensures 0x80 <= b[0] <= 0xBF ==> (IsBody(b) <==> |b| == 1 + (b[0] - 0x80))
    ensures 0xC0 <= b[0] <= 0xDF ==> (IsBody(b) <==> |b| == 2)
    ensures 0xE0 <= b[0] <= 0xEF ==> (IsBody(b) <==> |b| >= 2 && |b| == 2 + 0x100 * (b[0] - 0xE0) as nat + b[1] as nat)
    ensures b[0] == 0xF0 ==>
              (IsBody(b) <==> 5 <= |b| <= UINT32_MAX
                              && |b| == 5 + b[1] as nat + 0x100 * (b[2] as nat) + 0x1_0000 * (b[3] as nat)
                                        + 0x100_0000 * (b[4] as nat))
    ensures b[0] == 0xF1 ==> (IsBody(b) <==> |b| == 3)
    ensures b[0] == 0xF2 ==> (IsBody(b) <==> |b| == 4)
    ensures b[0] == 0xF3 ==> (IsBody(b) <==> |b| == 5)
    ensures b[0] == 0xF4 ==> (IsBody(b) <==> |b| == 9)
    ensures 0xF5 <= b[0] ==> !IsBody(b)
  {
    hide Unsigned;
    if b[0] == 0xF0 && |b| >= 5 {
      BytesOf(b[1..5]);
    }
  }

  /** A number of `n` bytes in two's complement. */
  function TwosComplement(u: nat, p: nat): int {
    if 2 * u < p then u else u - p
  }

  /** What a complete element says, by the first byte. */
  lemma ReadFormat(b: Str)
    requires IsBody(b)
    ensures b[0] <= 0x7F ==> ContentAt(b, 0) == Number(b[0])
    ensures 0x80 <= b[0] <= 0xBF ==> ContentAt(b, 0) == Text(b[1..])
    ensures 0xC0 <= b[0] <= 0xDF ==>
              |b| == 2 && ContentAt(b, 0) == Number(TwosComplement(0x100 * (b[0] - 0xC0) as nat + b[1] as nat, 0x2000))
    ensures 0xE0 <= b[0] <= 0xEF ==> |b| >= 2 && ContentAt(b, 0) == Text(b[2..])
    ensures b[0] == 0xF0 ==> |b| >= 5 && ContentAt(b, 0) == Text(b[5..])
    ensures b[0] == 0xF1 ==>
              |b| == 3 && ContentAt(b, 0) == Number(TwosComplement(b[1] as nat + 0x100 * (b[2] as nat), 0x1_0000))
    ensures b[0] == 0xF2 ==>
              && |b| == 4
              && ContentAt(b, 0) == Number(TwosComplement(b[1] as nat + 0x100 * (b[2] as nat)
                 + 0x1_0000 * (b[3] as nat),
                                                          0x100_0000))
    ensures b[0] == 0xF3 ==>
              && |b| == 5
              && ContentAt(b, 0) == Number(TwosComplement(b[1] as nat + 0x100 * (b[2] as nat) + 0x1_0000 * (b[3] as nat)
                                                          + 0x100_0000 * (b[4] as nat), 0x1_0000_0000))
    ensures b[0] == 0xF4 ==>
              && |b| == 9
              && ContentAt(b, 0) == Number(TwosComplement(b[1] as nat + 0x100 * (b[2] as nat) + 0x1_0000 * (b[3] as nat)
                                                          + 0x100_0000 * (b[4] as nat) + 0x1_0000_0000 * (b[5] as nat)
                                                          + 0x100_0000_0000 * (b[6] as nat)
                                                          + 0x1_0000_0000_0000 * (b[7] as nat)
                                                          + 0x100_0000_0000_0000 * (b[8] as nat),
                                                          0x1_0000_0000_0000_0000))
  {
    hide Unsigned;
    BodyFormat(b);
    Widths();
    if 0xF0 <= b[0] {
      BytesOf(b[1..]);
      assert b[1..EncodedSize(b, 0)] == b[1..];
    }
  }
}
