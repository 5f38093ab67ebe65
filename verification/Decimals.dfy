/** Decimal forms of integers: the text `%lld` prints, and the strict parser of
    src/list/listpack.c:143-204 that accepts nothing else. */
module Decimals {
  import opened Bytes
  import opened Options

  const MINUS: Byte := 0x2D
  const ZERO: Byte := 0x30
  const NINE: Byte := 0x39

  const INT64_MAX: int := 0x7FFF_FFFF_FFFF_FFFF
  const UINT64_MAX: int := 0xFFFF_FFFF_FFFF_FFFF

  predicate Int64(v: int) {
    -INT64_MAX - 1 <= v <= INT64_MAX
  }

  function NatDigits(n: nat): (s: seq<Byte>)
    ensures s != []
  {
    if n < 10 then [ZERO + n] else NatDigits(n / 10) + [ZERO + n % 10]
  }

  /** The canonical decimal form. */
  function Decimal(v: int): seq<Byte> {
    if v < 0 then [MINUS] + NatDigits(-v) else NatDigits(v)
  }

  predicate AllDigits(s: seq<Byte>) {
    forall i | 0 <= i < |s| :: ZERO <= s[i] <= NINE
  }

  /** The number a string of digits denotes. */
  function NumberOf(s: seq<Byte>): nat
    requires AllDigits(s)
  {
    if s == [] then 0 else 10 * NumberOf(s[..|s| - 1]) + (s[|s| - 1] - ZERO)
  }

  lemma {:induction false} DigitsOf(n: nat)
    ensures var s := NatDigits(n); AllDigits(s) && NumberOf(s) == n && (n > 0 ==> s[0] != ZERO)
    ensures n == 0 ==> NatDigits(n) == [ZERO]
  {
    if n >= 10 {
      DigitsOf(n / 10);
      var s := NatDigits(n);
      assert s[..|s| - 1] == NatDigits(n / 10);
    } else {
      assert [ZERO + n][..0] == [];
    }
  }

  lemma {:induction false} DigitsUnique(s: seq<Byte>)
    requires AllDigits(s) && s != [] && s[0] != ZERO
    ensures NatDigits(NumberOf(s)) == s && NumberOf(s) > 0
  {
    var t := s[..|s| - 1];
    if t == [] {
      assert s == [s[0]];
    } else {
      DigitsUnique(t);
      assert s == t + [s[|s| - 1]];
    }
  }

  lemma {:induction false} PrefixBelow(s: seq<Byte>, k: nat)
    requires AllDigits(s) && k <= |s|
    ensures NumberOf(s[..k]) <= NumberOf(s)
    decreases |s|
  {
    if k < |s| {
      PrefixBelow(s[..|s| - 1], k);
      assert s[..|s| - 1][..k] == s[..k];
    } else {
      assert s[..k] == s;
    }
  }

  lemma NextDigit(s: seq<Byte>, i: nat, j: nat)
    requires i <= j < |s| && AllDigits(s[i..j]) && ZERO <= s[j] <= NINE
    ensures AllDigits(s[i..j + 1]) && NumberOf(s[i..j + 1]) == 10 * NumberOf(s[i..j]) + (s[j] - ZERO)
  {
    assert s[i..j + 1] == s[i..j] + [s[j]];
  }

  /** The digits of a decimal form. */
  function Start(s: seq<Byte>): nat {
    if s != [] && s[0] == MINUS then 1 else 0
  }

  lemma FormOf(v: int)
    ensures var s := Decimal(v); var t := s[Start(s)..];
            && s != [] && AllDigits(t) && t != [] && NumberOf(t) == (if v < 0 then -v else v)
            && (t[0] == ZERO ==> s == [ZERO]) && (v < 0 <==> s[0] == MINUS)
  {
    DigitsOf(if v < 0 then -v else v);
    if v < 0 {
      assert Decimal(v)[1..] == NatDigits(-v);
    } else {
      assert Decimal(v)[0..] == NatDigits(v);
    }
  }

  /** A string that is the decimal form of no 64-bit integer. */
  ghost predicate NoInt64(s: seq<Byte>) {
    forall v | Int64(v) :: Decimal(v) != s
  }

  lemma BadForm(s: seq<Byte>)
    requires var t := s[Start(s)..];
             t == [] || !(ZERO <= t[0] <= NINE) || (t[0] == ZERO && s != [ZERO]) || !AllDigits(t)
    ensures NoInt64(s)
  {
    forall v | Int64(v) ensures Decimal(v) != s { FormOf(v); }
  }

  lemma TooLarge(s: seq<Byte>, k: nat, bound: nat)
    requires Start(s) <= k <= |s| && AllDigits(s[Start(s)..k]) && NumberOf(s[Start(s)..k]) > bound
    requires s != [] && bound >= if s[0] == MINUS then INT64_MAX + 1 else INT64_MAX
    ensures NoInt64(s)
  {
    hide Decimal, AllDigits, NumberOf;
    var t := s[Start(s)..];
    assert t[..k - Start(s)] == s[Start(s)..k];
    if AllDigits(t) { PrefixBelow(t, k - Start(s)); }
    forall v | Int64(v) ensures Decimal(v) != s { FormOf(v); }
  }

  /** A non-digit at a place after the start. */
  lemma StrayByte(s: seq<Byte>, k: nat)
    requires Start(s) <= k < |s| && !(ZERO <= s[k] <= NINE)
    ensures NoInt64(s)
  {
    var t := s[Start(s)..];
    assert t[k - Start(s)] == s[k];
    BadForm(s);
  }

  lemma GoodForm(s: seq<Byte>, v: nat)
    requires var t := s[Start(s)..]; t != [] && AllDigits(t) && t[0] != ZERO && NumberOf(t) == v
    ensures v > 0 && Decimal(if s[0] == MINUS then 0 - v else v) == s
  {
    DigitsUnique(s[Start(s)..]);
    if s[0] == MINUS { assert s == [MINUS] + s[1..]; } else { assert s[0..] == s; }
  }

  /** Accepts exactly the canonical decimal forms of the 64-bit integers. */
  method StringToInt64(s: seq<Byte>) returns (r: Option<int>)
    ensures r.Some? ==> Int64(r.value) && Decimal(r.value) == s
    ensures r == None ==> NoInt64(s)
  {
    hide Decimal, NumberOf, AllDigits, NoInt64;
    var plen, negative := 0, false;
    if plen == |s| {
      BadForm(s);
      return None;
    }
    if |s| == 1 && s[0] == ZERO {
      ZeroForm();
      assert s == [ZERO];
      return Some(0);
    }
    if s[0] == MINUS {
      negative := true;
      plen := plen + 1;
      if plen == |s| {
        BadForm(s);
        return None;
      }
    }
    ghost var start := plen;
    var v;
    if ZERO < s[plen] <= NINE {
      v := s[plen] - ZERO;
      OneDigit(s, plen);
      plen := plen + 1;
    } else {
      assert s[start..][0] == s[start];
      BadForm(s);
      return None;
    }
    while plen < |s| && ZERO <= s[plen] <= NINE
      invariant start < plen <= |s| && start == Start(s) && AllDigits(s[start..plen])
      invariant v == NumberOf(s[start..plen]) && 0 <= v <= UINT64_MAX
    {
      NextDigit(s, start, plen);
      if v > UINT64_MAX / 10 {
        TooLarge(s, plen + 1, UINT64_MAX);
        return None;
      }
      v := v * 10;
      if v > UINT64_MAX - (s[plen] - ZERO) {
        TooLarge(s, plen + 1, UINT64_MAX);
        return None;
      }
      v := v + (s[plen] - ZERO);
      plen := plen + 1;
    }
    if plen < |s| {
      StrayByte(s, plen);
      return None;
    }
    assert s[start..plen] == s[start..];
    if negative {
      if v > INT64_MAX + 1 {
        TooLarge(s, plen, INT64_MAX + 1);
        return None;
      }
      GoodForm(s, v);
      return Some(-v);
    } else {
      if v > INT64_MAX {
        TooLarge(s, plen, INT64_MAX);
        return None;
      }
      GoodForm(s, v);
      return Some(v);
    }
  }

  lemma ZeroForm()
    ensures Decimal(0) == [ZERO]
  {
  }

  lemma OneDigit(s: seq<Byte>, i: nat)
    requires i < |s| && ZERO <= s[i] <= NINE
    ensures AllDigits(s[i..i + 1]) && NumberOf(s[i..i + 1]) == s[i] - ZERO
  {
    assert s[i..i + 1] == [s[i]] && [s[i]][..0] == [];
  }

  function Pow10(k: nat): (p: nat)
    ensures p > 0
  {
    if k == 0 then 1 else 10 * Pow10(k - 1)
  }

  lemma {:induction false} DigitCount(n: nat, k: nat)
    requires k > 0 && n < Pow10(k)
    ensures |NatDigits(n)| <= k
  {
    if n >= 10 { DigitCount(n / 10, k - 1); }
  }

  /** Nineteen digits and a sign hold every 64-bit integer. */
  lemma DecimalLength(v: int)
    requires Int64(v)
    ensures |Decimal(v)| <= 20
  {
    assert Pow10(10) == 10000000000;
    assert Pow10(19) == 10000000000000000000;
    DigitCount(if v < 0 then -v else v, 19);
  }
}
