/** Quoting and splitting of argument lines, src/string/sds.c:872-1061.

    `CatRepr` prints a string in quotes, `SplitArgs` parses a line of arguments, and `SplitLen`
    cuts a string at a separator.  Lines are C strings: `SplitArgs` reads no byte beyond the
    terminating NUL. */
module SdsArgs {
  import opened Bytes
  import opened Options

  type Str = seq<Byte>

  // ---------------------------------------------------------------- printing

  function HexDigit(v: nat): (c: Byte)
    requires v < 16
    ensures IsHexDigit(c) && HexDigitToInt(c) == v
  {
    if v < 10 then 0x30 + v else 0x61 + (v - 10)
  }

  /** How one byte is printed between the quotes. */
  function Escape(c: Byte): Str {
    if c == BACKSLASH || c == QUOTE then [BACKSLASH, c]
    else if c == 10 then [BACKSLASH, 'n' as Byte]
    else if c == 13 then [BACKSLASH, 'r' as Byte]
    else if c == 9 then [BACKSLASH, 't' as Byte]
    else if c == 7 then [BACKSLASH, 'a' as Byte]
    else if c == 8 then [BACKSLASH, 'b' as Byte]
    else if IsPrint(c) then [c]
    else [BACKSLASH, 'x' as Byte, HexDigit(c / 16), HexDigit(c % 16)]
  }

  function Escaped(x: Str): Str {
    if x == [] then [] else Escape(x[0]) + Escaped(x[1..])
  }

  /** Lower-case and upper-case hexadecimal digits. */
  const LOWER_HEX: Str := [0x30, 0x31, 0x32, 0x33, 0x34, 0x35, 0x36, 0x37, 0x38, 0x39, 0x61, 0x62, 0x63, 0x64, 0x65,
    0x66]
  const UPPER_HEX: Str := [0x30, 0x31, 0x32, 0x33, 0x34, 0x35, 0x36, 0x37, 0x38, 0x39, 0x41, 0x42, 0x43, 0x44, 0x45,
    0x46]

  /** The letters that stand for control characters behind a backslash: n, r, t, a and b. */
  const CONTROLS: map<Byte, Byte> := map[10 := 0x6E, 13 := 0x72, 9 := 0x74, 7 := 0x61, 8 := 0x62]

  /** The printed form of each byte: itself if it is printable ASCII other than backslash and quote;
      those two behind a backslash; five control characters as letters; all others in hexadecimal. */
  lemma EscapeForms(c: Byte)
    ensures 0x20 <= c <= 0x7E && c != 0x5C && c != 0x22 ==> Escape(c) == [c]
    ensures c == 0x5C || c == 0x22 ==> Escape(c) == [0x5C, c]
    ensures c in CONTROLS ==> Escape(c) == [0x5C, CONTROLS[c]]
    ensures (c < 0x20 || c > 0x7E) && c !in CONTROLS ==> Escape(c) == [0x5C, 0x78, LOWER_HEX[c / 16], LOWER_HEX[c % 16]]
    ensures Escaped([c]) == Escape(c)
  {
    LowerHex(c / 16);
    LowerHex(c % 16);
  }

  lemma LowerHex(v: nat)
    requires v < 16
    ensures HexDigit(v) == LOWER_HEX[v]
  {
  }

  /** A string is printed byte by byte. */
  lemma {:induction false} EscapedJoin(a: Str, b: Str)
    ensures Escaped(a + b) == Escaped(a) + Escaped(b)
  {
    hide Escape;
    if a == [] {
      assert a + b == b;
    } else {
      EscapedJoin(a[1..], b);
      assert (a + b)[1..] == a[1..] + b;
    }
  }

  /** Printable ASCII other than backslash and quote. */
  predicate Plain(x: Str) {
    forall i | 0 <= i < |x| :: 0x20 <= x[i] <= 0x7E && x[i] != 0x5C && x[i] != 0x22
  }

  lemma {:induction false} PlainEscaped(x: Str)
    requires Plain(x)
    ensures Escaped(x) == x
  {
    hide Escape;
    if x != [] {
      EscapeForms(x[0]);
      PlainEscaped(x[1..]);
      assert x == [x[0]] + x[1..];
    }
  }

  function Repr(x: Str): Str {
    [QUOTE] + Escaped(x) + [QUOTE]
  }

  lemma EscapedNext(r: Str, x: Str, i: nat, all: Str)
    requires i < |x| && r + Escaped(x[i..]) == all
    ensures r + Escape(x[i]) + Escaped(x[i + 1..]) == all
  {
    hide Escape;
    assert x[i..][1..] == x[i + 1..];
    assert r + Escape(x[i]) + Escaped(x[i + 1..]) == r + (Escape(x[i]) + Escaped(x[i + 1..]));
  }

  /** Append `x` in quotes to the string `s`. */
  method CatRepr(s: Str, x: Str) returns (r: Str)
    ensures r == s + Repr(x)
    ensures Plain(x) ==> r == s + [0x22] + x + [0x22]
  {
    hide Escaped, IsPrint, HexDigit, Plain;
    r := s + [QUOTE];
    var i := 0;
    ghost var all := s + [QUOTE] + Escaped(x);
    while i < |x|
      invariant 0 <= i <= |x| && r + Escaped(x[i..]) == all
    {
      EscapedNext(r, x, i, all);
      var c := x[i];
      ghost var r0 := r;
      match c {
      case 0x5C => r := r + [BACKSLASH, c];
      case 0x22 => r := r + [BACKSLASH, c];
      case 10 => r := r + [BACKSLASH, 'n' as Byte];
      case 13 => r := r + [BACKSLASH, 'r' as Byte];
      case 9 => r := r + [BACKSLASH, 't' as Byte];
      case 7 => r := r + [BACKSLASH, 'a' as Byte];
      case 8 => r := r + [BACKSLASH, 'b' as Byte];
      case _ =>
        if IsPrint(c) {
          r := r + [c];
        } else {
          r := r + [BACKSLASH, 'x' as Byte, HexDigit(c / 16), HexDigit(c % 16)];
        }
      }
      assert r == r0 + Escape(c);
      i := i + 1;
    }
    EndsEmpty(r, x[i..], all);
    r := r + [QUOTE];
    if Plain(x) { PlainEscaped(x); }
  }

  lemma EndsEmpty(r: Str, x: Str, all: Str)
    requires x == [] && r + Escaped(x) == all
    ensures r == all
  {
  }

  // ---------------------------------------------------------------- parsing

  datatype Mode = Bare | Quoted | Single

  function Unescape(c: Byte): Byte {
    if c == 'n' as Byte then 10
    else if c == 'r' as Byte then 13
    else if c == 't' as Byte then 9
    else if c == 'b' as Byte then 8
    else if c == 'a' as Byte then 7
    else c
  }

  predicate EndsBare(c: Byte) {
    c == SPACE || c == 10 || c == 13 || c == 9
  }

  predicate IsHexEscape(s: Str) {
    |s| >= 4 && s[0] == BACKSLASH && s[1] == 'x' as Byte && IsHexDigit(s[2]) && IsHexDigit(s[3])
  }

  function Then(c: Str, t: Option<(Str, Str)>): Option<(Str, Str)> {
    if t.None? then None else Some((c + t.value.0, t.value.1))
  }

  /** A closing quote must be followed by a space or nothing. */
  predicate ClosesWell(s: Str)
    requires s != []
  {
    |s| == 1 || IsSpace(s[1])
  }

  /** The rest of a token, and the line after it. */
  function Token(s: Str, m: Mode): (r: Option<(Str, Str)>)
    ensures r.Some? ==> |r.value.1| <= |s| && (s != [] ==> |r.value.1| < |s|)
    decreases |s|
  {
    match m
    case Bare =>
      if s == [] then Some(([], []))
      else if EndsBare(s[0]) then Some(([], s[1..]))
      else if s[0] == QUOTE then Token(s[1..], Quoted)
      else if s[0] == APOSTROPHE then Token(s[1..], Single)
      else Then([s[0]], Token(s[1..], Bare))
    case Quoted =>
      if s == [] then None
      else if IsHexEscape(s) then Then([HexDigitToInt(s[2]) * 16 + HexDigitToInt(s[3])], Token(s[4..], Quoted))
      else if s[0] == BACKSLASH && |s| > 1 then Then([Unescape(s[1])], Token(s[2..], Quoted))
      else if s[0] == QUOTE then if ClosesWell(s) then Some(([], s[1..])) else None
      else Then([s[0]], Token(s[1..], Quoted))
    case Single =>
      if s == [] then None
      else if s[0] == BACKSLASH && |s| > 1 && s[1] == APOSTROPHE then Then([APOSTROPHE], Token(s[2..], Single))
      else if s[0] == APOSTROPHE then if ClosesWell(s) then Some(([], s[1..])) else None
      else Then([s[0]], Token(s[1..], Single))
  }

  function SkipBlanks(s: Str): (r: Str)
    ensures |r| <= |s| && (r != [] ==> !IsSpace(r[0]))
  {
    if s != [] && IsSpace(s[0]) then SkipBlanks(s[1..]) else s
  }

  /** The arguments on a line, or nothing for unbalanced quotes and badly closed quotes. */
  function Args(s: Str): Option<seq<Str>>
    decreases |s|
  {
    var t := SkipBlanks(s);
    if t == [] then Some([])
    else
      match Token(t, Bare)
      case None => None
      case Some((arg, rest)) =>
        match Args(rest)
        case None => None
        case Some(args) => Some([arg] + args)
  }

  // ---------------------------------------------------------------- the parser loop

  /** The bytes of a C string before its NUL. */
  predicate Ends(line: Str, e: nat) {
    e < |line| && line[e] == NUL && NUL !in line[..e]
  }

  lemma {:induction false} FirstNul(line: Str) returns (e: nat)
    requires NUL in line
    ensures Ends(line, e)
  {
    if line[0] == NUL {
      e := 0;
    } else {
      var f := FirstNul(line[1..]);
      e := f + 1;
      assert line[..e] == [line[0]] + line[1..][..f];
    }
  }

  lemma ThenTwice(a: Str, b: Str, t: Option<(Str, Str)>)
    ensures Then(a, Then(b, t)) == Then(a + b, t)
  {
    if t.Some? { assert a + (b + t.value.0) == a + b + t.value.0; }
  }

  /** A token is being read: what is read so far, and what is left. */
  ghost predicate Reading(s: Str, current: Str, m: Mode, rest: Str) {
    Token(s, Bare) == Then(current, Token(rest, m))
  }

  lemma TailOf(line: Str, p: nat, e: nat, n: nat)
    requires p + n <= e <= |line|
    ensures line[p..e][n..] == line[p + n..e] && |line[p..e]| == e - p
    ensures forall j | 0 <= j < e - p :: line[p..e][j] == line[p + j]
  {
  }

  /** One step inside double quotes: the bytes taken, or the end of the token. */
  method QuotedStep(line: Str, p: nat, ghost e: nat) returns (bad: bool, done: bool, out: Str, q: nat)
    requires Ends(line, e) && p <= e
    ensures !bad ==> p < q <= e
    ensures var t := Token(line[p..e], Quoted);
            && (bad ==> t == None)
            && (!bad && done ==> t == Some(([], line[q..e])))
            && (!bad && !done ==> t == Then(out, Token(line[q..e], Quoted)))
  {
    ghost var s := line[p..e];
    TailOf(line, p, e, 0);
    bad, done, out, q := false, false, [], p;
    if line[q] == BACKSLASH && line[q + 1] == 'x' as Byte && IsHexDigit(line[q + 2]) && IsHexDigit(line[q + 3]) {
      TailOf(line, p, e, 4);
      out := [HexDigitToInt(line[q + 2]) * 16 + HexDigitToInt(line[q + 3])];
      q := q + 4;
    } else if line[q] == BACKSLASH && line[q + 1] != NUL {
      TailOf(line, p, e, 2);
      out := [Unescape(line[q + 1])];
      q := q + 2;
    } else if line[q] == QUOTE {
      if line[q + 1] != NUL && !IsSpace(line[q + 1]) {
        bad := true;
        return;
      }
      TailOf(line, p, e, 1);
      done := true;
      q := q + 1;
    } else if line[q] == NUL {
      bad := true;
    } else {
      TailOf(line, p, e, 1);
      out := [line[q]];
      q := q + 1;
    }
  }

  /** One step inside single quotes. */
  method SingleStep(line: Str, p: nat, ghost e: nat) returns (bad: bool, done: bool, out: Str, q: nat)
    requires Ends(line, e) && p <= e
    ensures !bad ==> p < q <= e
    ensures var t := Token(line[p..e], Single);
            && (bad ==> t == None)
            && (!bad && done ==> t == Some(([], line[q..e])))
            && (!bad && !done ==> t == Then(out, Token(line[q..e], Single)))
  {
    TailOf(line, p, e, 0);
    bad, done, out, q := false, false, [], p;
    if line[q] == BACKSLASH && line[q + 1] == APOSTROPHE {
      TailOf(line, p, e, 2);
      out := [APOSTROPHE];
      q := q + 2;
    } else if line[q] == APOSTROPHE {
      if line[q + 1] != NUL && !IsSpace(line[q + 1]) {
        bad := true;
        return;
      }
      TailOf(line, p, e, 1);
      done := true;
      q := q + 1;
    } else if line[q] == NUL {
      bad := true;
    } else {
      TailOf(line, p, e, 1);
      out := [line[q]];
      q := q + 1;
    }
  }

  /** One step outside quotes. */
  method BareStep(line: Str, p: nat, ghost e: nat) returns (done: bool, out: Str, q: nat, m: Mode)
    requires Ends(line, e) && p <= e
    ensures p <= q <= e && (q == p ==> done)
    ensures var t := Token(line[p..e], Bare);
            && (done ==> t == Some(([], line[q..e])))
            && (!done ==> t == Then(out, Token(line[q..e], m)))
  {
    TailOf(line, p, e, 0);
    done, out, q, m := false, [], p, Bare;
    match line[q] {
      case 0x20 => done := true;
      case 10 => done := true;
      case 13 => done := true;
      case 9 => done := true;
      case 0 => done := true;
      case 0x22 => m := Quoted;
      case 0x27 => m := Single;
      case _ => out := [line[q]];
    }
    if line[q] != NUL {
      TailOf(line, p, e, 1);
      q := q + 1;
      NothingBefore(Token(line[q..e], m));
    }
  }

  lemma NothingBefore(t: Option<(Str, Str)>)
    ensures Then([], t) == t
  {
    if t.Some? { assert [] + t.value.0 == t.value.0; }
  }

  /** Read one token, src/string/sds.c:962-1038. */
  method NextToken(line: Str, p0: nat, ghost e: nat) returns (bad: bool, current: Str, p: nat)
    requires Ends(line, e) && p0 < e
    ensures bad ==> Token(line[p0..e], Bare) == None
    ensures !bad ==> p0 <= p <= e && Token(line[p0..e], Bare) == Some((current, line[p..e]))
  {
    hide Token;
    ghost var s := line[p0..e];
    bad, current, p := false, [], p0;
    var done, inq, insq := false, false, false;
    NothingBefore(Token(s, Bare));
    while !done
      invariant p0 <= p <= e && !(inq && insq)
      invariant !done ==> Reading(s, current, if inq then Quoted else if insq then Single else Bare, line[p..e])
      invariant done ==> Token(s, Bare) == Some((current, line[p..e]))
      decreases e - p, !done
    {
      var out, m;
      ghost var rest := line[p..e];
      if inq {
        bad, done, out, p := QuotedStep(line, p, e);
        if bad { return; }
        m := Quoted;
      } else if insq {
        bad, done, out, p := SingleStep(line, p, e);
        if bad { return; }
        m := Single;
      } else {
        done, out, p, m := BareStep(line, p, e);
        inq, insq := m == Quoted, m == Single;
      }
      if done {
        NothingAfter(current, line[p..e]);
      } else {
        ThenTwice(current, out, Token(line[p..e], m));
        current := current + out;
      }
    }
  }

  lemma NothingAfter(a: Str, rest: Str)
    ensures Then(a, Some(([], rest))) == Some((a, rest))
  {
    assert a + [] == a;
  }

  function Prepend(args: seq<Str>, r: Option<seq<Str>>): Option<seq<Str>> {
    if r.None? then None else Some(args + r.value)
  }

  lemma PrependNone(r: Option<seq<Str>>)
    ensures Prepend([], r) == r
  {
    if r.Some? { assert [] + r.value == r.value; }
  }

  lemma ArgsStep(s: Str, args: seq<Str>, arg: Str, rest: Str)
    requires s != [] && !IsSpace(s[0]) && Token(s, Bare) == Some((arg, rest))
    ensures Prepend(args, Args(s)) == Prepend(args + [arg], Args(rest))
  {
    if Args(rest).Some? { assert args + ([arg] + Args(rest).value) == args + [arg] + Args(rest).value; }
  }

  lemma ArgsSkip(line: Str, p: nat, e: nat)
    requires p < e <= |line| && IsSpace(line[p])
    ensures Args(line[p..e]) == Args(line[p + 1..e])
  {
    assert line[p..e][1..] == line[p + 1..e];
  }

  /** The arguments on a line, or nothing when it is malformed. */
  method SplitArgs(line: Str) returns (vector: Option<seq<Str>>)
    requires NUL in line
    ensures exists e: nat :: Ends(line, e) && vector == Args(line[..e])
  {
    hide Token;
    ghost var e := FirstNul(line);
    assert line[0..e] == line[..e];
    var p, args := 0, [];
    PrependNone(Args(line[..e]));
    while true
      invariant 0 <= p <= e
      invariant Prepend(args, Args(line[p..e])) == Args(line[..e])
      decreases e - p
    {
      while line[p] != NUL && IsSpace(line[p])
        invariant 0 <= p <= e && Prepend(args, Args(line[p..e])) == Args(line[..e])
        decreases e - p
      {
        ArgsSkip(line, p, e);
        p := p + 1;
      }
      if line[p] == NUL {
        assert Args(line[p..e]) == Some([]) && args + [] == args;
        return Some(args);
      }
      ghost var s := line[p..e];
      var bad, current, q := NextToken(line, p, e);
      if bad {
        return None;
      }
      ArgsStep(s, args, current, line[q..e]);
      args, p := args + [current], q;
    }
  }

  // ---------------------------------------------------------------- the round trip

  /** The lines that printing and joining produce. */
  function Joined(words: seq<Str>): Str {
    if words == [] then []
    else if |words| == 1 then Repr(words[0])
    else Repr(words[0]) + [SPACE] + Joined(words[1..])
  }

  lemma {:induction false} EscapedTokens(x: Str, rest: Str)
    requires rest == [] || IsSpace(rest[0])
    ensures Token(Escaped(x) + [QUOTE] + rest, Quoted) == Some((x, rest))
  {
    if x == [] {
      assert Escaped(x) + [QUOTE] + rest == [QUOTE] + rest;
    } else {
      var tail := Escaped(x[1..]) + [QUOTE] + rest;
      EscapedTokens(x[1..], rest);
      assert Escaped(x) + [QUOTE] + rest == Escape(x[0]) + tail;
      EscapeTokens(x[0], tail);
      assert x == [x[0]] + x[1..];
    }
  }

  /** The parser undoes the printing of one byte, whatever follows. */
  lemma EscapeTokens(c: Byte, tail: Str)
    ensures Token(Escape(c) + tail, Quoted) == Then([c], Token(tail, Quoted))
  {
    var s := Escape(c) + tail;
    assert s[|Escape(c)|..] == tail;
  }

  lemma ReprTokens(x: Str, rest: Str)
    requires rest == [] || IsSpace(rest[0])
    ensures Token(Repr(x) + rest, Bare) == Some((x, rest))
  {
    hide Escaped;
    EscapedTokens(x, rest);
    ReprOpens(x, rest);
    OpenQuote(Repr(x) + rest);
  }

  lemma ReprOpens(x: Str, rest: Str)
    ensures var s := Repr(x) + rest; s[0] == QUOTE && s[1..] == Escaped(x) + [QUOTE] + rest
  {
    hide Escaped;
  }

  lemma OpenQuote(s: Str)
    requires s != [] && s[0] == QUOTE
    ensures Token(s, Bare) == Token(s[1..], Quoted)
  {
  }

  lemma PrintedFirst(x: Str, rest: Str, words: seq<Str>)
    requires (rest == [] || IsSpace(rest[0])) && Args(rest) == Some(words)
    ensures Args(Repr(x) + rest) == Some([x] + words)
  {
    hide Token, Repr;
    ReprTokens(x, rest);
    ReprStarts(x, rest);
  }

  lemma SpaceSkipped(s: Str)
    ensures Args([SPACE] + s) == Args(s)
  {
    hide Token;
    assert ([SPACE] + s)[1..] == s;
  }

  /** Splitting the printed words gives the words back. */
  lemma {:induction false} SplitUndoesRepr(words: seq<Str>)
    ensures Args(Joined(words)) == Some(words)
  {
    hide Args, Repr;
    if words == [] {
      NoArgs();
    } else if |words| == 1 {
      NoArgs();
      PrintedFirst(words[0], [], []);
      assert Repr(words[0]) + [] == Repr(words[0]) && words == [words[0]] + [];
    } else {
      var rest := [SPACE] + Joined(words[1..]);
      SplitUndoesRepr(words[1..]);
      SpaceSkipped(Joined(words[1..]));
      PrintedFirst(words[0], rest, words[1..]);
      assert Joined(words) == Repr(words[0]) + rest;
      assert words == [words[0]] + words[1..];
    }
  }

  lemma {:induction false} JoinedMore(words: seq<Str>, x: Str)
    ensures Joined(words + [x]) == Joined(words) + (if words == [] then [] else [SPACE]) + Repr(x)
  {
    hide Repr;
    var all := words + [x];
    if words != [] {
      assert all[0] == words[0] && all[1..] == words[1..] + [x];
      JoinedMore(words[1..], x);
    }
  }

  /** Quote words in turn, with spaces between them. */
  method PrintWords(words: seq<Str>) returns (line: Str)
    ensures line == Joined(words)
  {
    hide Repr, Joined;
    line := [];
    assert Joined([]) == [] by { NoWords(); }
    for j := 0 to |words|
      invariant line == Joined(words[..j]) + if 0 < j < |words| then [SPACE] else []
    {
      assert words[..j + 1] == words[..j] + [words[j]];
      JoinedMore(words[..j], words[j]);
      line := CatRepr(line, words[j]);
      if j != |words| - 1 {
        line := line + [SPACE];
      }
    }
    assert words[..|words|] == words;
  }

  lemma NoWords()
    ensures Joined([]) == []
  {
  }

  /** Quoting words and splitting the line gives the words back. */
  method PrintAndSplit(words: seq<Str>) returns (vector: Option<seq<Str>>)
    ensures vector == Some(words)
  {
    hide Args, Joined;
    var line := PrintWords(words);
    SplitUndoesRepr(words);
    NoNul(words);
    vector := SplitArgs(line + [NUL]);
    ghost var e: nat :| Ends(line + [NUL], e) && vector == Args((line + [NUL])[..e]);
    EndsThere(line, e);
  }

  lemma EndsThere(s: Str, e: nat)
    requires NUL !in s && Ends(s + [NUL], e)
    ensures (s + [NUL])[..e] == s
  {
    assert s == (s + [NUL])[..|s|];
    if e < |s| { assert false; }
  }

  lemma NoArgs()
    ensures Args([]) == Some([])
  {
  }

  lemma ReprStarts(x: Str, rest: Str)
    ensures var s := Repr(x) + rest; s != [] && !IsSpace(s[0]) && SkipBlanks(s) == s
  {
  }

  /** A printed line holds no NUL, so it survives as a C string. */
  lemma {:induction false} NoNul(words: seq<Str>)
    ensures NUL !in Joined(words)
  {
    if words != [] {
      NoNulEscaped(words[0]);
      NoNul(words[1..]);
    }
  }

  lemma {:induction false} NoNulEscaped(x: Str)
    ensures NUL !in Escaped(x)
  {
    if x != [] { NoNulEscaped(x[1..]); }
  }

  // ---------------------------------------------------------------- splitting at a separator

  function Join(tokens: seq<Str>, sep: Str): Str {
    if tokens == [] then []
    else if |tokens| == 1 then tokens[0]
    else Join(tokens[..|tokens| - 1], sep) + sep + tokens[|tokens| - 1]
  }

  predicate Occurs(s: Str, sep: Str, j: nat) {
    j + |sep| <= |s| && s[j..j + |sep|] == sep
  }

  /** No separator begins before place `n`. */
  predicate NoneBefore(s: Str, sep: Str, n: nat) {
    forall j: nat | j < n :: !Occurs(s, sep, j)
  }

  /** No separator begins between two places. */
  predicate NoneBetween(s: Str, sep: Str, i: nat, n: nat) {
    forall j: nat | i <= j < n :: !Occurs(s, sep, j)
  }

  /** Every token ends at the first separator after its start. */
  predicate AllCut(tokens: seq<Str>, sep: Str) {
    forall i: nat | i < |tokens| :: NoneBefore(tokens[i] + sep, sep, |tokens[i]|)
  }

  /** All tokens but the last end at the first separator, and the last one holds none. */
  predicate Leftmost(tokens: seq<Str>, sep: Str) {
    && tokens != [] && AllCut(tokens[..|tokens| - 1], sep)
    && NoneBefore(tokens[|tokens| - 1], sep, |tokens[|tokens| - 1]|)
  }

  method JoinSds(argv: seq<Str>, sep: Str) returns (join: Str)
    ensures join == Join(argv, sep)
  {
    join := [];
    for j := 0 to |argv|
      invariant join == Join(argv[..j], sep) + (if 0 < j < |argv| then sep else [])
    {
      assert argv[..j + 1][..j] == argv[..j];
      join := join + argv[j];
      if j != |argv| - 1 {
        join := join + sep;
      }
    }
    assert argv[..|argv|] == argv;
  }

  lemma SliceOfSlice(s: Str, a: nat, b: nat, c: nat, d: nat)
    requires a <= b <= |s| && c <= d <= b - a
    ensures s[a..b][c..d] == s[a + c..a + d]
  {
    var x, y := s[a..b][c..d], s[a + c..a + d];
    assert |x| == |y|;
    forall i | 0 <= i < |x| ensures x[i] == y[i] {
      assert x[i] == s[a..b][c + i] == s[a + c + i];
    }
  }

  lemma CutToken(s: Str, sep: Str, start: nat, j: nat)
    requires start <= j && Occurs(s, sep, j) && NoneBetween(s, sep, start, j)
    ensures NoneBefore(s[start..j] + sep, sep, j - start)
    ensures s[..j + |sep|] == s[..start] + s[start..j] + sep
  {
    assert s[start..j] + sep == s[start..j + |sep|];
    forall m: nat | m < j - start ensures !Occurs(s[start..j] + sep, sep, m) {
      SliceOfSlice(s, start, j + |sep|, m, m + |sep|);
      assert !Occurs(s, sep, start + m);
    }
  }

  lemma LastToken(s: Str, sep: Str, start: nat, n: nat)
    requires start <= |s| && sep != [] && NoneBetween(s, sep, start, n) && |s| < n + |sep|
    ensures NoneBefore(s[start..], sep, |s| - start)
  {
    forall m: nat | m < |s| - start ensures !Occurs(s[start..], sep, m) {
      if m + |sep| <= |s| - start {
        SliceOfSlice(s, start, |s|, m, m + |sep|);
      }
      assert !Occurs(s, sep, start + m);
    }
  }

  /** Where the splitting loop stands. */
  ghost predicate Splitting(s: Str, sep: Str, tokens: seq<Str>, start: nat) {
    && start <= |s| && AllCut(tokens, sep)
    && if tokens == [] then start == 0 else s[..start] == Join(tokens, sep) + sep
  }

  lemma Cut(s: Str, sep: Str, tokens: seq<Str>, start: nat, j: nat)
    requires Splitting(s, sep, tokens, start) && start <= j && Occurs(s, sep, j) && NoneBetween(s, sep, start, j)
    ensures Splitting(s, sep, tokens + [s[start..j]], j + |sep|)
  {
    hide Join, NoneBetween, NoneBefore;
    CutToken(s, sep, start, j);
    NextJoin(tokens, s[start..j], sep);
  }

  lemma Finish(s: Str, sep: Str, tokens: seq<Str>, start: nat)
    requires Splitting(s, sep, tokens, start) && sep != [] && NoneBefore(s[start..], sep, |s| - start)
    ensures Join(tokens + [s[start..]], sep) == s && Leftmost(tokens + [s[start..]], sep)
  {
    hide Join, NoneBefore, AllCut;
    assert s == s[..start] + s[start..];
    NextJoin(tokens, s[start..], sep);
    assert (tokens + [s[start..]])[..|tokens|] == tokens;
  }

  /** Split at the leftmost separators.  `slots` is the room in the token array. */
  method SplitLen(s: Str, sep: Str) returns (r: Option<seq<Str>>)
    ensures r == None <==> sep == []
    ensures sep != [] && s == [] ==> r == Some([])
    ensures sep != [] && s != [] ==> Join(r.value, sep) == s && Leftmost(r.value, sep)
  {
    hide Join, Leftmost, NoneBefore, AllCut;
    if |sep| < 1 { return None; }
    if |s| == 0 { return Some([]); }
    var tokens, slots := [], 5;
    var start, j := 0, 0;
    NothingCut(s, sep);
    while j < |s| - (|sep| - 1)
      invariant 0 <= start <= j <= |s| && |tokens| + 1 <= slots && 5 <= slots
      invariant Splitting(s, sep, tokens, start) && NoneBetween(s, sep, start, j)
    {
      if slots < |tokens| + 2 {
        slots := slots * 2;
      }
      assert |tokens| + 1 < slots;
      if s[j..j + |sep|] == sep {
        Cut(s, sep, tokens, start, j);
        tokens := tokens + [s[start..j]];
        start := j + |sep|;
        j := j + |sep| - 1;
      }
      j := j + 1;
    }
    LastToken(s, sep, start, j);
    Finish(s, sep, tokens, start);
    tokens := tokens + [s[start..]];
    return Some(tokens);
  }

  lemma NothingCut(s: Str, sep: Str)
    ensures Splitting(s, sep, [], 0)
  {
  }

  lemma NextJoin(tokens: seq<Str>, t: Str, sep: Str)
    ensures Join(tokens + [t], sep) == if tokens == [] then t else Join(tokens, sep) + sep + t
  {
    assert (tokens + [t])[..|tokens|] == tokens;
  }
}
