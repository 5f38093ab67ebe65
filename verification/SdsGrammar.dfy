/** The language of argument lines, src/string/sds.c:935-1061, as a grammar: how lines are put together
    from words, what the words mean, and which lines are malformed.  The parser accepts exactly the
    well-formed lines, and gives the meanings of their words. */
module SdsGrammar {
  import opened Bytes
  import opened Options
  import opened SdsArgs

  /** Space, tab, newline, vertical tab, form feed and carriage return. */
  predicate Blank(c: Byte) {
    c == 0x20 || 0x09 <= c <= 0x0D
  }

  predicate AllBlank(s: Str) {
    forall i | 0 <= i < |s| :: Blank(s[i])
  }

  /** The blanks that end a word outside quotes: space, tab, newline and carriage return. */
  predicate Ender(c: Byte) {
    c == 0x20 || c == 0x09 || c == 0x0A || c == 0x0D
  }

  predicate Hexadecimal(c: Byte) {
    c in LOWER_HEX || c in UPPER_HEX
  }

  function HexValue(c: Byte): (v: nat)
    requires Hexadecimal(c)
    ensures v < 16 && (LOWER_HEX[v] == c || UPPER_HEX[v] == c)
  {
    if c <= 0x39 then c - 0x30 else if c <= 0x46 then c - 0x37 else c - 0x57
  }

  // ---------------------------------------------------------------- inside quotes

  /** A piece of a double-quoted text: a byte, a byte behind a backslash, or a byte in hexadecimal. */
  datatype Item = Lit(c: Byte) | Esc(c: Byte) | Hex(h: Byte, l: Byte)

  function ItemText(i: Item): Str {
    match i
    case Lit(c) => [c]
    case Esc(c) => [0x5C, c]
    case Hex(h, l) => [0x5C, 0x78, h, l]
  }

  /** Letters behind a backslash that stand for control characters. */
  const LETTERS: map<Byte, Byte> := map[0x6E := 10, 0x72 := 13, 0x74 := 9, 0x62 := 8, 0x61 := 7]

  function ItemByte(i: Item): Byte {
    match i
    case Lit(c) => c
    case Esc(c) => if c in LETTERS then LETTERS[c] else c
    case Hex(h, l) => if Hexadecimal(h) && Hexadecimal(l) then 16 * HexValue(h) + HexValue(l) else 0
  }

  /** A piece that reads as such when `rest` follows. */
  predicate ItemOk(i: Item, rest: Str) {
    match i
    case Lit(c) => c != 0x22 && c != 0x5C
    case Esc(c) => !(c == 0x78 && |rest| >= 2 && Hexadecimal(rest[0]) && Hexadecimal(rest[1]))
    case Hex(h, l) => Hexadecimal(h) && Hexadecimal(l)
  }

  function Text(items: seq<Item>): Str {
    if items == [] then [] else ItemText(items[0]) + Text(items[1..])
  }

  function Meaning(items: seq<Item>): Str {
    if items == [] then [] else [ItemByte(items[0])] + Meaning(items[1..])
  }

  predicate ItemsOk(items: seq<Item>, rest: Str) {
    items == [] || (ItemOk(items[0], Text(items[1..]) + rest) && ItemsOk(items[1..], rest))
  }

  /** A single-quoted text: apostrophes are written behind a backslash. */
  function SingleText(y: Str): Str {
    if y == [] then [] else (if y[0] == 0x27 then [0x5C, 0x27] else [y[0]]) + SingleText(y[1..])
  }

  predicate EndsInBackslash(y: Str) {
    y != [] && y[|y| - 1] == 0x5C
  }

  lemma SameDigits(c: Byte)
    ensures IsHexDigit(c) <==> Hexadecimal(c)
    ensures IsHexDigit(c) ==> HexDigitToInt(c) == HexValue(c)
  {
    if IsHexDigit(c) {
      var v := HexDigitToInt(c);
      assert LOWER_HEX[v] == c || UPPER_HEX[v] == c;
    }
  }

  lemma ItemParses(i: Item, rest: Str)
    requires ItemOk(i, rest)
    ensures Token(ItemText(i) + rest, Quoted) == Then([ItemByte(i)], Token(rest, Quoted))
  {
    var s := ItemText(i) + rest;
    assert s[|ItemText(i)|..] == rest;
    match i {
      case Lit(c) =>
      case Esc(c) =>
        if |rest| >= 2 {
          SameDigits(rest[0]);
          SameDigits(rest[1]);
        }
      case Hex(h, l) =>
        SameDigits(h);
        SameDigits(l);
    }
  }

  lemma {:induction false} ItemsParse(items: seq<Item>, rest: Str)
    requires ItemsOk(items, rest)
    ensures Token(Text(items) + rest, Quoted) == Then(Meaning(items), Token(rest, Quoted))
  {
    hide Token, ItemText, ItemByte, ItemOk;
    if items == [] {
      assert [] + rest == rest;
      NothingBefore(Token(rest, Quoted));
    } else {
      var more := Text(items[1..]) + rest;
      assert Text(items) + rest == ItemText(items[0]) + more;
      ItemParses(items[0], more);
      ItemsParse(items[1..], rest);
      ThenTwice([ItemByte(items[0])], Meaning(items[1..]), Token(rest, Quoted));
    }
  }

  lemma {:induction false} SingleParses(y: Str, rest: Str)
    requires EndsInBackslash(y) ==> !(rest != [] && rest[0] == 0x27)
    ensures Token(SingleText(y) + rest, Single) == Then(y, Token(rest, Single))
  {
    hide Token;
    if y == [] {
      assert [] + rest == rest;
      NothingBefore(Token(rest, Single));
    } else {
      var more := SingleText(y[1..]) + rest;
      var head := if y[0] == 0x27 then [0x5C, 0x27] else [y[0]];
      assert y == [y[0]] + y[1..];
      SingleParses(y[1..], rest);
      assert SingleText(y) + rest == head + more;
      if y[0] == 0x5C { NoApostrophe(y, rest); }
      SingleHead(y[0], more);
      ThenTwice([y[0]], y[1..], Token(rest, Single));
    }
  }

  lemma LastByte(c: Byte, more: Str)
    ensures EndsInBackslash([c] + more) <==> if more == [] then c == 0x5C else EndsInBackslash(more)
  {
  }

  lemma NoApostrophe(y: Str, rest: Str)
    requires y != [] && y[0] == 0x5C
    requires EndsInBackslash(y) ==> !(rest != [] && rest[0] == 0x27)
    ensures var more := SingleText(y[1..]) + rest; !(more != [] && more[0] == 0x27)
  {
  }

  lemma SingleHead(c: Byte, more: Str)
    requires c == 0x5C ==> !(more != [] && more[0] == 0x27)
    ensures Token((if c == 0x27 then [0x5C, 0x27] else [c]) + more, Single) == Then([c], Token(more, Single))
  {
    var head := if c == 0x27 then [0x5C, 0x27] else [c];
    assert (head + more)[|head|..] == more;
  }

  // ---------------------------------------------------------------- words

  datatype Quotation = Nothing | Double(items: seq<Item>) | Apostrophes(y: Str)

  /** Bytes outside quotes, and perhaps a quoted text that ends the word. */
  datatype Word = Word(bare: Str, quoted: Quotation)

  predicate BareOk(x: Str) {
    && (forall i | 0 <= i < |x| :: !Ender(x[i]) && x[i] != 0x22 && x[i] != 0x27)
    && (x != [] ==> !Blank(x[0]))
  }

  function WordText(w: Word): Str {
    w.bare + match w.quoted
             case Nothing => []
             case Double(items) => [0x22] + Text(items) + [0x22]
             case Apostrophes(y) => [0x27] + SingleText(y) + [0x27]
  }

  function WordValue(w: Word): Str {
    w.bare + match w.quoted
             case Nothing => []
             case Double(items) => Meaning(items)
             case Apostrophes(y) => y
  }

  predicate WordOk(w: Word, rest: Str) {
    && BareOk(w.bare)
    && match w.quoted
       case Nothing => w.bare != [] && (rest == [] || Ender(rest[0]))
       case Double(items) => ItemsOk(items, [0x22] + rest) && (rest == [] || Blank(rest[0]))
       case Apostrophes(y) => !EndsInBackslash(y) && (rest == [] || Blank(rest[0]))
  }

  lemma {:induction false} BareParses(x: Str, rest: Str)
    requires forall i | 0 <= i < |x| :: !Ender(x[i]) && x[i] != 0x22 && x[i] != 0x27
    ensures Token(x + rest, Bare) == Then(x, Token(rest, Bare))
  {
    if x == [] {
      assert [] + rest == rest;
      NothingBefore(Token(rest, Bare));
    } else {
      BareParses(x[1..], rest);
      assert (x + rest)[1..] == x[1..] + rest;
      ThenTwice([x[0]], x[1..], Token(rest, Bare));
      assert [x[0]] + x[1..] == x;
    }
  }

  /** The line after a word: a blank that ends a word outside quotes is taken with it. */
  function AfterWord(w: Word, rest: Str): Str {
    if w.quoted.Nothing? && rest != [] then rest[1..] else rest
  }

  lemma WordParses(w: Word, rest: Str)
    requires WordOk(w, rest)
    ensures Token(WordText(w) + rest, Bare) == Some((WordValue(w), AfterWord(w, rest)))
  {
    hide Text, Meaning, SingleText, ItemsOk;
    match w.quoted {
      case Nothing =>
        assert WordText(w) + rest == w.bare + rest;
        BareParses(w.bare, rest);
      case Double(items) =>
        var z := [0x22] + rest;
        var q := [0x22] + (Text(items) + z);
        assert WordText(w) + rest == w.bare + q;
        BareParses(w.bare, q);
        assert q[1..] == Text(items) + z;
        ItemsParse(items, z);
        Closed(rest);
        ThenTwice(w.bare, Meaning(items), Some(([], rest)));
        NothingAfter(w.bare + Meaning(items), rest);
      case Apostrophes(y) =>
        var z := [0x27] + rest;
        var q := [0x27] + (SingleText(y) + z);
        assert WordText(w) + rest == w.bare + q;
        BareParses(w.bare, q);
        assert q[1..] == SingleText(y) + z;
        SingleParses(y, z);
        Closed(rest);
        ThenTwice(w.bare, y, Some(([], rest)));
        NothingAfter(w.bare + y, rest);
    }
  }

  lemma Closed(rest: Str)
    requires rest == [] || Blank(rest[0])
    ensures Token([0x22] + rest, Quoted) == Some(([], rest)) && Token([0x27] + rest, Single) == Some(([], rest))
  {
    assert ([0x22] + rest)[1..] == rest && ([0x27] + rest)[1..] == rest;
  }

  // ---------------------------------------------------------------- lines

  /** A word, and the blanks before it. */
  datatype Piece = Piece(gap: Str, word: Word)

  function Line(ps: seq<Piece>, rest: Str): Str {
    if ps == [] then rest else ps[0].gap + WordText(ps[0].word) + Line(ps[1..], rest)
  }

  predicate LineOk(ps: seq<Piece>, rest: Str) {
    ps == [] || (AllBlank(ps[0].gap) && WordOk(ps[0].word, Line(ps[1..], rest)) && LineOk(ps[1..], rest))
  }

  function Values(ps: seq<Piece>): seq<Str> {
    if ps == [] then [] else [WordValue(ps[0].word)] + Values(ps[1..])
  }

  lemma {:induction false} GapSkipped(gap: Str, s: Str)
    requires AllBlank(gap)
    ensures Args(gap + s) == Args(s)
  {
    hide Token;
    if gap == [] {
      assert [] + s == s;
    } else {
      GapSkipped(gap[1..], s);
      assert (gap + s)[1..] == gap[1..] + s;
    }
  }

  lemma WordStarts(w: Word, rest: Str)
    requires WordOk(w, rest)
    ensures var s := WordText(w) + rest; s != [] && !IsSpace(s[0]) && SkipBlanks(s) == s
  {
  }

  lemma FirstWord(w: Word, rest: Str)
    requires WordOk(w, rest)
    ensures Args(WordText(w) + rest) == Prepend([WordValue(w)], Args(rest))
  {
    hide Token, WordText, WordValue;
    WordStarts(w, rest);
    WordParses(w, rest);
    if w.quoted.Nothing? && rest != [] {
      assert rest == [rest[0]] + rest[1..];
      GapSkipped([rest[0]], rest[1..]);
    }
  }

  /** Well-formed words are split off one by one, with their meanings. */
  lemma {:induction false} LineParses(ps: seq<Piece>, rest: Str)
    requires LineOk(ps, rest)
    ensures Args(Line(ps, rest)) == Prepend(Values(ps), Args(rest))
  {
    hide Args, WordText, WordValue, WordOk;
    if ps == [] {
      PrependNone(Args(rest));
    } else {
      var more := Line(ps[1..], rest);
      assert Line(ps, rest) == ps[0].gap + (WordText(ps[0].word) + more);
      GapSkipped(ps[0].gap, WordText(ps[0].word) + more);
      FirstWord(ps[0].word, more);
      LineParses(ps[1..], rest);
      if Args(rest).Some? {
        var v := Args(rest).value;
        assert [WordValue(ps[0].word)] + (Values(ps[1..]) + v) == [WordValue(ps[0].word)] + Values(ps[1..]) + v;
      }
    }
  }

  lemma BlankLine(s: Str)
    requires AllBlank(s)
    ensures Args(s) == Some([])
  {
    assert s + [] == s;
    GapSkipped(s, []);
  }

  // ---------------------------------------------------------------- malformed words

  /** A word whose quoted text is not closed, or closed before something else than a blank. */
  datatype Broken = Broken(gap: Str, bare: Str, quoted: Quotation, z: Str)

  function BrokenText(b: Broken): Str {
    b.gap + (b.bare + (match b.quoted
                       case Nothing => []
                       case Double(items) => [0x22] + (Text(items) + b.z)
                       case Apostrophes(y) => [0x27] + (SingleText(y) + b.z)))
  }

  predicate BrokenOk(b: Broken) {
    && AllBlank(b.gap) && BareOk(b.bare)
    && match b.quoted
       case Nothing => false
       case Double(items) => ItemsOk(items, b.z) && (b.z == [] || b.z == [0x5C] || ClosedBadly(b.z, 0x22))
       case Apostrophes(y) => b.z == [] || (ClosedBadly(b.z, 0x27) && !EndsInBackslash(y))
  }

  /** A closing quote, and behind it something else than a blank. */
  predicate ClosedBadly(z: Str, quote: Byte) {
    |z| >= 2 && z[0] == quote && !Blank(z[1])
  }

  lemma BadQuoted(z: Str)
    ensures z == [] || z == [0x5C] || ClosedBadly(z, 0x22) ==> Token(z, Quoted) == None
    ensures z == [] || ClosedBadly(z, 0x27) ==> Token(z, Single) == None
  {
    if z == [0x5C] { assert z[1..] == []; }
  }

  lemma BrokenFails(b: Broken)
    requires BrokenOk(b)
    ensures Args(BrokenText(b)) == None
  {
    hide Text, Meaning, SingleText, ItemsOk, Args;
    BadQuoted(b.z);
    var q;
    match b.quoted {
      case Double(items) =>
        q := [0x22] + (Text(items) + b.z);
        assert q[1..] == Text(items) + b.z;
        ItemsParse(items, b.z);
      case Apostrophes(y) =>
        q := [0x27] + (SingleText(y) + b.z);
        assert q[1..] == SingleText(y) + b.z;
        SingleParses(y, b.z);
    }
    assert Token(q, Bare) == None;
    BareParses(b.bare, q);
    GapSkipped(b.gap, b.bare + q);
    NoToken(b.bare + q);
  }

  lemma NoToken(s: Str)
    requires s != [] && !IsSpace(s[0]) && Token(s, Bare) == None
    ensures Args(s) == None
  {
  }

  // ---------------------------------------------------------------- every line is one or the other

  lemma {:induction false} AnalyseDouble(s: Str) returns (items: seq<Item>, z: Str)
    ensures s == Text(items) + z && ItemsOk(items, z) && (z == [] || z == [0x5C] || z[0] == 0x22)
    decreases |s|
  {
    items, z := [], s;
    if s == [] || s == [0x5C] || s[0] == 0x22 {
      assert s == [] + s;
    } else {
      var i := if s[0] != 0x5C then Lit(s[0])
               else if s[1] == 0x78 && |s| >= 4 && Hexadecimal(s[2]) && Hexadecimal(s[3]) then Hex(s[2], s[3])
               else Esc(s[1]);
      var n := |ItemText(i)|;
      assert s == ItemText(i) + s[n..];
      var more;
      more, z := AnalyseDouble(s[n..]);
      items := [i] + more;
      assert items[1..] == more && s == Text(items) + z;
    }
  }

  lemma {:induction false} AnalyseSingle(s: Str) returns (y: Str, z: Str)
    ensures s == SingleText(y) + z && (z == [] || (z[0] == 0x27 && !EndsInBackslash(y)))
    decreases |s|
  {
    hide EndsInBackslash, SingleText;
    y, z := [], s;
    if s == [] || s[0] == 0x27 {
      EmptyText(s);
    } else {
      var head := if s[0] == 0x5C && |s| > 1 && s[1] == 0x27 then [0x5C, 0x27] else [s[0]];
      var c := head[|head| - 1];
      var more;
      more, z := AnalyseSingle(s[|head|..]);
      y := [c] + more;
      assert s == head + s[|head|..];
      SingleGrows(c, head, more);
      if more == [] { EmptyText(z); }
      LastByte(c, more);
    }
  }

  lemma EmptyText(s: Str)
    ensures s == SingleText([]) + s && !EndsInBackslash([])
  {
    assert s == [] + s;
  }

  lemma SingleGrows(c: Byte, head: Str, more: Str)
    requires head == if c == 0x27 then [0x5C, 0x27] else [c]
    ensures SingleText([c] + more) == head + SingleText(more)
  {
    assert ([c] + more)[1..] == more;
  }

  lemma {:induction false} AnalyseBare(s: Str) returns (n: nat)
    ensures n <= |s| && (n < |s| ==> Ender(s[n]) || s[n] == 0x22 || s[n] == 0x27)
    ensures forall i | 0 <= i < n :: !Ender(s[i]) && s[i] != 0x22 && s[i] != 0x27
  {
    if s == [] || Ender(s[0]) || s[0] == 0x22 || s[0] == 0x27 {
      n := 0;
    } else {
      var m := AnalyseBare(s[1..]);
      n := m + 1;
      forall i | 0 <= i < n ensures !Ender(s[i]) && s[i] != 0x22 && s[i] != 0x27 {
        if i > 0 { assert s[i] == s[1..][i - 1]; }
      }
    }
  }

  lemma {:induction false} AnalyseGap(s: Str) returns (n: nat)
    ensures n <= |s| && AllBlank(s[..n]) && (n < |s| ==> !Blank(s[n]))
  {
    if s == [] || !Blank(s[0]) {
      n := 0;
    } else {
      var m := AnalyseGap(s[1..]);
      n := m + 1;
      assert s[..n] == [s[0]] + s[1..][..m];
    }
  }

  /** A word with a double-quoted text `r` behind its bytes `x`. */
  lemma AnalyseQuoted(gap: Str, x: Str, r: Str) returns (w: Word, rest: Str, b: Option<Broken>)
    requires AllBlank(gap) && BareOk(x) && r != [] && r[0] == 0x22
    ensures b.None? ==> x + r == WordText(w) + rest && WordOk(w, rest) && |rest| < |r|
    ensures b.Some? ==> gap + (x + r) == BrokenText(b.value) && BrokenOk(b.value)
  {
    hide Text, ItemsOk, BareOk, AllBlank;
    var items, z := AnalyseDouble(r[1..]);
    w, rest, b := Word(x, Double(items)), [], None;
    assert r == [0x22] + (Text(items) + z);
    if z != [] && z[0] == 0x22 && !ClosedBadly(z, 0x22) {
      rest := z[1..];
      assert z == [0x22] + rest;
      assert x + r == WordText(w) + rest;
    } else {
      b := Some(Broken(gap, x, Double(items), z));
    }
  }

  /** A word with a single-quoted text `r` behind its bytes `x`. */
  lemma AnalyseApostrophes(gap: Str, x: Str, r: Str) returns (w: Word, rest: Str, b: Option<Broken>)
    requires AllBlank(gap) && BareOk(x) && r != [] && r[0] == 0x27
    ensures b.None? ==> x + r == WordText(w) + rest && WordOk(w, rest) && |rest| < |r|
    ensures b.Some? ==> gap + (x + r) == BrokenText(b.value) && BrokenOk(b.value)
  {
    hide SingleText, BareOk, AllBlank;
    var y, z := AnalyseSingle(r[1..]);
    w, rest, b := Word(x, Apostrophes(y)), [], None;
    assert r == [0x27] + (SingleText(y) + z);
    if z != [] && !ClosedBadly(z, 0x27) {
      rest := z[1..];
      assert z == [0x27] + rest;
      assert x + r == WordText(w) + rest;
    } else {
      b := Some(Broken(gap, x, Apostrophes(y), z));
    }
  }

  /** A line that starts with a word: a well-formed word and the rest, or a malformed one. */
  lemma AnalyseWord(gap: Str, t: Str) returns (w: Word, rest: Str, b: Option<Broken>)
    requires AllBlank(gap) && t != [] && !Blank(t[0])
    ensures b.None? ==> t == WordText(w) + rest && WordOk(w, rest) && |rest| < |t|
    ensures b.Some? ==> gap + t == BrokenText(b.value) && BrokenOk(b.value)
  {
    var n := AnalyseBare(t);
    var x, r := t[..n], t[n..];
    assert t == x + r && (x != [] ==> x[0] == t[0]);
    if r != [] && r[0] == 0x22 {
      hide WordText, WordOk, BrokenText, BrokenOk;
      w, rest, b := AnalyseQuoted(gap, x, r);
    } else if r != [] && r[0] == 0x27 {
      hide WordText, WordOk, BrokenText, BrokenOk;
      w, rest, b := AnalyseApostrophes(gap, x, r);
    } else {
      w, rest, b := Word(x, Nothing), r, None;
      assert WordText(w) == x;
    }
  }

  /** A line is a list of well-formed words, and behind them blanks or a malformed word. */
  lemma {:induction false} Analyse(s: Str) returns (ps: seq<Piece>, rest: Str, b: Option<Broken>)
    ensures s == Line(ps, rest) && LineOk(ps, rest)
    ensures if b.None? then AllBlank(rest) else rest == BrokenText(b.value) && BrokenOk(b.value)
    decreases |s|
  {
    hide WordText, WordOk, BrokenText, BrokenOk;
    var n := AnalyseGap(s);
    var gap, t := s[..n], s[n..];
    assert s == gap + t;
    ps, rest, b := [], s, None;
    if t == [] {
      assert s == gap;
    } else {
      var w, more;
      w, more, b := AnalyseWord(gap, t);
      if b.None? {
        ps, rest, b := Analyse(more);
        ps := [Piece(gap, w)] + ps;
        assert ps[1..] == ps[1..];
        assert Line(ps, rest) == gap + WordText(w) + more;
      }
    }
  }

  ghost predicate WellFormed(s: Str, ps: seq<Piece>, rest: Str) {
    s == Line(ps, rest) && LineOk(ps, rest) && AllBlank(rest)
  }

  ghost predicate Malformed(s: Str, ps: seq<Piece>, b: Broken) {
    s == Line(ps, BrokenText(b)) && LineOk(ps, BrokenText(b)) && BrokenOk(b)
  }

  /** A line of well-formed words is split into what they mean. */
  lemma WellFormedParses(s: Str, ps: seq<Piece>, rest: Str)
    requires WellFormed(s, ps, rest)
    ensures Args(s) == Some(Values(ps))
  {
    hide Args;
    LineParses(ps, rest);
    BlankLine(rest);
    assert Values(ps) + [] == Values(ps);
  }

  /** Parsing fails exactly for a quote left open or a closing quote before something else than a blank,
      after well-formed words. */
  lemma FailsExactly(s: Str)
    ensures Args(s) == None <==> exists ps, b :: Malformed(s, ps, b)
    ensures Args(s).Some? <==> exists ps, rest :: WellFormed(s, ps, rest)
  {
    hide Args, Line, LineOk, BrokenOk, BrokenText;
    forall ps, b | Malformed(s, ps, b) ensures Args(s) == None {
      LineParses(ps, BrokenText(b));
      BrokenFails(b);
    }
    forall ps, rest | WellFormed(s, ps, rest) ensures Args(s).Some? {
      WellFormedParses(s, ps, rest);
    }
    var ps, rest, b := Analyse(s);
    if b.None? { assert WellFormed(s, ps, rest); } else { assert Malformed(s, ps, b.value); }
  }
}
