/** The body of a listpack: entries one after the other, and the places where they start. */
module ListpackLayout {
  import opened Bytes
  import opened Options
  import opened LittleEndian
  import opened ListpackEntries

  const LP_HDR_SIZE: nat := 6

  ghost predicate AllBodies(bs: seq<Str>) {
    forall b | b in bs :: IsBody(b)
  }

  lemma BodySize(b: Str)
    requires IsBody(b)
    ensures 1 <= |b| < 0x8_0000_0000
  {
    if b[0] == LP_ENCODING_32BIT_STR { assert |b| == EncodedSize(b, 0); }
  }

  /** An encoded element with its length behind it. */
  function Entry(b: Str): (s: seq<Byte>)
    requires IsBody(b)
    ensures |s| >= 2
  {
    BodySize(b);
    b + Backlen(|b|)
  }

  function Layout(bs: seq<Str>): seq<Byte>
    requires AllBodies(bs)
  {
    if bs == [] then [] else Entry(bs[0]) + Layout(bs[1..])
  }

  lemma {:induction false} LayoutJoin(a: seq<Str>, b: seq<Str>)
    requires AllBodies(a) && AllBodies(b)
    ensures AllBodies(a + b) && Layout(a + b) == Layout(a) + Layout(b)
  {
    hide Entry, IsBody;
    if a == [] {
      assert a + b == b;
    } else {
      LayoutJoin(a[1..], b);
      assert (a + b)[1..] == a[1..] + b;
      assert Entry(a[0]) + (Layout(a[1..]) + Layout(b)) == Entry(a[0]) + Layout(a[1..]) + Layout(b);
    }
  }

  lemma LayoutOne(b: Str)
    requires IsBody(b)
    ensures AllBodies([b]) && Layout([b]) == Entry(b)
  {
    hide Entry;
    assert [b][1..] == [];
  }

  /** The offset of the i-th entry; the one after the last is that of the end mark. */
  function Offset(bs: seq<Str>, i: nat): (p: nat)
    requires AllBodies(bs) && i <= |bs|
    ensures p >= LP_HDR_SIZE
  {
    LP_HDR_SIZE + |Layout(bs[..i])|
  }

  /** A buffer with a header of six bytes, the entries, and the end mark. */
  ghost predicate Holds(m: seq<Byte>, bs: seq<Str>) {
    AllBodies(bs) && |m| >= LP_HDR_SIZE && m == m[..LP_HDR_SIZE] + Layout(bs) + [LP_EOF]
  }

  /** The buffer cut at one entry. */
  lemma CutAt(m: seq<Byte>, bs: seq<Str>, i: nat)
    requires Holds(m, bs) && i < |bs|
    ensures AllBodies(bs[..i]) && AllBodies(bs[i + 1..]) && IsBody(bs[i])
    ensures Offset(bs, i) + |Entry(bs[i])| == Offset(bs, i + 1) < |m|
    ensures var p := Offset(bs, i);
            && m[..p] == m[..LP_HDR_SIZE] + Layout(bs[..i])
            && m == m[..p] + Entry(bs[i]) + m[p + |Entry(bs[i])|..]
            && m[p + |Entry(bs[i])|..] == Layout(bs[i + 1..]) + [LP_EOF]
  {
    hide Entry, IsBody, Layout;
    var (a, b, c) := (bs[..i], bs[i], bs[i + 1..]);
    assert bs == a + ([b] + c) && bs[..i + 1] == a + [b];
    LayoutOne(b);
    LayoutJoin([b], c);
    LayoutJoin(a, [b] + c);
    LayoutJoin(a, [b]);
    CutSeq(m, m[..LP_HDR_SIZE], Layout(a), Entry(b), Layout(c), [LP_EOF]);
  }

  lemma CutSeq(m: seq<Byte>, h: seq<Byte>, a: seq<Byte>, e: seq<Byte>, c: seq<Byte>, z: seq<Byte>)
    requires m == h + (a + (e + c)) + z
    ensures var p := |h| + |a|; m[..p] == h + a && m == m[..p] + e + m[p + |e|..] && m[p + |e|..] == c + z
  {
  }

  lemma CutAtEnd(m: seq<Byte>, bs: seq<Str>)
    requires Holds(m, bs)
    ensures Offset(bs, |bs|) == |m| - 1 && m[|m| - 1] == LP_EOF
    ensures m[..|m| - 1] == m[..LP_HDR_SIZE] + Layout(bs)
  {
    hide Layout;
    assert bs[..|bs|] == bs;
  }

  /** Reading at an entry. */
  lemma EntryReads(m: seq<Byte>, bs: seq<Str>, i: nat)
    requires Holds(m, bs) && i < |bs|
    ensures IsBody(bs[i])
    ensures var p := Offset(bs, i);
            && p < |m| && m[p] == bs[i][0] && m[p] != LP_EOF && p + HeaderSize(m[p]) <= |m|
            && EncodedSize(m, p) == |bs[i]| < 0x8_0000_0000
            && p + |bs[i]| + BackSize(|bs[i]|) == Offset(bs, i + 1) < |m|
            && ContentAt(m, p) == ContentAt(bs[i], 0)
  {
    hide Layout, IsBody, EncodedSize, ContentAt, HeaderSize, Backlen, BackSize;
    var (p, b) := (Offset(bs, i), bs[i]);
    CutAt(m, bs, i);
    BodySize(b);
    var rest := Backlen(|b|) + m[p + |Entry(b)|..];
    assert m == m[..p] + b + rest;
    ReadsInPlace(m[..p], b, rest);
    BodyStarts(b);
  }

  lemma BodyStarts(b: Str)
    requires IsBody(b)
    ensures b[0] != LP_EOF && b[0] <= LP_ENCODING_64BIT_INT
    ensures b[0] == LP_ENCODING_32BIT_STR ==> |b| >= 5
  {
  }

  /** What lies before an entry that is not the first: the length of the one before it. */
  lemma BacklenBefore(m: seq<Byte>, bs: seq<Str>, i: nat)
    requires Holds(m, bs) && i < |bs|
    ensures IsBody(bs[i]) && |bs[i]| < 0x8_0000_0000
    ensures var q := Offset(bs, i + 1);
            && q <= |m| && EndsInField(m[..q], BackSize(|bs[i]|)) && FieldValue(m[..q], BackSize(|bs[i]|)) == |bs[i]|
  {
    hide Layout, IsBody, EndsInField, FieldValue, Backlen, BackSize;
    var (p, b) := (Offset(bs, i), bs[i]);
    CutAt(m, bs, i);
    BodySize(b);
    assert m[..Offset(bs, i + 1)] == m[..p] + b + Backlen(|b|);
    BacklenReads(m[..p] + b, |b|);
  }

  // ---------------------------------------------------------------- edits

  function Listed<T>(e: Option<T>): seq<T> {
    if e.Some? then [e.value] else []
  }

  /** `r` elements from place `i` on replaced by at most one. */
  function Edited<T>(s: seq<T>, i: nat, r: nat, e: Option<T>): seq<T>
    requires i + r <= |s|
  {
    s[..i] + Listed(e) + s[i + r..]
  }

  function NewBytes(e: Option<Str>): seq<Byte>
    requires e.Some? ==> IsBody(e.value)
  {
    if e.Some? then Entry(e.value) else []
  }

  /** Splicing the bytes of an entry into the buffer edits the list. */
  lemma Spliced(m: seq<Byte>, n: seq<Byte>, bs: seq<Str>, i: nat, r: nat, e: Option<Str>)
    requires Holds(m, bs) && i + r <= |bs| && (e.Some? ==> IsBody(e.value))
    requires LP_HDR_SIZE <= Offset(bs, i) <= Offset(bs, i + r) <= |m| && |n| >= LP_HDR_SIZE
    requires n == n[..LP_HDR_SIZE] + m[LP_HDR_SIZE..Offset(bs, i)] + NewBytes(e) + m[Offset(bs, i + r)..]
    ensures Holds(n, Edited(bs, i, r, e))
    ensures Offset(Edited(bs, i, r, e), i) == Offset(bs, i)
  {
    hide Layout, IsBody, Entry;
    var (a, d, c) := (bs[..i], bs[i..i + r], bs[i + r..]);
    var t := Edited(bs, i, r, e);
    assert bs == a + (d + c) && bs[..i + r] == a + d;
    LayoutJoin(d, c);
    LayoutJoin(a, d + c);
    LayoutJoin(a, d);
    NewLayout(e);
    LayoutJoin(Listed(e), c);
    LayoutJoin(a, Listed(e) + c);
    assert t == a + (Listed(e) + c) && t[..i] == a;
    SpliceSeq(m, n, m[..LP_HDR_SIZE], Layout(a), Layout(d), Layout(c), NewBytes(e), [LP_EOF]);
  }

  lemma NewLayout(e: Option<Str>)
    requires e.Some? ==> IsBody(e.value)
    ensures AllBodies(Listed(e)) && Layout(Listed(e)) == NewBytes(e)
  {
    if e.Some? { LayoutOne(e.value); }
  }

  lemma SpliceSeq(m: seq<Byte>, n: seq<Byte>, h: seq<Byte>, a: seq<Byte>, d: seq<Byte>, c: seq<Byte>, e: seq<Byte>,
                  z: seq<Byte>)
    requires m == h + (a + (d + c)) + z && |n| >= |h|
    requires n == n[..|h|] + m[|h|..|h| + |a|] + e + m[|h| + |a| + |d|..]
    ensures n == n[..|h|] + (a + (e + c)) + z
  {
    assert m[|h|..|h| + |a|] == a && m[|h| + |a| + |d|..] == c + z;
  }

  lemma {:induction false} OffsetsGrow(bs: seq<Str>, i: nat, j: nat)
    requires AllBodies(bs) && i <= j <= |bs|
    ensures Offset(bs, i) <= Offset(bs, j) && Offset(bs, j) - Offset(bs, i) >= 2 * (j - i)
  {
    hide IsBody, Entry;
    var (a, d) := (bs[..i], bs[i..j]);
    assert bs[..j] == a + d;
    LayoutJoin(a, d);
    LayoutLength(d);
  }

  lemma {:induction false} LayoutLength(bs: seq<Str>)
    requires AllBodies(bs)
    ensures |Layout(bs)| >= 2 * |bs|
  {
    hide IsBody;
    if bs != [] { LayoutLength(bs[1..]); }
  }

  /** The elements a list of encodings stands for. */
  ghost function Elements(bs: seq<Str>): (s: seq<Str>)
    requires AllBodies(bs)
    ensures |s| == |bs|
  {
    seq(|bs|, i requires 0 <= i < |bs| => Element(bs[i]))
  }

  lemma ElementsEdited(bs: seq<Str>, i: nat, r: nat, e: Option<Str>, x: Option<Str>)
    requires AllBodies(bs) && i + r <= |bs| && e.Some? == x.Some?
    requires e.Some? ==> IsBody(e.value) && Element(e.value) == x.value
    ensures AllBodies(Edited(bs, i, r, e)) && Elements(Edited(bs, i, r, e)) == Edited(Elements(bs), i, r, x)
  {
    hide IsBody, Element;
    var t := Edited(bs, i, r, e);
    forall b | b in t ensures IsBody(b) { }
    assert |Elements(t)| == |Edited(Elements(bs), i, r, x)|;
    forall j | 0 <= j < |t| ensures Elements(t)[j] == Edited(Elements(bs), i, r, x)[j] { }
  }
}
