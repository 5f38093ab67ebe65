/** The sorted set of integers of src/set/intset.c: one block of bytes whose records are all as
    wide as the widest member needs. */
module IntSet {
  import opened Bytes
  import opened LittleEndian
  import opened Memory
  import opened PackedValues

  const INTSET_ENC_INT16: nat := 2
  const INTSET_ENC_INT32: nat := 4
  const INTSET_ENC_INT64: nat := 8

  const INT_MAX: nat := 0x7FFF_FFFF
  const UINT32: nat := 0x1_0000_0000

  predicate Int64(v: int) {
    -0x8000_0000_0000_0000 <= v <= 0x7FFF_FFFF_FFFF_FFFF
  }

  /** The narrowest encoding for a value. */
  function ValueEncoding(v: int): (e: nat)
    requires Int64(v)
    ensures Width(e) && Fits(v, e)
    ensures forall w | Width(w) && Fits(v, w) :: e <= w
  {
    Widths();
    if v < -0x8000_0000 || v > 0x7FFF_FFFF then INTSET_ENC_INT64
    else if v < -0x8000 || v > 0x7FFF then INTSET_ENC_INT32
    else INTSET_ENC_INT16
  }

  // ---------------------------------------------------------------- sorted sequences of integers

  ghost predicate Sorted(s: seq<int>) {
    forall i, j | 0 <= i < j < |s| :: s[i] < s[j]
  }

  /** The number of members below `v`. */
  function Rank(s: seq<int>, v: int): (n: nat)
    ensures n <= |s|
  {
    if s == [] || v <= s[0] then 0 else 1 + Rank(s[1..], v)
  }

  function Inserted(s: seq<int>, v: int): seq<int> {
    s[..Rank(s, v)] + [v] + s[Rank(s, v)..]
  }

  function Deleted(s: seq<int>, v: int): seq<int> {
    if Rank(s, v) < |s| then s[..Rank(s, v)] + s[Rank(s, v) + 1..] else s
  }

  ghost predicate Splits(s: seq<int>, v: int, p: nat) {
    && p <= |s|
    && (forall i | 0 <= i < p :: s[i] < v)
    && (forall i | p <= i < |s| :: v <= s[i])
  }

  lemma {:induction false} RankSplits(s: seq<int>, v: int)
    requires Sorted(s)
    ensures Splits(s, v, Rank(s, v))
    ensures v in s <==> Rank(s, v) < |s| && s[Rank(s, v)] == v
  {
    if s != [] && v > s[0] {
      RankSplits(s[1..], v);
      forall i | Rank(s, v) <= i < |s| ensures v <= s[i] { assert s[i] == s[1..][i - 1]; }
      forall i | 0 <= i < Rank(s, v) ensures s[i] < v { if i > 0 { assert s[i] == s[1..][i - 1]; } }
      assert v in s <==> v in s[1..];
    }
  }

  lemma RankIs(s: seq<int>, v: int, p: nat)
    requires Sorted(s) && Splits(s, v, p)
    ensures Rank(s, v) == p
  {
    RankSplits(s, v);
    SplitOrder(s, v, p, Rank(s, v));
    SplitOrder(s, v, Rank(s, v), p);
  }

  lemma SplitOrder(s: seq<int>, v: int, p: nat, q: nat)
    requires Splits(s, v, p) && Splits(s, v, q)
    ensures p <= q
  {
    if s != [] {
      var y := s[if q < |s| then q else 0];
    }
  }

  /** Inserting and deleting keep the order and are the set operations. */
  lemma InsertedIsUnion(s: seq<int>, v: int)
    requires Sorted(s) && v !in s
    ensures Sorted(Inserted(s, v)) && |Inserted(s, v)| == |s| + 1
    ensures forall x :: x in Inserted(s, v) <==> x in s || x == v
  {
    hide Rank;
    RankSplits(s, v);
    PutSorted(s, v, Rank(s, v));
    PutMembers(s, v, Rank(s, v));
  }

  lemma PutSorted(s: seq<int>, v: int, p: nat)
    requires Sorted(s) && Splits(s, v, p) && v !in s
    ensures Sorted(s[..p] + [v] + s[p..])
  {
    var t := s[..p] + [v] + s[p..];
    forall i | 0 <= i < |t| ensures t[i] == if i < p then s[i] else if i == p then v else s[i - 1] {
    }
    forall i, j | 0 <= i < j < |t| ensures t[i] < t[j] {
      if j > p { assert s[j - 1] in s; }
    }
  }

  lemma PutMembers(s: seq<int>, v: int, p: nat)
    requires p <= |s|
    ensures forall x :: x in s[..p] + [v] + s[p..] <==> x in s || x == v
  {
    assert s == s[..p] + s[p..];
  }

  lemma DeletedIsDifference(s: seq<int>, v: int)
    requires Sorted(s) && v in s
    ensures Sorted(Deleted(s, v)) && |Deleted(s, v)| == |s| - 1
    ensures forall x :: x in Deleted(s, v) <==> x in s && x != v
  {
    RankSplits(s, v);
    var p, t := Rank(s, v), Deleted(s, v);
    forall x ensures x in t <==> x in s && x != v {
      assert s == s[..p] + [s[p]] + s[p + 1..];
      assert forall i | 0 <= i < p :: s[i] != v;
      assert forall i | p + 1 <= i < |s| :: s[i] != v;
    }
  }

  // ---------------------------------------------------------------- the byte counts of a move

  /** The bytes that `a` records take in the 32-bit variable of the source. */
  function TailBytes(a: nat, w: nat): nat {
    a * w % UINT32
  }

  /** The whole tail is moved only when its size fits 32 bits. */
  predicate TailFits(a: int, w: nat) {
    a * w < UINT32
  }

  lemma WrappedTail(a: nat, w: nat) returns (m: nat)
    requires Width(w)
    ensures TailBytes(a, w) == m * w && m <= a
    ensures TailFits(a, w) <==> m == a
    ensures !TailFits(a, w) ==> m + 1 < a
  {
    if w == 2 { m := WrapTwo(a); } else if w == 4 { m := WrapFour(a); } else { m := WrapEight(a); }
  }

  lemma WrapTwo(a: nat) returns (m: nat)
    ensures a * 2 % UINT32 == m * 2 && m <= a && (a * 2 < UINT32 <==> m == a) && (a * 2 >= UINT32 ==> m + 1 < a)
  {
    m := a % 0x8000_0000;
  }

  lemma WrapFour(a: nat) returns (m: nat)
    ensures a * 4 % UINT32 == m * 4 && m <= a && (a * 4 < UINT32 <==> m == a) && (a * 4 >= UINT32 ==> m + 1 < a)
  {
    m := a % 0x4000_0000;
  }

  lemma WrapEight(a: nat) returns (m: nat)
    ensures a * 8 % UINT32 == m * 8 && m <= a && (a * 8 < UINT32 <==> m == a) && (a * 8 >= UINT32 ==> m + 1 < a)
  {
    m := a % 0x2000_0000;
  }

  /** A set that is too long: 2^29 members of eight bytes each above 0, to which 0 is added. */
  lemma TooLong()
    ensures var s := seq(0x2000_0000, i requires 0 <= i < 0x2000_0000 => 0x100_0000_0000 + i);
            && Sorted(s) && 0 !in s && ValueEncoding(0) < INTSET_ENC_INT64
            && TailBytes(|s| - Rank(s, 0), INTSET_ENC_INT64) == 0 && !TailFits(|s| - Rank(s, 0), INTSET_ENC_INT64)
  {
    var s := seq(0x2000_0000, i requires 0 <= i < 0x2000_0000 => 0x100_0000_0000 + i);
    RankIs(s, 0, 0);
  }

  /** A set that is too long for the removal of its least member, with 2^29 others behind it. */
  lemma TooLongToRemove()
    ensures var s := seq(0x2000_0001, i requires 0 <= i < 0x2000_0001 => 0x100_0000_0000 + i);
            && Sorted(s) && s[0] in s && ValueEncoding(s[0]) == INTSET_ENC_INT64
            && TailBytes(|s| - 1 - Rank(s, s[0]), INTSET_ENC_INT64) == 0
               && !TailFits(|s| - 1 - Rank(s, s[0]), INTSET_ENC_INT64)
  {
    var s := seq(0x2000_0001, i requires 0 <= i < 0x2000_0001 => 0x100_0000_0000 + i);
    RankIs(s, s[0], 0);
  }

  /** The record at `k` after `m` records have moved. */
  lemma MovedValue(b: seq<Byte>, w: nat, from: nat, to: nat, m: nat, k: nat)
    requires Width(w) && (from + m) * w <= |b| && (to + m) * w <= |b| && (k + 1) * w <= |b|
    ensures from * w + m * w <= |b| && to * w + m * w <= |b|
    ensures to <= k < to + m ==> (k - to + from + 1) * w <= |b|
    ensures ValueAt(Moved(b, from * w, to * w, m * w), w, k)
            == if to <= k < to + m then ValueAt(b, w, k - to + from) else ValueAt(b, w, k)
  {
    hide ValueAt, Moved;
    RunEnd(w, from, m);
    RunEnd(w, to, m);
    if to <= k < to + m {
      InRun(w, from, to, m, k);
      MovedInside(b, w, from, to, m, k);
    } else {
      MovedOutside(b, w, from, to, m, k);
    }
  }

  lemma RunEnd(w: nat, from: nat, m: nat)
    ensures (from + m) * w == from * w + m * w
  {
  }

  lemma MovedInside(b: seq<Byte>, w: nat, from: nat, to: nat, m: nat, k: nat)
    requires Width(w) && from * w + m * w <= |b| && to * w + m * w <= |b| && (k + 1) * w <= |b| && to <= k < to + m
    ensures (k - to + from + 1) * w <= |b|
    ensures ValueAt(Moved(b, from * w, to * w, m * w), w, k) == ValueAt(b, w, k - to + from)
  {
    hide Signed, Moved;
    var j := k - to + from;
    SlotRange(w, k);
    SlotRange(w, j);
    InRun(w, from, to, m, k);
    RunEnd(w, from, m);
    MovedSlice(b, from * w, to * w, m * w, k * w - to * w, w);
    assert Slot(Moved(b, from * w, to * w, m * w), w, k) == Slot(b, w, j);
  }

  lemma MovedOutside(b: seq<Byte>, w: nat, from: nat, to: nat, m: nat, k: nat)
    requires Width(w) && from * w + m * w <= |b| && to * w + m * w <= |b| && (k + 1) * w <= |b| && !(to <= k < to + m)
    ensures ValueAt(Moved(b, from * w, to * w, m * w), w, k) == ValueAt(b, w, k)
  {
    hide Signed, Moved;
    SlotRange(w, k);
    OutOfRun(w, to, m, k);
    NotMoved(b, from * w, to * w, m * w, k * w, w);
    assert Slot(Moved(b, from * w, to * w, m * w), w, k) == Slot(b, w, k);
  }

  lemma InRun(w: nat, from: nat, to: nat, m: nat, k: nat)
    requires Width(w) && to <= k < to + m
    ensures to * w <= k * w && k * w + w <= to * w + m * w && k * w - to * w == (k - to + from) * w - from * w
    ensures (k - to + from + 1) * w <= (from + m) * w
  {
  }

  lemma OutOfRun(w: nat, to: nat, m: nat, k: nat)
    requires Width(w) && !(to <= k < to + m)
    ensures k * w + w <= to * w || to * w + m * w <= k * w
  {
  }

  /** Half way through a widening from `w` to `x` bytes: the first `i` records are still narrow, the
      others are wide and shifted up by `shift`. */
  ghost predicate Widening(b: seq<Byte>, w: nat, x: nat, shift: nat, s: seq<int>, i: nat) {
    && Width(w) && Width(x) && w < x && i <= |s| && (|s| + 1) * x <= |b| && shift <= 1
    && (forall k: nat | k < i :: (k + 1) * w <= |b| && ValueAt(b, w, k) == s[k])
    && (forall k: nat | i <= k < |s| :: (k + shift + 1) * x <= |b| && ValueAt(b, x, k + shift) == s[k])
  }

  lemma NarrowBelow(b: seq<Byte>, w: nat, x: nat, shift: nat, p: seq<Byte>, k: nat, j: nat)
    requires Width(w) && Width(x) && w < x && k < j && (k + 1) * w <= |b| && (j + shift) * x + |p| <= |b|
    ensures ValueAt(Patched(b, (j + shift) * x, p), w, k) == ValueAt(b, w, k)
  {
    hide Signed;
    SlotRange(w, k);
    StillBelow(w, x, shift, k, j);
    SamePart(b, Patched(b, (j + shift) * x, p), w, k);
  }

  lemma StillBelow(w: nat, x: nat, shift: nat, k: nat, i: nat)
    requires Width(w) && Width(x) && w < x && k < i
    ensures k * w + w <= (i + shift) * x
  {
  }

  lemma WidenBounds(b: seq<Byte>, w: nat, x: nat, shift: nat, s: seq<int>, i: nat)
    requires Widening(b, w, x, shift, s, i) && i > 0
    ensures (i + shift) * x <= |b| && (i - 1 + shift) * x + x <= |b| && (i - 1 + 1) * w <= |b|
    ensures Fits(s[i - 1], x) && s[i - 1] == ValueAt(b, w, i - 1)
  {
    hide Signed, Fits;
    var j := i - 1;
    SlotRange(x, j + shift);
    Ordered(x, j + shift, |s| + 1);
    SignedFits(Slot(b, w, j));
    FitsMore(s[j], w, x);
  }

  lemma WidenStep(b: seq<Byte>, w: nat, x: nat, shift: nat, s: seq<int>, i: nat)
    requires Widening(b, w, x, shift, s, i) && i > 0
    requires (i - 1 + shift) * x + x <= |b| && Fits(s[i - 1], x)
    ensures Widening(Patched(b, (i - 1 + shift) * x, Pack(s[i - 1], x)), w, x, shift, s, i - 1)
  {
    hide ValueAt, Pack, Fits, Patched;
    var j := i - 1;
    SlotRange(x, j + shift);
    var c := Patched(b, (j + shift) * x, Pack(s[j], x));
    forall k: nat | k < j ensures (k + 1) * w <= |c| && ValueAt(c, w, k) == s[k] {
      NarrowBelow(b, w, x, shift, Pack(s[j], x), k, j);
    }
    forall k: nat | j <= k < |s| ensures (k + shift + 1) * x <= |c| && ValueAt(c, x, k + shift) == s[k] {
      WideAt(b, w, x, shift, s, i, k);
    }
  }

  /** One wide record after another was written. */
  lemma WideAt(b: seq<Byte>, w: nat, x: nat, shift: nat, s: seq<int>, i: nat, k: nat)
    requires Widening(b, w, x, shift, s, i) && 0 < i <= k + 1 <= |s|
    requires (i - 1 + shift) * x + x <= |b| && Fits(s[i - 1], x)
    ensures var c := Patched(b, (i - 1 + shift) * x, Pack(s[i - 1], x));
            (k + shift + 1) * x <= |c| && ValueAt(c, x, k + shift) == s[k]
  {
    hide ValueAt, Pack, Fits, Patched;
    SlotRange(x, i - 1 + shift);
    Ordered(x, k + shift, |s| + 1);
    PatchedValue(b, x, i - 1 + shift, s[i - 1], k + shift);
  }

  lemma WidenStart(b: seq<Byte>, c: seq<Byte>, w: nat, x: nat, shift: nat, s: seq<int>)
    requires Width(w) && Width(x) && w < x && |b| == |s| * w && |c| == (|s| + 1) * x && shift <= 1
    requires s == Values(b, w, |s|)
    requires SamePrefix(b, c)
    ensures Widening(c, w, x, shift, s, |s|)
  {
    hide Signed;
    forall k: nat | k < |s| ensures (k + 1) * w <= |c| && ValueAt(c, w, k) == s[k] {
      Ordered(w, k, |s|);
      SlotRange(w, k);
      StillBelow(w, x, 0, k, |s|);
      SlotRange(x, |s|);
      SamePart(b, c, w, k);
    }
  }

  /** The wide block with the new value at its free end. */
  lemma WidenEnd(b: seq<Byte>, w: nat, x: nat, shift: nat, s: seq<int>, value: int)
    requires Widening(b, w, x, shift, s, 0) && |b| == (|s| + 1) * x && Fits(value, x)
    ensures var at := if shift == 1 then 0 else |s|;
            && at * x + x <= |b|
            && Values(Patched(b, at * x, Pack(value, x)), x, |s| + 1)
               == if shift == 1 then [value] + s else s + [value]
  {
    hide ValueAt, Pack, Fits, Patched;
    var at := if shift == 1 then 0 else |s|;
    SlotRange(x, at);
    Ordered(x, at, |s| + 1);
    var c := Patched(b, at * x, Pack(value, x));
    var t := if shift == 1 then [value] + s else s + [value];
    forall k: nat | k < |s| + 1 ensures (k + 1) * x <= |c| && ValueAt(c, x, k) == t[k] {
      Ordered(x, k, |s| + 1);
      PatchedValue(b, x, at, value, k);
      if k != at {
        var j := k - shift;
        assert (j + shift + 1) * x <= |b| && ValueAt(b, x, j + shift) == s[j];
      }
    }
  }

  /** A value that needs more bytes than all members lies outside them. */
  lemma Outside(b: seq<Byte>, w: nat, n: nat, value: int)
    requires Width(w) && n * w <= |b| && Int64(value) && ValueEncoding(value) > w
    requires Sorted(Values(b, w, n))
    ensures var s := Values(b, w, n);
            value !in s && Inserted(s, value) == if value < 0 then [value] + s else s + [value]
  {
    hide Fits, Rank, Signed;
    var s := Values(b, w, n);
    forall k | 0 <= k < n ensures if value < 0 then value < s[k] else s[k] < value {
      Ordered(w, k, n);
      SignedFits(Slot(b, w, k));
      Wider(value, s[k], w);
    }
    RankIs(s, value, if value < 0 then 0 else n);
    RankSplits(s, value);
  }

  lemma Wider(value: int, y: int, w: nat)
    requires Width(w) && Int64(value) && !Fits(value, w) && Fits(y, w)
    ensures if value < 0 then value < y else y < value
  {
  }

  /** Records of a resized block. */
  lemma ResizedValue(b: seq<Byte>, c: seq<Byte>, w: nat, n: nat, k: nat)
    requires Width(w) && n * w <= |b| && k < n && (k + 1) * w <= |c|
    requires SamePrefix(b, c)
    ensures ValueAt(c, w, k) == Values(b, w, n)[k]
  {
    hide Signed;
    Ordered(w, k, n);
    SlotRange(w, k);
    SamePart(b, c, w, k);
  }

  lemma AllResized(b: seq<Byte>, c: seq<Byte>, w: nat, n: nat)
    requires Width(w) && n * w <= |b| && |c| == (n + 1) * w
    requires SamePrefix(b, c)
    ensures forall j: nat | j < n :: (j + 1) * w <= |c| && ValueAt(c, w, j) == Values(b, w, n)[j]
  {
    forall j: nat | j < n ensures (j + 1) * w <= |c| && ValueAt(c, w, j) == Values(b, w, n)[j] {
      Ordered(w, j, n + 1);
      ResizedValue(b, c, w, n, j);
    }
  }

  /** A block with room for one more record, after `m` of the records from `p` on have moved up and
      `value` is written at `p`. */
  function AfterInsert(b: seq<Byte>, w: nat, p: nat, m: nat, value: int): (r: seq<Byte>)
    requires Width(w) && Fits(value, w)
    requires p * w + m * w <= |b| && (p + 1) * w + m * w <= |b| && p * w + w <= |b|
    ensures |r| == |b|
  {
    Patched(Moved(b, p * w, (p + 1) * w, m * w), p * w, Pack(value, w))
  }

  lemma RevealAfter(b: seq<Byte>, w: nat, p: nat, m: nat, value: int)
    requires Width(w) && Fits(value, w)
    requires p * w + m * w <= |b| && (p + 1) * w + m * w <= |b| && p * w + w <= |b|
    ensures AfterInsert(b, w, p, m, value)
            == Patched(Moved(b, p * w, (p + 1) * w, m * w), p * w, Pack(value, w))
  {
  }

  lemma NothingMoved(b: seq<Byte>, from: nat, to: nat)
    requires from <= |b| && to <= |b|
    ensures Moved(b, from, to, 0) == b
  {
  }

  lemma MoreRecords(w: nat, m: nat, n: nat)
    requires Width(w) && m <= n
    ensures m * w <= n * w
  {
  }

  lemma InsertValue(b: seq<Byte>, w: nat, s: seq<int>, p: nat, m: nat, value: int, k: nat)
    requires Width(w) && |b| == (|s| + 1) * w && Fits(value, w) && p + m <= |s| && k <= |s|
    requires forall j: nat | j < |s| :: (j + 1) * w <= |b| && ValueAt(b, w, j) == s[j]
    ensures p * w + m * w <= |b| && (p + 1) * w + m * w <= |b| && p * w + w <= |b|
    ensures k == p ==> Values(AfterInsert(b, w, p, m, value), w, |s| + 1)[k] == value
    ensures p < k <= p + m ==> Values(AfterInsert(b, w, p, m, value), w, |s| + 1)[k] == s[k - 1]
    ensures k < p || p + m < k < |s| ==> Values(AfterInsert(b, w, p, m, value), w, |s| + 1)[k] == s[k]
  {
    hide ValueAt, Pack, Fits, Patched, Moved;
    RunFits(w, p, m, |s|);
    Ordered(w, k, |s| + 1);
    Ordered(w, p, |s| + 1);
    var c := Moved(b, p * w, (p + 1) * w, m * w);
    PatchedValue(c, w, p, value, k);
    MovedValue(b, w, p, p + 1, m, k);
  }

  /** The insertion is right exactly when the whole tail has moved. */
  lemma InsertDone(b: seq<Byte>, w: nat, s: seq<int>, p: nat, m: nat, value: int)
    requires Width(w) && |b| == (|s| + 1) * w && Fits(value, w) && Sorted(s)
    requires forall j: nat | j < |s| :: (j + 1) * w <= |b| && ValueAt(b, w, j) == s[j]
    requires p == Rank(s, value) && p + m <= |s| && (m == |s| - p || m + 1 < |s| - p)
    ensures p * w + m * w <= |b| && (p + 1) * w + m * w <= |b| && p * w + w <= |b|
    ensures Values(AfterInsert(b, w, p, m, value), w, |s| + 1) == Inserted(s, value) <==> m == |s| - p
  {
    hide ValueAt, Fits, AfterInsert, Rank, Values;
    RunFits(w, p, m, |s|);
    var t := Values(AfterInsert(b, w, p, m, value), w, |s| + 1);
    if m == |s| - p {
      forall k: nat | k <= |s| ensures t[k] == Inserted(s, value)[k] {
        InsertValue(b, w, s, p, m, value, k);
      }
      assert t == Inserted(s, value);
    } else {
      InsertValue(b, w, s, p, m, value, p + m + 1);
      assert Inserted(s, value)[p + m + 1] == s[p + m];
    }
  }

  lemma RunFits(w: nat, p: nat, m: nat, n: nat)
    requires Width(w) && p + m <= n
    ensures (p + m) * w <= (n + 1) * w && (p + 1 + m) * w <= (n + 1) * w && p * w + w <= (n + 1) * w
    ensures p * w + m * w <= (n + 1) * w && (p + 1) * w + m * w <= (n + 1) * w
  {
  }

  /** `m` of the records after `p` have moved down over it, and the last record is cut off: right
      exactly when the whole tail has moved. */
  lemma DeleteDone(b: seq<Byte>, c: seq<Byte>, w: nat, s: seq<int>, p: nat, m: nat, value: int)
    requires Width(w) && |b| == |s| * w && s == Values(b, w, |s|) && Sorted(s) && value in s
    requires p == Rank(s, value) && p < |s| && p + 1 + m <= |s| && |c| == (|s| - 1) * w
    requires p * w + m * w <= |b| && (p + 1) * w + m * w <= |b|
    requires SamePrefix(Moved(b, (p + 1) * w, p * w, m * w), c)
    requires m == |s| - 1 - p || m + 1 < |s| - 1 - p
    ensures Values(c, w, |s| - 1) == Deleted(s, value) <==> m == |s| - 1 - p
  {
    hide ValueAt, Patched, Moved, Rank, Values;
    var t := Values(c, w, |s| - 1);
    if m == |s| - 1 - p {
      forall k: nat | k < |s| - 1 ensures t[k] == Deleted(s, value)[k] {
        DeleteValue(b, c, w, s, p, m, k);
      }
      assert t == Deleted(s, value);
    } else {
      DeleteValue(b, c, w, s, p, m, p + m);
      assert Deleted(s, value)[p + m] == s[p + m + 1];
    }
  }

  lemma DeleteValue(b: seq<Byte>, c: seq<Byte>, w: nat, s: seq<int>, p: nat, m: nat, k: nat)
    requires Width(w) && |b| == |s| * w && s == Values(b, w, |s|)
    requires p < |s| && p + 1 + m <= |s| && |c| == (|s| - 1) * w && k < |s| - 1
    requires p * w + m * w <= |b| && (p + 1) * w + m * w <= |b|
    requires SamePrefix(Moved(b, (p + 1) * w, p * w, m * w), c)
    ensures Values(c, w, |s| - 1)[k] == if p <= k < p + m then s[k + 1] else s[k]
  {
    hide ValueAt, Patched, Moved;
    var n := |s|;
    Ordered(w, k, n - 1);
    Ordered(w, k, n);
    RunFits(w, p, m, n - 1);
    ResizedValue(Moved(b, (p + 1) * w, p * w, m * w), c, w, n, k);
    MovedValue(b, w, p + 1, p, m, k);
  }

  class IntSet {
    var encoding: nat
    var length: nat
    var contents: array<Byte>

    ghost predicate Shape()
      reads this, contents
    {
      Width(encoding) && length <= INT_MAX && contents.Length == length * encoding
    }

    /** The members, in order. */
    ghost function Elements(): (s: seq<int>)
      requires Shape()
      reads this, contents
      ensures |s| == length
    {
      Values(contents[..], encoding, length)
    }

    ghost predicate Valid()
      reads this, contents
    {
      Shape() && Sorted(Elements())
    }

    constructor ()
      ensures Valid() && Elements() == [] && encoding == INTSET_ENC_INT16 && fresh(contents)
    {
      encoding := INTSET_ENC_INT16;
      length := 0;
      contents := new Byte[0];
    }

    /** The record at `pos`, read with a given width. */
    function GetEncoded(pos: nat, enc: nat): int
      requires Width(enc) && (pos + 1) * enc <= contents.Length
      reads this, contents
    {
      ValueAt(contents[..], enc, pos)
    }

    /** Write a record with the current width. */
    method Set(pos: nat, value: int)
      requires Width(encoding) && (pos + 1) * encoding <= contents.Length && Fits(value, encoding)
      modifies contents
      ensures contents[..] == Patched(old(contents[..]), pos * encoding, Pack(value, encoding))
    {
      SlotRange(encoding, pos);
      MemCopy(contents, pos * encoding, Pack(value, encoding));
    }

    /** Make room for `len` records, keeping what was there. */
    method Resize(len: nat)
      requires Width(encoding) && len <= INT_MAX
      modifies this`contents
      ensures fresh(contents) && contents.Length == len * encoding
      ensures SamePrefix(old(contents[..]), contents[..])
    {
      contents := Realloc(contents, len * encoding);
    }

    lemma Reads(pos: nat)
      requires Shape() && pos < length
      ensures (pos + 1) * encoding <= contents.Length && GetEncoded(pos, encoding) == Elements()[pos]
    {
      Ordered(encoding, pos, length);
    }

    /** Binary search: whether `value` is a member, and where it is or belongs. */
    method Search(value: int) returns (found: bool, pos: nat)
      requires Valid()
      ensures found <==> value in Elements()
      ensures pos == Rank(Elements(), value)
    {
      hide GetEncoded, Rank, Values;
      ghost var s := Elements();
      var min, max, mid, cur := 0, length - 1, -1, -1;
      if length == 0 {
        RankIs(s, value, 0);
        return false, 0;
      }
      Reads(max);
      if value > GetEncoded(max, encoding) {
        RankIs(s, value, length);
        RankSplits(s, value);
        return false, length;
      }
      Reads(0);
      if value < GetEncoded(0, encoding) {
        RankIs(s, value, 0);
        RankSplits(s, value);
        return false, 0;
      }
      while max >= min
        invariant 0 <= min <= max + 1 <= length
        invariant forall i | 0 <= i < min :: s[i] < value
        invariant forall i | max < i < length :: value < s[i]
        invariant if mid < 0 then min == 0 && max == length - 1 else cur != value
        decreases max - min
      {
        mid := (min + max) / 2;
        Reads(mid);
        cur := GetEncoded(mid, encoding);
        if value > cur {
          min := mid + 1;
        } else if value < cur {
          max := mid - 1;
        } else {
          break;
        }
      }
      if value == cur {
        RankIs(s, value, mid);
        return true, mid;
      } else {
        RankIs(s, value, min);
        RankSplits(s, value);
        return false, min;
      }
    }

    /** Widen every record, last one first, and put the new value at the end it belongs to. */
    method UpgradeAndAdd(value: int)
      requires Valid() && length < INT_MAX && Int64(value) && ValueEncoding(value) > encoding
      modifies this, contents
      ensures Valid() && Elements() == Inserted(old(Elements()), value) && value !in old(Elements())
      ensures fresh(contents) && encoding == ValueEncoding(value) && length == old(length) + 1
    {
      hide ValueAt, Pack, Fits, Rank, Values, Widening, Inserted, ValueEncoding, Patched;
      ghost var s := Elements();
      var curenc, newenc := encoding, ValueEncoding(value);
      var n := length;
      var prepend := if value < 0 then 1 else 0;
      Outside(contents[..], encoding, length, value);
      InsertedIsUnion(s, value);
      ghost var b := contents[..];
      encoding := newenc;
      Resize(length + 1);
      WidenStart(b, contents[..], curenc, newenc, prepend, s);
      while n > 0
        invariant 0 <= n <= length == |s| && contents.Length == (length + 1) * newenc && encoding == newenc
        invariant fresh(contents) && Widening(contents[..], curenc, newenc, prepend, s, n)
      {
        n := n - 1;
        WidenBounds(contents[..], curenc, newenc, prepend, s, n + 1);
        WidenStep(contents[..], curenc, newenc, prepend, s, n + 1);
        Set(n + prepend, GetEncoded(n, curenc));
      }
      WidenEnd(contents[..], curenc, newenc, prepend, s, value);
      if prepend == 1 {
        Set(0, value);
      } else {
        Set(length, value);
      }
      length := length + 1;
    }

    /** `memmove` of all records from `from` on to `to`; the byte count is a 32-bit variable. */
    method MoveTail(from: nat, to: nat)
      requires Width(encoding) && from <= length
      requires from * encoding + (length - from) * encoding <= contents.Length
      requires to * encoding + (length - from) * encoding <= contents.Length
      modifies contents
      ensures var n := TailBytes(length - from, encoding);
              && n <= (length - from) * encoding
              && contents[..] == Moved(old(contents[..]), from * encoding, to * encoding, n)
    {
      hide Moved;
      var n := TailBytes(length - from, encoding);
      ghost var m := WrappedTail(length - from, encoding);
      MoreRecords(encoding, m, length - from);
      MemMove(contents, to * encoding, from * encoding, n);
    }

    /** Add a value.  The stored sequence is the right one exactly when the widths differ or the
        bytes behind the new record number fewer than 2^32. */
    method Add(value: int) returns (success: bool)
      requires Valid() && length < INT_MAX && Int64(value)
      modifies this, contents
      ensures success <==> value !in old(Elements())
      ensures !success ==> Valid() && Elements() == old(Elements()) && encoding == old(encoding)
      ensures success ==> Shape() && length == old(length) + 1
      ensures success ==>
          (Elements() == Inserted(old(Elements()), value) <==>
             ValueEncoding(value) > old(encoding)
             || TailFits(old(length) - Rank(old(Elements()), value), old(encoding)))
      ensures encoding == if ValueEncoding(value) > old(encoding) then ValueEncoding(value) else old(encoding)
      ensures contents == old(contents) || fresh(contents)
    {
      hide Values, Rank, Inserted, Sorted, Fits;
      if ValueEncoding(value) > encoding {
        UpgradeAndAdd(value);
        success := true;
        return;
      }
      var found, pos := Search(value);
      if found {
        return false;
      }
      success := true;
      FitsMore(value, ValueEncoding(value), encoding);
      InsertAt(pos, value);
    }

    /** Make room at `pos` and write the value there, src/set/intset.c:219-228. */
    method InsertAt(pos: nat, value: int)
      requires Valid() && length < INT_MAX && Fits(value, encoding) && pos == Rank(Elements(), value)
      modifies this, contents
      ensures Shape() && length == old(length) + 1 && encoding == old(encoding) && fresh(contents)
      ensures Elements() == Inserted(old(Elements()), value) <==> TailFits(old(length) - pos, encoding)
    {
      hide Values, Rank, Inserted, ValueAt, Pack, AfterInsert, Sorted, Moved, Patched, Fits;
      ghost var s := Elements();
      ghost var m := WrappedTail(length - pos, encoding);
      ghost var b := contents[..];
      Resize(length + 1);
      AllResized(b, contents[..], encoding, length);
      InsertDone(contents[..], encoding, s, pos, m, value);
      RunFits(encoding, pos, length - pos, length);
      ghost var c := contents[..];
      if pos < length {
        MoveTail(pos, pos + 1);
      } else {
        NothingMoved(c, pos * encoding, (pos + 1) * encoding);
      }
      SlotRange(encoding, pos);
      RevealAfter(c, encoding, pos, m, value);
      Set(pos, value);
      length := length + 1;
    }

    /** Remove a value. */
    method Remove(value: int) returns (success: bool)
      requires Valid() && Int64(value)
      modifies this, contents
      ensures success <==> value in old(Elements())
      ensures !success ==> Valid() && Elements() == old(Elements())
      ensures success ==> Shape() && length == old(length) - 1
      ensures success ==>
          (Elements() == Deleted(old(Elements()), value) <==>
             TailFits(old(length) - 1 - Rank(old(Elements()), value), old(encoding)))
      ensures encoding == old(encoding) && (contents == old(contents) || fresh(contents))
    {
      hide Values, Rank, Deleted, ValueAt, Pack, Sorted, Moved, Fits;
      ghost var s := Elements();
      success := false;
      if ValueEncoding(value) > encoding {
        Outside(contents[..], encoding, length, value);
        return;
      }
      var found, pos := Search(value);
      if found {
        var len := length;
        success := true;
        RankSplits(s, value);
        ghost var m := WrappedTail(len - 1 - pos, encoding);
        RunFits(encoding, pos, len - 1 - pos, len - 1);
        ghost var b := contents[..];
        if pos < len - 1 {
          MoveTail(pos + 1, pos);
        } else {
          NothingMoved(b, (pos + 1) * encoding, pos * encoding);
        }
        ghost var c := contents[..];
        Resize(len - 1);
        DeleteDone(b, contents[..], encoding, s, pos, m, value);
        length := len - 1;
      }
    }

    /** Whether a value is a member. */
    method Find(value: int) returns (found: bool)
      requires Valid() && Int64(value)
      ensures found <==> value in Elements()
    {
      if ValueEncoding(value) > encoding {
        Outside(contents[..], encoding, length, value);
        return false;
      }
      var pos;
      found, pos := Search(value);
    }

    /** The whole block: two 32-bit header fields and the records. */
    ghost function Blob(): (b: seq<Byte>)
      requires Shape()
      reads this, contents
    {
      Encode(encoding, 4) + Encode(length, 4) + contents[..]
    }

    /** Validation accepts every non-empty set. */
    lemma BlobIsSound(deep: bool)
      requires Valid() && length > 0
      ensures SoundBlob(Blob(), deep)
    {
      hide Values, Encode, Unsigned;
      Widths();
      DecodeEncode(encoding, 4);
      DecodeEncode(length, 4);
      var b := Blob();
      assert b[..4] == Encode(encoding, 4) && b[4..8] == Encode(length, 4) && b[8..] == contents[..];
    }
  }

  /** A header that describes the block exactly, at least one record, and, for a deep check, records
      in strictly ascending order. */
  ghost predicate SoundBlob(p: seq<Byte>, deep: bool) {
    && |p| >= 8
    && var (w, n) := (Unsigned(p[..4]), Unsigned(p[4..8]));
       && Width(w) && n > 0 && 8 + n * w == |p|
       && (deep ==> Sorted(Values(p[8..], w, n)))
  }

  /** Neighbours in order are all in order. */
  lemma {:induction false} StepwiseSorted(s: seq<int>)
    requires forall i | 0 < i < |s| :: s[i - 1] < s[i]
    ensures Sorted(s)
  {
    if |s| > 1 {
      var t := s[..|s| - 1];
      StepwiseSorted(t);
      forall i, j | 0 <= i < j < |s| ensures s[i] < s[j] {
        if j == |s| - 1 {
          assert i == j - 1 || t[i] < t[j - 1];
        } else {
          assert t[i] < t[j];
        }
      }
    }
  }

  method ValidateIntegrity(p: seq<Byte>, deep: bool) returns (ok: bool)
    ensures ok <==> SoundBlob(p, deep)
  {
    hide Unsigned, ValueAt;
    if |p| < 8 {
      return false;
    }
    var encoding := Unsigned(p[..4]);
    var recordSize;
    if encoding == INTSET_ENC_INT64 {
      recordSize := INTSET_ENC_INT64;
    } else if encoding == INTSET_ENC_INT32 {
      recordSize := INTSET_ENC_INT32;
    } else if encoding == INTSET_ENC_INT16 {
      recordSize := INTSET_ENC_INT16;
    } else {
      return false;
    }
    var count := Unsigned(p[4..8]);
    if 8 + count * recordSize != |p| {
      return false;
    }
    if count == 0 {
      return false;
    }
    if !deep {
      return true;
    }
    ghost var s := Values(p[8..], recordSize, count);
    Ordered(recordSize, 0, count);
    var prev := ValueAt(p[8..], recordSize, 0);
    for i := 1 to count
      invariant prev == s[i - 1]
      invariant forall j | 0 < j < i :: s[j - 1] < s[j]
    {
      Ordered(recordSize, i, count);
      var cur := ValueAt(p[8..], recordSize, i);
      assert cur == s[i];
      if cur <= prev {
        return false;
      }
      prev := cur;
    }
    StepwiseSorted(s);
    return true;
  }
}
