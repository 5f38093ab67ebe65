/** Whole scans, with anything happening to the dictionary between two calls. */
module ScanRuns {
  import opened Options
  import opened Words
  import opened ScanOrder
  import opened Buckets
  import opened ScanSteps

  /** The dictionary at the moment of one call: its two bucket arrays and the map they hold. */
  datatype Snapshot<K, V> = Snapshot(b0: seq<Chain<K, V>>, b1: seq<Chain<K, V>>, m: map<K, V>)

  ghost predicate Consistent<K(!new), V>(s: Snapshot<K, V>, hash: K -> bv64) {
    && Sized(s.b0) && Sized(s.b1)
    && (s.b0 == [] ==> s.b1 == [])
    && Represents(s.b0, s.b1, hash, s.m)
  }

  /** Call number `i` finds the dictionary as `snaps[i]`, gets cursor `cursors[i]`, emits
      `emitted[i]` and returns cursor `cursors[i + 1]`.  Only the first cursor and possibly the
      last one are zero. */
  ghost predicate Run<K(!new), V(!new)>(hash: K -> bv64, snaps: seq<Snapshot<K, V>>, cursors: seq<bv64>,
                                        emitted: seq<seq<Entry<K, V>>>) {
    && |emitted| == |snaps| && |cursors| == |snaps| + 1
    && cursors[0] == 0
    && (forall i | 0 < i < |snaps| :: cursors[i] != 0)
    && (forall i | 0 <= i < |snaps| ::
          && Consistent(snaps[i], hash)
          && ScanStep(snaps[i].b0, snaps[i].b1, hash, cursors[i], emitted[i], cursors[i + 1]))
  }

  ghost predicate EmittedKey<K, V(!new)>(emitted: seq<seq<Entry<K, V>>>, key: K) {
    exists i, v :: 0 <= i < |emitted| && Entry(key, v) in emitted[i]
  }

  /** A key of the map has an entry in one of the two arrays. */
  lemma KeyIsIn<K(!new), V>(s: Snapshot<K, V>, hash: K -> bv64, key: K)
    requires Consistent(s, hash) && key in s.m
    ensures In(s.b0, Entry(key, s.m[key])) || (s.b1 != [] && In(s.b1, Entry(key, s.m[key])))
    ensures Total(s.b0) + Total(s.b1) > 0
  {
    hide Home, Total, Placed, PowerOfTwo;
    assert Either(Get(s.b0, hash, key), Get(s.b1, hash, key)) == Some(MapGet(s.m, key));
    if s.b0 != [] { LookupFrom(s.b0[Home(hash(key), |s.b0|)], key); }
    if s.b1 != [] { LookupFrom(s.b1[Home(hash(key), |s.b1|)], key); }
    assert |s.m| != 0;
  }

  /** Number of hash bits that the smaller of the existing tables looks at. */
  function Width<K, V>(s: Snapshot<K, V>): nat {
    Log2(if s.b1 == [] || |s.b0| <= |s.b1| then |s.b0| else |s.b1|)
  }

  /** One call on a nonempty dictionary covers every place from the cursor to the end of its block. */
  lemma StepCovers<K(!new), V(!new)>(s: Snapshot<K, V>, hash: K -> bv64, v: bv64,
                                     emitted: seq<Entry<K, V>>, next: bv64, key: K)
    requires Consistent(s, hash) && ScanStep(s.b0, s.b1, hash, v, emitted, next)
    requires key in s.m
    ensures Width(s) <= 63 && Advanced(v, next, Width(s))
    ensures Place(v) <= Place(hash(key)) < BlockEnd(Place(v), Width(s)) ==> Entry(key, s.m[key]) in emitted
  {
    hide Place, In, InBlock, BlockStart, BlockEnd, Represents, PowerOfTwo;
    KeyIsIn(s, hash, key);
    var e := Entry(key, s.m[key]);
    if s.b1 != [] { BlockRange(Place(v), Place(v), Log2(|s.b1|)); }
    BlockRange(Place(v), Place(v), Log2(|s.b0|));
    BlockRange(Place(hash(key)), Place(v), Width(s));
    assert e.key == key;
  }

  /** Before call `n`, a key that was always there has been emitted or lies at or after the cursor. */
  lemma {:induction false} NothingSkipped<K(!new), V(!new)>(
      hash: K -> bv64, snaps: seq<Snapshot<K, V>>, cursors: seq<bv64>,
      emitted: seq<seq<Entry<K, V>>>, key: K, n: nat)
    requires Run(hash, snaps, cursors, emitted) && n <= |snaps|
    requires forall i | 0 <= i < |snaps| :: key in snaps[i].m
    ensures EmittedKey(emitted[..n], key) || (Place(cursors[n]) <= Place(hash(key)) && (n > 0 ==> cursors[n] != 0))
  {
    hide Place, ScanStep, Consistent, BlockEnd;
    if n == 0 {
      PlaceZero();
    } else {
      NothingSkipped(hash, snaps, cursors, emitted, key, n - 1);
      var s, v := snaps[n - 1], cursors[n - 1];
      StepCovers(s, hash, v, emitted[n - 1], cursors[n], key);
      BlockBounds(Place(v), Width(s));
      PlaceZero();
      if EmittedKey(emitted[..n - 1], key) {
        var i, w :| 0 <= i < n - 1 && Entry(key, w) in emitted[..n - 1][i];
        assert Entry(key, w) in emitted[..n][i];
      } else if Place(hash(key)) < BlockEnd(Place(v), Width(s)) {
        assert Entry(key, s.m[key]) in emitted[..n][n - 1];
      }
    }
  }

  lemma PlaceZero()
    ensures Place(0) == 0
  {
    hide Low;
    LowZero(64);
    MirrorZero(64, 0);
  }

  /** A scan that has come back to cursor zero has emitted every key that was present throughout. */
  lemma ScanIsComplete<K(!new), V(!new)>(
      hash: K -> bv64, snaps: seq<Snapshot<K, V>>, cursors: seq<bv64>,
      emitted: seq<seq<Entry<K, V>>>, key: K)
    requires Run(hash, snaps, cursors, emitted) && |snaps| > 0 && cursors[|snaps|] == 0
    requires forall i | 0 <= i < |snaps| :: key in snaps[i].m
    ensures EmittedKey(emitted, key)
  {
    hide ScanStep, Consistent, Place;
    NothingSkipped(hash, snaps, cursors, emitted, key, |snaps|);
    assert emitted[..|snaps|] == emitted;
  }

  // ---------------------------------------------------------------- the scan ends

  /** Every call moves the cursor on by at least one block of the widest table seen. */
  lemma {:induction false} CursorGrows<K(!new), V(!new)>(
      hash: K -> bv64, snaps: seq<Snapshot<K, V>>, cursors: seq<bv64>,
      emitted: seq<seq<Entry<K, V>>>, w: nat, n: nat)
    requires Run(hash, snaps, cursors, emitted) && n < |snaps| && w <= 64
    requires forall i | 0 <= i < |snaps| :: Width(snaps[i]) <= w
    ensures Place(cursors[n]) >= n * BlockSize(w) && Place(cursors[n]) % BlockSize(w) == 0
  {
    hide Place, Consistent, Total, BlockSize, BlockEnd, ScanStep;
    if n == 0 {
      PlaceZero();
      DivUnique(0, 0, 0, BlockSize(w));
    } else {
      CursorGrows(hash, snaps, cursors, emitted, w, n - 1);
      var s, v := snaps[n - 1], cursors[n - 1];
      StepAdvances(s, hash, v, emitted[n - 1], cursors[n]);
      AlignedGap(Place(v), Width(s), w);
      assert n * BlockSize(w) == (n - 1) * BlockSize(w) + BlockSize(w);
    }
  }

  lemma StepAdvances<K(!new), V(!new)>(s: Snapshot<K, V>, hash: K -> bv64, v: bv64,
                                       emitted: seq<Entry<K, V>>, next: bv64)
    requires Consistent(s, hash) && ScanStep(s.b0, s.b1, hash, v, emitted, next) && next != 0
    ensures Width(s) <= 63 && Place(next) == BlockEnd(Place(v), Width(s))
  {
    hide Place, In, InBlock, BlockStart, BlockEnd, Represents, PowerOfTwo, Pow2, Total;
    if Place(next) == 0 { PlaceIsZero(next); }
  }

  lemma PlaceIsZero(v: bv64)
    requires Place(v) == 0
    ensures v == 0
  {
    hide Low;
    MirrorZero(64, Val(v));
    SmallRest(Val(v), 64);
    ZeroIff(v);
  }

  lemma AlignedGap(p: nat, k: nat, w: nat)
    requires k <= w <= 64 && p % BlockSize(w) == 0
    ensures BlockEnd(p, k) >= p + BlockSize(w) && BlockEnd(p, k) % BlockSize(w) == 0
  {
    hide Pow2;
    PowAdd(64 - w, w - k);
    Gap(p, BlockSize(w), Pow2(w - k));
  }

  lemma Gap(p: nat, b: nat, c: nat)
    requires b > 0 && c > 0 && b * c > 0 && p % b == 0
    ensures var e := (p / (b * c) + 1) * (b * c);
            e >= p + b && e % b == 0
  {
    var x, d, y := p / (b * c), b * c, p / b;
    var e := (x + 1) * d;
    Range(p, p, d);
    Nested(p, p, b, c);
    assert p == y * b + p % b;
    assert (y + 1) * b == p + b;
    assert e == ((x + 1) * c) * b;
    DivUnique(e, (x + 1) * c, 0, b);
  }

  /** A scan makes at most as many calls as the widest of its smaller tables has buckets. */
  lemma ScanEnds<K(!new), V(!new)>(hash: K -> bv64, snaps: seq<Snapshot<K, V>>, cursors: seq<bv64>,
                                   emitted: seq<seq<Entry<K, V>>>, w: nat)
    requires Run(hash, snaps, cursors, emitted) && w <= 64
    requires forall i | 0 <= i < |snaps| :: Width(snaps[i]) <= w
    ensures |snaps| <= Pow2(w)
  {
    hide Place, ScanStep, Consistent, Pow2;
    if |snaps| > Pow2(w) {
      CursorGrows(hash, snaps, cursors, emitted, w, Pow2(w));
      PowAdd(w, 64 - w);
    }
  }
}
