/** B-trees as values: their items in order, the blocks they occupy, paths into them, and the edits that
    src/tree/btree.c makes. */
module BtreeShape {
  import opened Bytes
  import opened DiskImages
  import opened BtreeNodes

  /** A key, and the offset of its value. */
  datatype Pair = Pair(key: Key, val: nat)

  /** A node at an offset; a leaf has no kids. */
  datatype Tree = Tree(off: nat, pairs: seq<Pair>, kids: seq<Tree>)

  const HALF: nat := 3

  /** The order of keys. */
  function Rank(k: Key): nat {
    Number(k)
  }

  // ---------------------------------------------------------------- items in order

  ghost function Items(t: Tree): seq<Pair> {
    if t.kids == [] then t.pairs else Weave(t.kids, t.pairs)
  }

  /** The items of the kids with the pairs between them. */
  ghost function Weave(kids: seq<Tree>, pairs: seq<Pair>): seq<Pair> {
    if kids == [] then pairs
    else if pairs == [] then Items(kids[0])
    else Items(kids[0]) + [pairs[0]] + Weave(kids[1..], pairs[1..])
  }

  /** Kids each followed by a pair. */
  ghost function LeftOf(kids: seq<Tree>, pairs: seq<Pair>): seq<Pair> {
    if kids == [] || pairs == [] then [] else Items(kids[0]) + [pairs[0]] + LeftOf(kids[1..], pairs[1..])
  }

  /** Pairs each followed by a kid. */
  ghost function RightOf(pairs: seq<Pair>, kids: seq<Tree>): seq<Pair> {
    if kids == [] || pairs == [] then [] else [pairs[0]] + Items(kids[0]) + RightOf(pairs[1..], kids[1..])
  }

  lemma {:induction false} WeaveRight(kids: seq<Tree>, pairs: seq<Pair>)
    requires |kids| == |pairs| + 1
    ensures Weave(kids, pairs) == Items(kids[0]) + RightOf(pairs, kids[1..])
  {
    hide Items;
    if pairs != [] {
      WeaveRight(kids[1..], pairs[1..]);
    }
  }

  lemma {:induction false} WeaveAt(kids: seq<Tree>, pairs: seq<Pair>, i: nat)
    requires |kids| == |pairs| + 1 && i < |kids|
    ensures Weave(kids, pairs) == LeftOf(kids[..i], pairs[..i]) + Items(kids[i]) + RightOf(pairs[i..], kids[i + 1..])
  {
    hide Items;
    if i == 0 {
      WeaveRight(kids, pairs);
      assert pairs[0..] == pairs;
    } else {
      var (ks, ps) := (kids[1..], pairs[1..]);
      WeaveAt(ks, ps, i - 1);
      assert kids[..i][1..] == ks[..i - 1] && pairs[..i][1..] == ps[..i - 1];
      assert ps[i - 1..] == pairs[i..] && ks[i..] == kids[i + 1..];
    }
  }

  /** Cutting at a pair. */
  lemma {:induction false} WeaveCut(kids: seq<Tree>, pairs: seq<Pair>, i: nat)
    requires |kids| == |pairs| + 1 && i < |pairs|
    ensures Weave(kids, pairs) == Weave(kids[..i + 1], pairs[..i]) + [pairs[i]] + Weave(kids[i + 1..], pairs[i + 1..])
  {
    hide Items;
    if i == 0 {
      assert kids[..1] == [kids[0]] && pairs[..0] == [];
    } else {
      var (ks, ps) := (kids[1..], pairs[1..]);
      WeaveCut(ks, ps, i - 1);
      assert kids[..i + 1][1..] == ks[..i] && pairs[..i][1..] == ps[..i - 1];
      assert ps[i..] == pairs[i + 1..] && ks[i..] == kids[i + 1..];
    }
  }

  // ---------------------------------------------------------------- blocks occupied

  /** Where the labelled block behind a pointer starts. */
  function Start(o: nat): nat {
    if o >= 8 then o - 8 else 0
  }

  ghost function Foot(t: Tree): multiset<nat> {
    multiset{Start(t.off)} + PairsFoot(t.pairs) + KidsFoot(t.kids)
  }

  ghost function PairsFoot(pairs: seq<Pair>): multiset<nat> {
    if pairs == [] then multiset{} else multiset{Start(pairs[0].val)} + PairsFoot(pairs[1..])
  }

  ghost function KidsFoot(kids: seq<Tree>): multiset<nat> {
    if kids == [] then multiset{} else Foot(kids[0]) + KidsFoot(kids[1..])
  }

  lemma {:induction false} PairsFootSum(a: seq<Pair>, b: seq<Pair>)
    ensures PairsFoot(a + b) == PairsFoot(a) + PairsFoot(b)
  {
    if a == [] {
      assert a + b == b;
    } else {
      assert (a + b)[1..] == a[1..] + b;
      PairsFootSum(a[1..], b);
    }
  }

  lemma {:induction false} KidsFootSum(a: seq<Tree>, b: seq<Tree>)
    ensures KidsFoot(a + b) == KidsFoot(a) + KidsFoot(b)
  {
    hide Foot;
    if a == [] {
      assert a + b == b;
    } else {
      assert (a + b)[1..] == a[1..] + b;
      KidsFootSum(a[1..], b);
    }
  }

  lemma PairsStep(p: Pair, s: seq<Pair>)
    ensures PairsFoot([p] + s) == multiset{Start(p.val)} + PairsFoot(s)
  {
    assert ([p] + s)[1..] == s;
  }

  lemma PairsFootAt(s: seq<Pair>, i: nat)
    requires i < |s|
    ensures PairsFoot(s) == PairsFoot(s[..i]) + multiset{Start(s[i].val)} + PairsFoot(s[i + 1..])
  {
    hide PairsFoot, Start;
    var (l, r) := (s[..i], s[i + 1..]);
    PairsFootSum(l, [s[i]] + r);
    PairsStep(s[i], r);
    assert s == l + ([s[i]] + r);
  }

  lemma KidsFootAt(s: seq<Tree>, i: nat)
    requires i < |s|
    ensures KidsFoot(s) == KidsFoot(s[..i]) + Foot(s[i]) + KidsFoot(s[i + 1..])
  {
    hide Foot;
    KidsFootSum(s[..i], s[i..]);
    assert s == s[..i] + s[i..];
    assert s[i..][1..] == s[i + 1..];
  }

  // ---------------------------------------------------------------- shape

  /** Nodes hold at most 7 pairs, all but the root at least 3; all leaves are h levels down. */
  ghost predicate Shape(t: Tree, h: nat) {
    && |t.pairs| <= BTREE_MAX_KEYS
    && if h == 0 then t.kids == []
       else |t.kids| == |t.pairs| + 1 && forall k | k in t.kids :: |k.pairs| >= HALF && Shape(k, h - 1)
  }

  ghost predicate RootShape(t: Tree, h: nat) {
    Shape(t, h) && (h > 0 ==> |t.pairs| >= 1)
  }

  ghost predicate Sorted(s: seq<Pair>) {
    forall i, j | 0 <= i < j < |s| :: Rank(s[i].key) < Rank(s[j].key)
  }

  ghost predicate Below(s: seq<Pair>, key: Key) {
    forall p | p in s :: Rank(p.key) < Rank(key)
  }

  ghost predicate Above(s: seq<Pair>, key: Key) {
    forall p | p in s :: Rank(key) < Rank(p.key)
  }

  // ---------------------------------------------------------------- paths

  /** A tree with a hole: the nodes above it, each with the number of the kid that is replaced. */
  datatype Path = Top | Under(up: Path, node: Tree, i: nat)

  ghost predicate Proper(k: Path) {
    k.Under? ==> Proper(k.up) && k.i < |k.node.kids| == |k.node.pairs| + 1
  }

  ghost function Filled(n: Tree, i: nat, t: Tree): Tree
    requires i < |n.kids|
  {
    n.(kids := n.kids[i := t])
  }

  ghost function Plug(k: Path, t: Tree): Tree
    requires Proper(k)
  {
    if k.Top? then t else Plug(k.up, Filled(k.node, k.i, t))
  }

  /** The items before and behind the hole. */
  ghost function Before(k: Path): seq<Pair>
    requires Proper(k)
  {
    if k.Top? then [] else Before(k.up) + LeftOf(k.node.kids[..k.i], k.node.pairs[..k.i])
  }

  ghost function After(k: Path): seq<Pair>
    requires Proper(k)
  {
    if k.Top? then [] else RightOf(k.node.pairs[k.i..], k.node.kids[k.i + 1..]) + After(k.up)
  }

  lemma {:induction false} PlugItems(k: Path, t: Tree)
    requires Proper(k)
    ensures Items(Plug(k, t)) == Before(k) + Items(t) + After(k)
  {
    hide LeftOf, RightOf, Weave;
    if k.Under? {
      var f := Filled(k.node, k.i, t);
      PlugItems(k.up, f);
      WeaveAt(f.kids, f.pairs, k.i);
      assert f.kids[..k.i] == k.node.kids[..k.i] && f.kids[k.i + 1..] == k.node.kids[k.i + 1..];
    }
  }

  /** The blocks of the nodes above the hole, and of what hangs beside it. */
  ghost function PathFoot(k: Path): multiset<nat>
    requires Proper(k)
  {
    if k.Top? then multiset{}
    else PathFoot(k.up) + multiset{Start(k.node.off)} + PairsFoot(k.node.pairs)
         + KidsFoot(k.node.kids[..k.i]) + KidsFoot(k.node.kids[k.i + 1..])
  }

  lemma {:induction false} PlugFoot(k: Path, t: Tree)
    requires Proper(k)
    ensures Foot(Plug(k, t)) == PathFoot(k) + Foot(t)
  {
    hide KidsFoot, PairsFoot;
    if k.Under? {
      var f := Filled(k.node, k.i, t);
      PlugFoot(k.up, f);
      KidsFootAt(f.kids, k.i);
      assert f.kids[..k.i] == k.node.kids[..k.i] && f.kids[k.i + 1..] == k.node.kids[k.i + 1..];
    }
  }

  /** The rules around a hole for a tree of height h. */
  ghost predicate PathShape(k: Path, h: nat)
    requires Proper(k)
  {
    k.Under? ==>
      && |k.node.pairs| <= BTREE_MAX_KEYS && |k.node.pairs| >= (if k.up.Top? then 1 else HALF)
      && (forall j | 0 <= j < |k.node.kids| && j != k.i :: |k.node.kids[j].pairs| >= HALF && Shape(k.node.kids[j], h))
      && PathShape(k.up, h + 1)
  }

  /** The rules for what fills it. */
  ghost predicate HoleShape(k: Path, t: Tree, h: nat) {
    Shape(t, h) && (if k.Top? then h > 0 ==> |t.pairs| >= 1 else |t.pairs| >= HALF)
  }

  ghost function Depth(k: Path): nat {
    if k.Top? then 0 else 1 + Depth(k.up)
  }

  lemma {:induction false} PlugShape(k: Path, t: Tree, h: nat)
    requires Proper(k) && PathShape(k, h) && HoleShape(k, t, h)
    ensures RootShape(Plug(k, t), h + Depth(k))
  {
    if k.Under? {
      var f := Filled(k.node, k.i, t);
      forall m | m in f.kids ensures |m.pairs| >= HALF && Shape(m, h) {
        var j :| 0 <= j < |f.kids| && f.kids[j] == m;
      }
      PlugShape(k.up, f, h + 1);
    }
  }

  /** Going down to a kid. */
  lemma Descend(k: Path, t: Tree, i: nat, h: nat)
    requires Proper(k) && PathShape(k, h) && HoleShape(k, t, h) && h > 0 && i < |t.kids|
    ensures var d := Under(k, t, i);
            Proper(d) && PathShape(d, h - 1) && HoleShape(d, t.kids[i], h - 1) && Plug(d, t.kids[i]) == Plug(k, t)
              && Depth(d) == Depth(k) + 1
  {
    assert t.kids[i] in t.kids;
    forall j | 0 <= j < |t.kids| ensures |t.kids[j].pairs| >= HALF && Shape(t.kids[j], h - 1) {
      assert t.kids[j] in t.kids;
    }
    assert t.kids[i := t.kids[i]] == t.kids;
  }

  // ---------------------------------------------------------------- splitting a full node

  ghost function LeftHalf(c: Tree, off: nat): Tree
    requires |c.pairs| == BTREE_MAX_KEYS && (c.kids == [] || |c.kids| == BTREE_MAX_KEYS + 1)
  {
    Tree(off, c.pairs[..HALF], if c.kids == [] then [] else c.kids[..HALF + 1])
  }

  ghost function RightHalf(c: Tree, off: nat): Tree
    requires |c.pairs| == BTREE_MAX_KEYS && (c.kids == [] || |c.kids| == BTREE_MAX_KEYS + 1)
  {
    Tree(off, c.pairs[HALF + 1..], if c.kids == [] then [] else c.kids[HALF + 1..])
  }

  ghost predicate Splittable(n: Tree, i: nat, h: nat) {
    && Shape(n, h + 1) && |n.pairs| < BTREE_MAX_KEYS && i < |n.kids| && |n.kids[i].pairs| == BTREE_MAX_KEYS
    && Shape(n.kids[i], h) && (n.kids[i].kids == [] || |n.kids[i].kids| == BTREE_MAX_KEYS + 1)
  }

  lemma CanSplit(n: Tree, i: nat, h: nat)
    requires Shape(n, h + 1) && |n.pairs| < BTREE_MAX_KEYS && i < |n.kids| && |n.kids[i].pairs| == BTREE_MAX_KEYS
    ensures Splittable(n, i, h)
  {
    assert n.kids[i] in n.kids;
  }

  /** The node with its i-th kid split in two around the pair in the middle. */
  ghost function Parted(n: Tree, i: nat, loff: nat, roff: nat, poff: nat): Tree
    requires |n.kids| == |n.pairs| + 1 && i < |n.kids|
    requires |n.kids[i].pairs| == BTREE_MAX_KEYS && (n.kids[i].kids == [] || |n.kids[i].kids| == BTREE_MAX_KEYS + 1)
  {
    Tree(poff, n.pairs[..i] + [n.kids[i].pairs[HALF]] + n.pairs[i..],
         n.kids[..i] + [LeftHalf(n.kids[i], loff), RightHalf(n.kids[i], roff)] + n.kids[i + 1..])
  }

  lemma HalvesItems(c: Tree, loff: nat, roff: nat, h: nat)
    requires Shape(c, h) && |c.pairs| == BTREE_MAX_KEYS && (c.kids == [] || |c.kids| == BTREE_MAX_KEYS + 1)
    ensures Items(c) == Items(LeftHalf(c, loff)) + [c.pairs[HALF]] + Items(RightHalf(c, roff))
  {
    hide Weave, Shape;
    if c.kids == [] {
      assert c.pairs == c.pairs[..HALF] + [c.pairs[HALF]] + c.pairs[HALF + 1..];
    } else {
      WeaveCut(c.kids, c.pairs, HALF);
    }
  }

  lemma WeaveJoin(a: seq<Tree>, ps: seq<Pair>, l: Tree, qs: seq<Pair>, ks: seq<Tree>)
    requires |a| == |ps| && |ks| == |qs|
    ensures Weave(a + ([l] + ks), ps + qs) == LeftOf(a, ps) + Items(l) + RightOf(qs, ks)
  {
    hide Weave, LeftOf, RightOf, Items;
    var (kids, pairs) := (a + ([l] + ks), ps + qs);
    Parts(a, [l] + ks);
    assert kids[|a| + 1..] == kids[|a|..][1..] == ks && kids[|a|] == kids[|a|..][0];
    Parts(ps, qs);
    WeaveAt(kids, pairs, |a|);
  }

  lemma Parts<T>(a: seq<T>, b: seq<T>)
    ensures (a + b)[..|a|] == a && (a + b)[|a|..] == b
  {
  }

  lemma WeaveSplit(kids: seq<Tree>, pairs: seq<Pair>, i: nat, l: Tree, m: Pair, r: Tree)
    requires |kids| == |pairs| + 1 && i < |kids| && Items(kids[i]) == Items(l) + [m] + Items(r)
    ensures Weave(kids[..i] + [l, r] + kids[i + 1..], pairs[..i] + [m] + pairs[i..]) == Weave(kids, pairs)
  {
    hide Weave, LeftOf, RightOf, Items;
    var (a, ps, qs, ks) := (kids[..i], pairs[..i], pairs[i..], kids[i + 1..]);
    WeaveAt(kids, pairs, i);
    WeaveJoin(a, ps, l, [m] + qs, [r] + ks);
    assert a + [l, r] + ks == a + ([l] + ([r] + ks));
    assert ps + [m] + qs == ps + ([m] + qs);
    RightStep(m, qs, r, ks);
    Regroup(LeftOf(a, ps), Items(l), [m], Items(r), RightOf(qs, ks));
  }

  lemma Regroup(a: seq<Pair>, b: seq<Pair>, c: seq<Pair>, d: seq<Pair>, e: seq<Pair>)
    ensures a + b + (c + d + e) == a + (b + c + d) + e
  {
  }

  lemma RightStep(m: Pair, ps: seq<Pair>, r: Tree, ks: seq<Tree>)
    ensures RightOf([m] + ps, [r] + ks) == [m] + Items(r) + RightOf(ps, ks)
  {
    hide Items;
    assert ([m] + ps)[1..] == ps && ([r] + ks)[1..] == ks;
  }

  lemma SplitShape(n: Tree, h: nat)
    requires Shape(n, h + 1)
    ensures |n.kids| == |n.pairs| + 1 && n.kids != []
  {
  }

  /** Splitting changes neither the items nor their order. */
  lemma PartedItems(n: Tree, i: nat, loff: nat, roff: nat, poff: nat, h: nat)
    requires Splittable(n, i, h)
    ensures |n.kids| == |n.pairs| + 1 && Items(Parted(n, i, loff, roff, poff)) == Items(n)
  {
    hide Weave, Shape;
    SplitShape(n, h);
    var c := n.kids[i];
    HalvesItems(c, loff, roff, h);
    WeaveSplit(n.kids, n.pairs, i, LeftHalf(c, loff), c.pairs[HALF], RightHalf(c, roff));
  }

  lemma PairsFootWith(s: seq<Pair>, i: nat, m: Pair)
    requires i <= |s|
    ensures PairsFoot(s[..i] + [m] + s[i..]) == PairsFoot(s) + multiset{Start(m.val)}
  {
    hide PairsFoot;
    var u := s[..i] + [m] + s[i..];
    PairsFootAt(u, i);
    PairsFootSum(s[..i], s[i..]);
    assert s == s[..i] + s[i..] && u[..i] == s[..i] && u[i + 1..] == s[i..];
  }

  lemma KidsFootSplit(s: seq<Tree>, i: nat, l: Tree, r: Tree)
    requires i < |s|
    ensures KidsFoot(s[..i] + [l, r] + s[i + 1..]) + Foot(s[i]) == KidsFoot(s) + Foot(l) + Foot(r)
  {
    hide KidsFoot, Foot;
    var u := s[..i] + [l, r] + s[i + 1..];
    KidsFootAt(s, i);
    KidsFootAt(u, i);
    assert u[..i] == s[..i] && u[i] == l && u[i + 1..] == [r] + s[i + 1..];
    KidsStep(r, s[i + 1..]);
  }

  lemma KidsStep(r: Tree, s: seq<Tree>)
    ensures KidsFoot([r] + s) == Foot(r) + KidsFoot(s)
  {
    hide Foot;
    assert ([r] + s)[1..] == s;
  }

  /** The halves occupy what the whole did, but for the node itself and the pair in the middle. */
  lemma HalvesFoot(c: Tree, loff: nat, roff: nat)
    requires |c.pairs| == BTREE_MAX_KEYS && (c.kids == [] || |c.kids| == BTREE_MAX_KEYS + 1)
    ensures Foot(LeftHalf(c, loff)) + Foot(RightHalf(c, roff)) + multiset{Start(c.off), Start(c.pairs[HALF].val)}
            == Foot(c) + multiset{Start(loff), Start(roff)}
  {
    hide KidsFoot, PairsFoot, Foot;
    var (l, r) := (LeftHalf(c, loff), RightHalf(c, roff));
    PairsFootAt(c.pairs, HALF);
    HalfKids(c);
    FootIs(c);
    FootIs(l);
    FootIs(r);
    Exchange(Start(loff), Start(roff), Start(c.off), Start(c.pairs[HALF].val),
             PairsFoot(l.pairs), PairsFoot(r.pairs), KidsFoot(l.kids), KidsFoot(r.kids));
  }

  lemma Exchange(l: nat, r: nat, c: nat, m: nat, p: multiset<nat>, q: multiset<nat>, j: multiset<nat>, k: multiset<nat>)
    ensures (multiset{l} + p + j) + (multiset{r} + q + k) + multiset{c, m}
            == (multiset{c} + (p + multiset{m} + q) + (j + k)) + multiset{l, r}
  {
  }

  lemma Replaced(n: nat, p: nat, c: nat, m: nat, l: nat, r: nat, ps: multiset<nat>, ks: multiset<nat>,
                 gs: multiset<nat>, c0: multiset<nat>, lr: multiset<nat>)
    requires lr + multiset{c, m} == c0 + multiset{l, r} && gs + c0 == ks + lr
    ensures multiset{p} + (ps + multiset{m}) + gs + multiset{n, c} == multiset{n} + ps + ks + multiset{p, l, r}
  {
    Two(c, m);
    Two(l, r);
    Two(n, c);
    Three(p, l, r);
    Cancel(multiset{c} + multiset{m}, multiset{l} + multiset{r}, ks, gs, c0, lr);
    Sums(multiset{n}, multiset{p}, multiset{c}, multiset{m}, multiset{l}, multiset{r}, ps, ks, gs);
  }

  lemma Two(x: nat, y: nat)
    ensures multiset{x, y} == multiset{x} + multiset{y}
  {
  }

  lemma Three(x: nat, y: nat, z: nat)
    ensures multiset{x, y, z} == multiset{x} + multiset{y} + multiset{z}
  {
  }

  lemma Sums(n: multiset<nat>, p: multiset<nat>, c: multiset<nat>, m: multiset<nat>, l: multiset<nat>, r: multiset<nat>,
             ps: multiset<nat>, ks: multiset<nat>, gs: multiset<nat>)
    requires gs + (c + m) == ks + (l + r)
    ensures p + (ps + m) + gs + (n + c) == n + ps + ks + (p + l + r)
  {
    assert p + (ps + m) + gs + (n + c) == (n + p + ps) + (gs + (c + m));
    assert n + ps + ks + (p + l + r) == (n + p + ps) + (ks + (l + r));
  }

  lemma Cancel(x: multiset<nat>, y: multiset<nat>, ks: multiset<nat>, gs: multiset<nat>, c0: multiset<nat>,
               lr: multiset<nat>)
    requires lr + x == c0 + y && gs + c0 == ks + lr
    ensures gs + x == ks + y
  {
    forall e: nat ensures (gs + x)[e] == (ks + y)[e] {
      assert (lr + x)[e] == (c0 + y)[e] && (gs + c0)[e] == (ks + lr)[e];
    }
  }

  /** Splitting gives up the blocks of two nodes for three others. */
  lemma PartedFoot(n: Tree, i: nat, loff: nat, roff: nat, poff: nat, h: nat)
    requires Splittable(n, i, h)
    ensures |n.kids| == |n.pairs| + 1
    ensures Foot(Parted(n, i, loff, roff, poff)) + multiset{Start(n.off), Start(n.kids[i].off)}
            == Foot(n) + multiset{Start(poff), Start(loff), Start(roff)}
  {
    hide PairsFoot, KidsFoot, Shape, Foot;
    SplitShape(n, h);
    var c := n.kids[i];
    PairsFootWith(n.pairs, i, c.pairs[HALF]);
    HalvesFoot(c, loff, roff);
    FootIs(n);
    FootIs(Parted(n, i, loff, roff, poff));
    var (l, r) := (LeftHalf(c, loff), RightHalf(c, roff));
    KidsFootSplit(n.kids, i, l, r);
    Replaced(Start(n.off), Start(poff), Start(c.off), Start(c.pairs[HALF].val), Start(loff), Start(roff),
             PairsFoot(n.pairs), KidsFoot(n.kids), KidsFoot(Parted(n, i, loff, roff, poff).kids), Foot(c), Foot(l)
               + Foot(r));
  }

  lemma FootIs(t: Tree)
    ensures Foot(t) == multiset{Start(t.off)} + PairsFoot(t.pairs) + KidsFoot(t.kids)
  {
  }

  lemma EmptyFoot(s: seq<Tree>)
    requires s == []
    ensures KidsFoot(s) == multiset{}
  {
  }

  lemma HalfKids(c: Tree)
    requires |c.pairs| == BTREE_MAX_KEYS && (c.kids == [] || |c.kids| == BTREE_MAX_KEYS + 1)
    ensures KidsFoot(LeftHalf(c, 0).kids) + KidsFoot(RightHalf(c, 0).kids) == KidsFoot(c.kids)
  {
    hide KidsFoot;
    if c.kids == [] {
      EmptyFoot([]);
    } else {
      KidsFootSum(c.kids[..HALF + 1], c.kids[HALF + 1..]);
      assert c.kids == c.kids[..HALF + 1] + c.kids[HALF + 1..];
    }
  }

  lemma PartedShape(n: Tree, i: nat, loff: nat, roff: nat, poff: nat, h: nat)
    requires Splittable(n, i, h)
    ensures var g := Parted(n, i, loff, roff, poff); Shape(g, h + 1) && |g.pairs| == |n.pairs| + 1
  {
    var (c, g) := (n.kids[i], Parted(n, i, loff, roff, poff));
    var (l, r) := (LeftHalf(c, loff), RightHalf(c, roff));
    HalvesShape(c, loff, roff, h);
    forall k | k in g.kids ensures |k.pairs| >= HALF && Shape(k, h) {
      assert k in n.kids[..i] || k == l || k == r || k in n.kids[i + 1..];
      assert k == l || k == r || k in n.kids;
    }
  }

  lemma HalvesShape(c: Tree, loff: nat, roff: nat, h: nat)
    requires Shape(c, h) && |c.pairs| == BTREE_MAX_KEYS && (c.kids == [] || |c.kids| == BTREE_MAX_KEYS + 1)
    ensures var (l, r) := (LeftHalf(c, loff), RightHalf(c, roff));
            |l.pairs| == HALF && |r.pairs| == HALF && Shape(l, h) && Shape(r, h)
  {
    if h > 0 {
      forall k | k in c.kids[..HALF + 1] || k in c.kids[HALF + 1..] ensures k in c.kids {
      }
    }
  }

  // ---------------------------------------------------------------- order

  lemma SortedParts(a: seq<Pair>, p: Pair, b: seq<Pair>)
    requires Sorted(a + [p] + b)
    ensures Sorted(a) && Sorted(b) && Below(a, p.key) && Above(b, p.key)
  {
    var s := a + [p] + b;
    forall q | q in a ensures Rank(q.key) < Rank(p.key) {
      var i :| 0 <= i < |a| && a[i] == q;
      assert s[i] == q && s[|a|] == p;
    }
    forall q | q in b ensures Rank(p.key) < Rank(q.key) {
      var i :| 0 <= i < |b| && b[i] == q;
      assert s[|a| + 1 + i] == q && s[|a|] == p;
    }
    forall i, j | 0 <= i < j < |a| ensures Rank(a[i].key) < Rank(a[j].key) {
      assert s[i] == a[i] && s[j] == a[j];
    }
    forall i, j | 0 <= i < j < |b| ensures Rank(b[i].key) < Rank(b[j].key) {
      assert s[|a| + 1 + i] == b[i] && s[|a| + 1 + j] == b[j];
    }
  }

  lemma SortedWith(a: seq<Pair>, p: Pair, b: seq<Pair>)
    requires Sorted(a + b) && Below(a, p.key) && Above(b, p.key)
    ensures Sorted(a + [p] + b)
  {
    var (s, u) := (a + [p] + b, a + b);
    forall i, j | 0 <= i < j < |s| ensures Rank(s[i].key) < Rank(s[j].key) {
      if i < |a| { assert s[i] == a[i] == u[i] && a[i] in a; }
      if j > |a| { assert s[j] == b[j - |a| - 1] == u[j - 1] && b[j - |a| - 1] in b; }
      if i > |a| { assert s[i] == u[i - 1]; }
      if j < |a| { assert s[j] == u[j]; }
    }
  }

  // ---------------------------------------------------------------- where a key belongs

  lemma {:induction false} LeftLast(kids: seq<Tree>, pairs: seq<Pair>)
    requires |kids| == |pairs| > 0
    ensures LeftOf(kids, pairs) != [] && LeftOf(kids, pairs)[|LeftOf(kids, pairs)| - 1] == pairs[|pairs| - 1]
  {
    hide Items;
    if |pairs| > 1 { LeftLast(kids[1..], pairs[1..]); }
  }

  /** Everything up to an item below the key is below it. */
  lemma BelowUpTo(s: seq<Pair>, a: seq<Pair>, b: seq<Pair>, key: Key)
    requires Sorted(s) && s == a + b && (a == [] || Rank(a[|a| - 1].key) < Rank(key))
    ensures Below(a, key)
  {
    forall p | p in a ensures Rank(p.key) < Rank(key) {
      var i :| 0 <= i < |a| && a[i] == p;
      assert s[i] == a[i] && s[|a| - 1] == a[|a| - 1];
    }
  }

  lemma AboveFrom(s: seq<Pair>, a: seq<Pair>, b: seq<Pair>, key: Key)
    requires Sorted(s) && s == a + b && (b == [] || Rank(key) < Rank(b[0].key))
    ensures Above(b, key)
  {
    forall p | p in b ensures Rank(key) < Rank(p.key) {
      var i :| 0 <= i < |b| && b[i] == p;
      assert s[|a| + i] == b[i] && s[|a|] == b[0];
    }
  }

  /** The key falls between the pairs i-1 and i of a node. */
  ghost predicate Between(t: Tree, i: nat, key: Key) {
    && i <= |t.pairs|
    && (i > 0 ==> Rank(t.pairs[i - 1].key) < Rank(key))
    && (i < |t.pairs| ==> Rank(key) < Rank(t.pairs[i].key))
  }

  /** Then it belongs to the i-th kid. */
  lemma DescendOrder(k: Path, t: Tree, i: nat, key: Key)
    requires Proper(k) && |t.kids| == |t.pairs| + 1 && Between(t, i, key)
    requires Sorted(Items(Plug(k, t))) && Below(Before(k), key) && Above(After(k), key)
    ensures Below(Before(Under(k, t, i)), key) && Above(After(Under(k, t, i)), key)
  {
    hide Sorted, Items, LeftOf, RightOf, Below, Above, Plug;
    PlugItems(k, t);
    WeaveAt(t.kids, t.pairs, i);
    var (l, m, r) := (LeftOf(t.kids[..i], t.pairs[..i]), Items(t.kids[i]), RightOf(t.pairs[i..], t.kids[i + 1..]));
    ItemsKids(t);
    var s := Items(Plug(k, t));
    LeftEnd(t, i);
    RightEnd(t, i);
    Regroup5(Before(k), l, m, r, After(k));
    BelowParts(s, Before(k), l, m + r + After(k), key);
    AboveParts(s, Before(k) + l + m, r, After(k), key);
  }

  lemma Regroup5(a: seq<Pair>, l: seq<Pair>, m: seq<Pair>, r: seq<Pair>, b: seq<Pair>)
    ensures a + (l + m + r) + b == (a + l) + (m + r + b) == (a + l + m) + (r + b)
  {
  }

  lemma Regroup4(a: seq<Pair>, l: seq<Pair>, r: seq<Pair>, b: seq<Pair>)
    ensures a + (l + r) + b == (a + l) + (r + b)
  {
  }

  lemma ItemsKids(t: Tree)
    requires t.kids != []
    ensures Items(t) == Weave(t.kids, t.pairs)
  {
  }

  lemma LeftEnd(t: Tree, i: nat)
    requires |t.kids| == |t.pairs| + 1 && i <= |t.pairs|
    ensures var l := LeftOf(t.kids[..i], t.pairs[..i]);
            if i == 0 then l == [] else l != [] && l[|l| - 1] == t.pairs[i - 1]
  {
    hide Items;
    if i > 0 { LeftLast(t.kids[..i], t.pairs[..i]); }
  }

  lemma RightEnd(t: Tree, i: nat)
    requires |t.kids| == |t.pairs| + 1 && i <= |t.pairs|
    ensures var r := RightOf(t.pairs[i..], t.kids[i + 1..]);
            if i == |t.pairs| then r == [] else r != [] && r[0] == t.pairs[i]
  {
    hide Items;
  }

  lemma BelowParts(s: seq<Pair>, a: seq<Pair>, l: seq<Pair>, b: seq<Pair>, key: Key)
    requires Sorted(s) && s == (a + l) + b && Below(a, key) && (l == [] || Rank(l[|l| - 1].key) < Rank(key))
    ensures Below(a + l, key)
  {
    hide Sorted;
    if l == [] {
      assert a + l == a;
    } else {
      assert (a + l)[|a + l| - 1] == l[|l| - 1];
      BelowUpTo(s, a + l, b, key);
    }
  }

  lemma AboveParts(s: seq<Pair>, a: seq<Pair>, r: seq<Pair>, b: seq<Pair>, key: Key)
    requires Sorted(s) && s == a + (r + b) && Above(b, key) && (r == [] || Rank(key) < Rank(r[0].key))
    ensures Above(r + b, key)
  {
    hide Sorted;
    if r == [] {
      assert r + b == b;
    } else {
      assert (r + b)[0] == r[0];
      AboveFrom(s, a, r + b, key);
    }
  }

  /** In a leaf, the key goes between its pairs. */
  lemma LeafOrder(k: Path, t: Tree, i: nat, key: Key)
    requires Proper(k) && t.kids == [] && Between(t, i, key)
    requires Sorted(Items(Plug(k, t))) && Below(Before(k), key) && Above(After(k), key)
    ensures Items(Plug(k, t)) == (Before(k) + t.pairs[..i]) + (t.pairs[i..] + After(k))
    ensures Below(Before(k) + t.pairs[..i], key) && Above(t.pairs[i..] + After(k), key)
  {
    hide Sorted, Below, Above, Before, After, Plug, Weave;
    PlugItems(k, t);
    var (l, r, s) := (t.pairs[..i], t.pairs[i..], Items(Plug(k, t)));
    assert l + r == t.pairs;
    Regroup4(Before(k), l, r, After(k));
    BelowParts(s, Before(k), l, r + After(k), key);
    AboveParts(s, Before(k) + l, r, After(k), key);
  }

  /** The items around the i-th pair of a node. */
  ghost function Ahead(k: Path, t: Tree, i: nat): seq<Pair>
    requires Proper(k) && i < |t.pairs|
  {
    Before(k) + if t.kids == [] || |t.kids| <= i then t.pairs[..i] else Weave(t.kids[..i + 1], t.pairs[..i])
  }

  ghost function Behind(k: Path, t: Tree, i: nat): seq<Pair>
    requires Proper(k) && i < |t.pairs|
  {
    (if t.kids == [] || |t.kids| <= i then t.pairs[i + 1..] else Weave(t.kids[i + 1..], t.pairs[i + 1..])) + After(k)
  }

  lemma PairSplit(k: Path, t: Tree, i: nat)
    requires Proper(k) && i < |t.pairs| && (t.kids == [] || |t.kids| == |t.pairs| + 1)
    ensures Items(Plug(k, t)) == Ahead(k, t, i) + [t.pairs[i]] + Behind(k, t, i)
  {
    hide Weave, Before, After, Plug;
    PlugItems(k, t);
    if t.kids == [] {
      assert t.pairs == t.pairs[..i] + [t.pairs[i]] + t.pairs[i + 1..];
      Regroup5(Before(k), t.pairs[..i], [t.pairs[i]], t.pairs[i + 1..], After(k));
      Regroup4(Before(k) + t.pairs[..i], [t.pairs[i]], t.pairs[i + 1..], After(k));
    } else {
      WeaveCut(t.kids, t.pairs, i);
      Regroup5(Before(k), Weave(t.kids[..i + 1], t.pairs[..i]), [t.pairs[i]], Weave(t.kids[i + 1..], t.pairs[i + 1..]),
        After(k));
    }
  }

  /** Another value for the i-th pair. */
  lemma PairReplaced(k: Path, t: Tree, i: nat, v: nat)
    requires Proper(k) && i < |t.pairs| && (t.kids == [] || |t.kids| == |t.pairs| + 1)
    ensures var (p, u) := (Pair(t.pairs[i].key, v), t.(pairs := t.pairs[i := Pair(t.pairs[i].key, v)]));
            Items(Plug(k, u)) == Ahead(k, t, i) + [p] + Behind(k, t, i)
  {
    hide Weave, Before, After, Plug;
    var u := t.(pairs := t.pairs[i := Pair(t.pairs[i].key, v)]);
    PairSplit(k, u, i);
    assert u.pairs[..i] == t.pairs[..i] && u.pairs[i + 1..] == t.pairs[i + 1..];
  }

  lemma {:induction false} InWeave(kids: seq<Tree>, pairs: seq<Pair>, j: nat)
    requires |kids| == |pairs| + 1 && j < |pairs|
    ensures pairs[j] in Weave(kids, pairs)
  {
    hide Items;
    if j > 0 { InWeave(kids[1..], pairs[1..], j - 1); }
  }

  /** The pairs of one node are in order. */
  lemma PairsSorted(k: Path, t: Tree, i: nat, j: nat)
    requires Proper(k) && Sorted(Items(Plug(k, t))) && i < j < |t.pairs| && (t.kids == [] || |t.kids| == |t.pairs| + 1)
    ensures Rank(t.pairs[i].key) < Rank(t.pairs[j].key)
  {
    hide Weave, Before, After, Plug, Items, Sorted;
    PairSplit(k, t, i);
    SortedParts(Ahead(k, t, i), t.pairs[i], Behind(k, t, i));
    var (ks, ps) := (if t.kids == [] then [] else t.kids[i + 1..], t.pairs[i + 1..]);
    assert ps[j - i - 1] == t.pairs[j];
    if t.kids != [] { InWeave(ks, ps, j - i - 1); }
    assert t.pairs[j] in Behind(k, t, i);
  }

  // ---------------------------------------------------------------- room on the way down

  /** The kid that the key belongs to is full. */
  ghost predicate FullBelow(t: Tree, key: Key) {
    exists i | 0 <= i < |t.kids| :: Between(t, i, key) && |t.kids[i].pairs| == BTREE_MAX_KEYS
  }

  /** A node that can take a key, or that will not have to. */
  ghost predicate Roomy(t: Tree, key: Key) {
    |t.pairs| < BTREE_MAX_KEYS || (t.kids != [] && !FullBelow(t, key))
  }

  /** After a split, the kid that the key belongs to is one of the halves. */
  lemma SplitRoom(k: Path, n: Tree, i: nat, loff: nat, roff: nat, poff: nat, h: nat, key: Key)
    requires Proper(k) && Splittable(n, i, h) && |n.kids| == |n.pairs| + 1 && Between(n, i, key)
    requires Sorted(Items(Plug(k, Parted(n, i, loff, roff, poff))))
    ensures !FullBelow(Parted(n, i, loff, roff, poff), key)
  {
    hide Shape, Items, Plug, Sorted;
    var g := Parted(n, i, loff, roff, poff);
    forall j: nat | j < |g.kids| && Between(g, j, key) ensures |g.kids[j].pairs| < BTREE_MAX_KEYS {
      NearSplit(k, n, i, loff, roff, poff, h, key, j);
    }
  }

  lemma NearSplit(k: Path, n: Tree, i: nat, loff: nat, roff: nat, poff: nat, h: nat, key: Key, j: nat)
    requires Proper(k) && Splittable(n, i, h) && |n.kids| == |n.pairs| + 1 && Between(n, i, key)
    requires Sorted(Items(Plug(k, Parted(n, i, loff, roff, poff))))
    requires j < |Parted(n, i, loff, roff, poff).kids| && Between(Parted(n, i, loff, roff, poff), j, key)
    ensures |Parted(n, i, loff, roff, poff).kids[j].pairs| < BTREE_MAX_KEYS
  {
    hide Shape, Items, Plug, Sorted;
    var g := Parted(n, i, loff, roff, poff);
    if j < i {
      assert g.pairs[i - 1] == n.pairs[i - 1];
      if j < i - 1 { PairsSorted(k, g, j, i - 1); }
      assert false;
    } else if j > i + 1 {
      assert g.pairs[i + 1] == n.pairs[i];
      if i + 1 < j - 1 { PairsSorted(k, g, i + 1, j - 1); }
      assert false;
    }
  }

  ghost predicate IsParted(g: Tree, n: Tree, i: nat, poff: nat) {
    && |n.kids| == |n.pairs| + 1 && i < |n.kids|
    && |n.kids[i].pairs| == BTREE_MAX_KEYS && (n.kids[i].kids == [] || |n.kids[i].kids| == BTREE_MAX_KEYS + 1)
    && exists loff, roff :: g == Parted(n, i, loff, roff, poff)
  }

  lemma PartedRoomy(k: Path, g: Tree, n: Tree, i: nat, poff: nat, h: nat, key: Key)
    requires Proper(k) && Splittable(n, i, h) && IsParted(g, n, i, poff) && Between(n, i, key)
             && Sorted(Items(Plug(k, g)))
    ensures !FullBelow(g, key) && Roomy(g, key)
  {
    hide Shape, Items, Plug, Sorted;
    var loff, roff :| g == Parted(n, i, loff, roff, poff);
    SplitRoom(k, n, i, loff, roff, poff, h, key);
  }
}
