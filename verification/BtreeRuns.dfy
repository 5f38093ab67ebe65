/** What a file means: the map its tree stands for, and how that survives the steps of an operation. */
module BtreeRuns {
  import opened Bytes
  import opened Options
  import opened LittleEndian
  import opened Memory
  import opened DiskImages
  import opened DiskLedger
  import opened DiskSteps
  import opened BtreeNodes
  import opened BtreeShape
  import opened BtreeOnDisk

  type Dict = map<Key, seq<Byte>>

  /** A sound file whose root pointer leads to a B-tree. */
  ghost predicate Rooted(s: State, t: Tree, h: nat) {
    Sound(s) && RootShape(t, h) && Sorted(Items(t)) && Occupies(Foot(t), s.book) && Holds(s.img, Top, t)
  }

  ghost predicate HasKey(items: seq<Pair>, key: Key) {
    exists p :: p in items && p.key == key
  }

  /** The items are the keys of the map, and lead to its values. */
  ghost predicate Agrees(img: Image, items: seq<Pair>, M: Dict) {
    && (forall p | p in items :: p.key in M && M[p.key] == Load(img, p.val))
    && forall k | k in M :: HasKey(items, k)
  }

  /** The file holds a B-tree that stands for the map; `spare` are the blocks in use besides. */
  ghost predicate Represents(s: State, M: Dict, spare: multiset<nat>) {
    exists t, h :: Rooted(s, t, h) && Agrees(s.img, Items(t), M) && multiset(Live(s.book)) == Foot(t) + spare
  }

  /** Opening the file gives this map. */
  ghost predicate Recovers(s: State, M: Dict) {
    exists t, h :: Rooted(s, t, h) && Agrees(s.img, Items(t), M)
  }

  /** All files written since the trail was `a` give this map. */
  ghost predicate Trail(a: seq<State>, b: seq<State>, M: Dict) {
    |a| <= |b| && b[..|a|] == a && forall k | |a| <= k < |b| :: Recovers(b[k], M)
  }

  /** They give the old map up to some write, and the new map from that write on. */
  ghost predicate Switches(a: seq<State>, b: seq<State>, M: Dict, N: Dict) {
    exists c :: Trail(a, c, M) && Trail(c, b, N)
  }

  lemma TrailSelf(a: seq<State>, M: Dict)
    ensures Trail(a, a, M)
  {
  }

  lemma TrailTwice(a: seq<State>, b: seq<State>, c: seq<State>, M: Dict)
    requires Trail(a, b, M) && Trail(b, c, M)
    ensures Trail(a, c, M)
  {
    hide Recovers;
    assert c[..|a|] == c[..|b|][..|a|];
    forall k | |a| <= k < |c| ensures Recovers(c[k], M) {
      if k < |b| { assert c[k] == c[..|b|][k]; }
    }
  }

  lemma TrailOne(a: seq<State>, s: State, t: Tree, h: nat, M: Dict)
    requires Rooted(s, t, h) && Agrees(s.img, Items(t), M)
    ensures Trail(a, a + [s], M)
  {
    hide Rooted, Agrees;
  }

  lemma TrailThen(a: seq<State>, b: seq<State>, c: seq<State>, M: Dict, N: Dict)
    requires Trail(a, b, M) && Switches(b, c, M, N)
    ensures Switches(a, c, M, N)
  {
    hide Trail;
    var d :| Trail(b, d, M) && Trail(d, c, N);
    TrailTwice(a, b, d, M);
  }

  // ---------------------------------------------------------------- the blocks of values

  /** The blocks of the nodes alone. */
  ghost function Nodes(t: Tree): multiset<nat> {
    multiset{Start(t.off)} + KidsNodes(t.kids)
  }

  ghost function KidsNodes(kids: seq<Tree>): multiset<nat> {
    if kids == [] then multiset{} else Nodes(kids[0]) + KidsNodes(kids[1..])
  }

  ghost predicate Regular(t: Tree) {
    (t.kids == [] || |t.kids| == |t.pairs| + 1) && forall k | k in t.kids :: Regular(k)
  }

  /** The blocks of a tree are those of its nodes and those of the values of its items. */
  lemma {:induction false} FootItems(t: Tree)
    requires Regular(t)
    ensures Foot(t) == Nodes(t) + PairsFoot(Items(t))
  {
    hide PairsFoot, Weave;
    FootIs(t);
    if t.kids == [] {
      EmptyFoot([]);
    } else {
      WeaveFoot(t.kids, t.pairs);
      Join(multiset{Start(t.off)}, PairsFoot(t.pairs), KidsFoot(t.kids), KidsNodes(t.kids), PairsFoot(Items(t)));
    }
  }

  lemma Join(o: multiset<nat>, p: multiset<nat>, k: multiset<nat>, n: multiset<nat>, i: multiset<nat>)
    requires k + p == n + i
    ensures o + p + k == (o + n) + i
  {
    assert o + p + k == o + (k + p) && (o + n) + i == o + (n + i);
  }

  lemma {:induction false} WeaveFoot(kids: seq<Tree>, pairs: seq<Pair>)
    requires |kids| == |pairs| + 1 && forall k | k in kids :: Regular(k)
    ensures KidsFoot(kids) + PairsFoot(pairs) == KidsNodes(kids) + PairsFoot(Weave(kids, pairs))
  {
    hide Foot, Nodes, Items, Regular;
    var k := kids[0];
    FootItems(k);
    if pairs == [] {
      EmptyFoot(kids[1..]);
      assert PairsFoot(pairs) == multiset{};
    } else {
      var (ks, ps) := (kids[1..], pairs[1..]);
      WeaveFoot(ks, ps);
      PairsFootSum(Items(k) + [pairs[0]], Weave(ks, ps));
      PairsFootSum(Items(k), [pairs[0]]);
      assert PairsFoot([pairs[0]]) == multiset{Start(pairs[0].val)} by { assert [pairs[0]][1..] == []; }
      JoinKid(Foot(k), Nodes(k), PairsFoot(Items(k)), multiset{Start(pairs[0].val)}, KidsFoot(ks), PairsFoot(ps),
        KidsNodes(ks), PairsFoot(Weave(ks, ps)));
    }
  }

  lemma JoinKid(f: multiset<nat>, n: multiset<nat>, i: multiset<nat>, p: multiset<nat>,
                k: multiset<nat>, ps: multiset<nat>, kn: multiset<nat>, w: multiset<nat>)
    requires f == n + i && k + ps == kn + w
    ensures (f + k) + (p + ps) == (n + kn) + (i + p + w)
  {
    assert (f + k) + (p + ps) == (n + i + p) + (k + ps) && (n + kn) + (i + p + w) == (n + i + p) + (kn + w);
  }

  lemma {:induction false} ShapeRegular(t: Tree, h: nat)
    requires Shape(t, h)
    ensures Regular(t)
  {
    if h > 0 {
      forall k | k in t.kids ensures Regular(k) { ShapeRegular(k, h - 1); }
    }
  }

  lemma InPairs(s: seq<Pair>, p: Pair)
    requires p in s
    ensures Start(p.val) in PairsFoot(s)
  {
    var i :| 0 <= i < |s| && s[i] == p;
    PairsFootAt(s, i);
  }

  /** Values are in blocks of their own. */
  lemma ValueBlock(t: Tree, h: nat, book: Book, p: Pair)
    requires Shape(t, h) && Occupies(Foot(t), book) && p in Items(t)
    ensures Start(p.val) in Live(book) && Start(p.val) in Foot(t) && Start(p.val) !in Nodes(t)
  {
    hide Foot, Items, Nodes, PairsFoot, Shape;
    ShapeRegular(t, h);
    FootItems(t);
    InPairs(Items(t), p);
    Occupied(Foot(t), book, Start(p.val));
  }

  lemma {:induction false} PlugNodes(k: Path, t: Tree)
    requires Proper(k)
    ensures Nodes(t) <= Nodes(Plug(k, t)) && (k.Under? ==> Start(k.node.off) in Nodes(Plug(k, t)))
  {
    if k.Under? {
      var f := Filled(k.node, k.i, t);
      KidNodes(f.kids, k.i);
      PlugNodes(k.up, f);
    }
  }

  lemma {:induction false} KidNodes(kids: seq<Tree>, i: nat)
    requires i < |kids|
    ensures Nodes(kids[i]) <= KidsNodes(kids)
  {
    if i > 0 { KidNodes(kids[1..], i - 1); }
  }

  // ---------------------------------------------------------------- agreement

  lemma AgreesKept(x: Image, y: Image, items: seq<Pair>, M: Dict)
    requires Agrees(x, items, M) && forall p | p in items :: p.val >= 8 && Kept(x, y, p.val - 8)
    ensures Agrees(y, items, M)
  {
    hide Kept, Load, HasKey;
    forall p | p in items ensures Load(y, p.val) == Load(x, p.val) {
      LoadKept(x, y, p.val);
    }
  }

  /** Steps that keep the blocks of a tree keep what the file means. */
  lemma RootedSteady(s: State, u: State, t: Tree, h: nat, M: Dict, keep: set<nat>)
    requires Rooted(s, t, h) && Agrees(s.img, Items(t), M) && Sound(u) && Steady(s, u, keep)
             && forall p | p in Foot(t) :: p in keep
    ensures Rooted(u, t, h) && Agrees(u.img, Items(t), M)
  {
    hide Sound, RootShape, Sorted, Items, Foot, Agrees, Kept, Stored, Word;
    forall p | p in Foot(t) ensures Kept(s.img, u.img, p) && p in Live(u.book) && Foot(t)[p] == 1 {
      Occupied(Foot(t), s.book, p);
    }
    StoredKept(s.img, u.img, t);
    RootedAgrees(s, u.img, t, h, M);
  }

  lemma RootedAgrees(s: State, img: Image, t: Tree, h: nat, M: Dict)
    requires Rooted(s, t, h) && Agrees(s.img, Items(t), M) && AllKept(s.img, img, Foot(t))
    ensures Agrees(img, Items(t), M)
  {
    hide Sorted, Items, Foot, Agrees, Kept, Stored, Holds;
    forall p | p in Items(t) ensures p.val >= 8 && Kept(s.img, img, p.val - 8) {
      ValueAt8(s, t, h, p);
    }
    AgreesKept(s.img, img, Items(t), M);
  }

  lemma ValueAt8(s: State, t: Tree, h: nat, p: Pair)
    requires Sound(s) && RootShape(t, h) && Occupies(Foot(t), s.book) && p in Items(t)
    ensures p.val >= 8 + HEAP_POS && p.val - 8 in Foot(t) && p.val - 8 in Live(s.book) && p.val - 8 !in Nodes(t)
  {
    hide Sound, Items, Foot, Nodes, Shape, SizeOf;
    ValueBlock(t, h, s.book, p);
    ChunksApart(s, Start(p.val), Start(p.val));
  }

  /** A run that keeps the blocks of the tree leaves the map as it is, at each write. */
  lemma Stays(s: State, a: seq<State>, u: State, b: seq<State>, t: Tree, h: nat, M: Dict, keep: set<nat>)
    requires Rooted(s, t, h) && Agrees(s.img, Items(t), M) && Leads(s, a, u, b, keep) && forall p | p in Foot(t) ::
             p in keep
    ensures Rooted(u, t, h) && Agrees(u.img, Items(t), M) && Trail(a, b, M)
  {
    hide Sound, Rooted, Agrees, Steady, Items, Foot;
    RootedSteady(s, u, t, h, M, keep);
    forall k | |a| <= k < |b| ensures Recovers(b[k], M) {
      RootedSteady(s, b[k], t, h, M, keep);
    }
  }

  // ---------------------------------------------------------------- edits of the map

  lemma AgreesInsert(img: Image, a: seq<Pair>, p: Pair, b: seq<Pair>, M: Dict)
    requires Agrees(img, a + b, M) && Below(a, p.key) && Above(b, p.key)
    ensures p.key !in M && Agrees(img, a + [p] + b, M[p.key := Load(img, p.val)])
  {
    hide Load;
    var (s, N) := (a + [p] + b, M[p.key := Load(img, p.val)]);
    forall q | q in a + b ensures q.key != p.key {
      assert q in a || q in b;
    }
    assert p.key in M ==> HasKey(a + b, p.key);
    forall q | q in s ensures q.key in N && N[q.key] == Load(img, q.val) {
      assert q in a || q == p || q in b;
      assert q == p || q in a + b;
    }
    forall k | k in N ensures HasKey(s, k) {
      if k == p.key {
        assert p in s;
      } else {
        assert HasKey(a + b, k);
        var q :| q in a + b && q.key == k;
        assert q in s;
      }
    }
  }

  lemma AgreesReplace(img: Image, a: seq<Pair>, o: Pair, b: seq<Pair>, M: Dict, v: nat)
    requires Agrees(img, a + [o] + b, M) && Below(a, o.key) && Above(b, o.key)
    ensures o.key in M && Agrees(img, a + [Pair(o.key, v)] + b, M[o.key := Load(img, v)])
  {
    hide Load;
    var (p, t) := (Pair(o.key, v), a + [o] + b);
    var (s, N) := (a + [p] + b, M[o.key := Load(img, v)]);
    assert o in t;
    forall q | q in s ensures q.key in N && N[q.key] == Load(img, q.val) {
      assert q in a || q == p || q in b;
      if q != p { assert q in t; }
    }
    forall k | k in N ensures HasKey(s, k) {
      if k == o.key {
        assert p in s;
      } else {
        assert HasKey(t, k);
        var q :| q in t && q.key == k;
        assert q in a || q in b;
        assert q in s;
      }
    }
  }

  /** No key between neighbours. */
  lemma AgreesGap(img: Image, a: seq<Pair>, b: seq<Pair>, M: Dict, key: Key)
    requires Agrees(img, a + b, M) && Below(a, key) && Above(b, key)
    ensures key !in M
  {
    hide Load;
    forall q | q in a + b ensures q.key != key {
      assert q in a || q in b;
    }
    assert key in M ==> HasKey(a + b, key);
  }

  // ---------------------------------------------------------------- commits

  /** All of a tree's values are kept by a write into one of its nodes. */
  lemma ValuesKept(s: State, img: Image, p: nat, t: Tree, h: nat, N: Dict)
    requires Sound(s) && RootShape(t, h) && Occupies(Foot(t), s.book) && OthersKept(s, img, p) && p in Nodes(t)
             && Agrees(s.img, Items(t), N)
    ensures Agrees(img, Items(t), N)
  {
    hide Sound, RootShape, Items, Foot, Agrees, Kept, Nodes;
    forall q | q in Items(t) ensures q.val >= 8 && Kept(s.img, img, q.val - 8) {
      ValueAt8(s, t, h, q);
    }
    AgreesKept(s.img, img, Items(t), N);
  }

  /** One pointer is written: from then on the file means what the new tree means. */
  lemma Commit(s: State, k: Path, u: Tree, h: nat, N: Dict)
    requires Sound(s) && Proper(k) && StoredPath(s.img, k) && Stored(s.img, u)
             && Occupies(PathFoot(k) + Foot(u), s.book) && u.off < 2 * POW63
    requires PathShape(k, h) && HoleShape(k, u, h) && Sorted(Items(Plug(k, u))) && Agrees(s.img, Items(Plug(k, u)), N)
    ensures Hook(k) + 8 <= |s.img|
    ensures var t := s.(img := Patched(s.img, Hook(k), Big(u.off, 8)));
            && Rooted(t, Plug(k, u), h + Depth(k)) && Agrees(t.img, Items(Plug(k, u)), N)
            && Word(t.img, BTREE_HDR_ROOTPTR_POS) == if Hook(k) == BTREE_HDR_ROOTPTR_POS then u.off
               else Word(s.img, BTREE_HDR_ROOTPTR_POS)
  {
    hide Sound, Word, Patched, Stored, StoredPath, Items, Foot, PathFoot, Agrees, Kept, Sorted, Shape, Nodes, Start,
         Live;
    PlugShape(k, u, h);
    PlugFoot(k, u);
    PlugNodes(k, u);
    var w := Plug(k, u);
    if k.Under? {
      CommitKid(s, k, u);
      HookBelow(s, k, u);
      var img := Patched(s.img, Hook(k), Big(u.off, 8));
      HoldsTop(img, k, u);
      ValuesKept(s, img, Start(k.node.off), w, h + Depth(k), N);
    } else {
      OccupiesLess(PathFoot(k) + Foot(u), s.book, Foot(u));
      CommitRoot(s, u);
      var img := Patched(s.img, Hook(k), Big(u.off, 8));
      RootOthers(s, img, Start(u.off));
      NodesRoot(w);
      ValuesKept(s, img, Start(u.off), w, h + Depth(k), N);
    }
  }

  lemma HookBelow(s: State, k: Path, u: Tree)
    requires Sound(s) && Proper(k) && k.Under? && Occupies(PathFoot(k) + Foot(u), s.book)
    ensures Hook(k) > BTREE_HDR_ROOTPTR_POS
  {
    hide Sound, Occupies, PathFoot, Foot, SizeOf;
    PathDistinct(k, Foot(u), s.book);
    ChunksApart(s, Start(k.node.off), Start(k.node.off));
  }

  lemma RootOthers(s: State, img: Image, p: nat)
    requires forall q | q in Live(s.book) :: Kept(s.img, img, q)
    ensures OthersKept(s, img, p)
  {
  }

  lemma NodesRoot(t: Tree)
    ensures Start(t.off) in Nodes(t)
  {
  }

  /** The same for a value pointer inside a node. */
  lemma CommitOver(s: State, k: Path, t: Tree, i: nat, v: nat, h: nat, N: Dict)
    requires Sound(s) && Holds(s.img, k, t) && i < |t.pairs| && v < 2 * POW63 && PathShape(k, h) && HoleShape(k, t, h)
    requires var u := t.(pairs := t.pairs[i := Pair(t.pairs[i].key, v)]);
             && Occupies(PathFoot(k) + Foot(t), s.book) && Occupies(PathFoot(k) + Foot(u), s.book)
             && Sorted(Items(Plug(k, u))) && Agrees(s.img, Items(Plug(k, u)), N)
    ensures t.off + VALUES_POS + 8 * i + 8 <= |s.img|
    ensures var (w, u) := (s.(img := Patched(s.img, t.off + VALUES_POS + 8 * i, Big(v, 8))),
            t.(pairs := t.pairs[i := Pair(t.pairs[i].key, v)]));
            && Rooted(w, Plug(k, u), h + Depth(k)) && Agrees(w.img, Items(Plug(k, u)), N)
            && Word(w.img, BTREE_HDR_ROOTPTR_POS) == Word(s.img, BTREE_HDR_ROOTPTR_POS)
  {
    hide Sound, Word, Patched, Stored, StoredPath, Items, Foot, PathFoot, Agrees, Kept, Sorted, Nodes, Start, Live,
         Hook, PathShape;
    CommitValue(s, k, t, i, v);
    var (img, u) := (Patched(s.img, t.off + VALUES_POS + 8 * i, Big(v, 8)),
      t.(pairs := t.pairs[i := Pair(t.pairs[i].key, v)]));
    PlugShape(k, u, h);
    hide Shape;
    PlugFoot(k, u);
    PlugNodes(k, u);
    NodesRoot(u);
    HoldsTop(img, k, u);
    ValuesKept(s, img, Start(u.off), Plug(k, u), h + Depth(k), N);
  }

  lemma {:induction false} HoldsDown(img: Image, k: Path, t: Tree)
    requires Proper(k) && Holds(img, Top, Plug(k, t))
    ensures Holds(img, k, t)
  {
    hide Stored, StoredPath, Word;
    if k.Under? {
      var f := Filled(k.node, k.i, t);
      HoldsDown(img, k.up, f);
      HoldsKid(img, k.up, f, k.i);
      OtherKids(img, k, t);
    }
  }

  lemma OtherKids(img: Image, k: Path, t: Tree)
    requires Proper(k) && k.Under? && Holds(img, Under(k.up, Filled(k.node, k.i, t), k.i), t)
    ensures Holds(img, k, t)
  {
    hide Word, NodeOn, Stored;
    var f := Filled(k.node, k.i, t);
    SkipKid(img, k.node, k.i, t);
    forall j | 0 <= j < |k.node.kids| && j != k.i ensures f.kids[j] == k.node.kids[j] {
    }
  }

  lemma SkipKid(img: Image, n: Tree, i: nat, t: Tree)
    requires i < |n.kids| && NodeOn(img, Filled(n, i, t), i)
    ensures NodeOn(img, n, i)
  {
    hide Word, RecAt;
    forall j | 0 <= j < |n.kids| && j != i ensures Filled(n, i, t).kids[j] == n.kids[j] {
    }
  }
}
