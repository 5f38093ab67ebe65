/** B-trees in a file: which trees a file holds, and what a write of one pointer does to them. */
module BtreeOnDisk {
  import opened Bytes
  import opened Options
  import opened LittleEndian
  import opened Memory
  import opened DiskImages
  import opened DiskLedger
  import opened DiskSteps
  import opened BtreeNodes
  import opened BtreeShape

  // ---------------------------------------------------------------- single nodes

  function RecAt(img: Image, off: nat): Option<Rec> {
    if off + BTREE_NODE_SIZE <= |img| then DecodeNode(img[off..off + BTREE_NODE_SIZE]) else None
  }

  /** The record of a node; the pointer to one kid may be passed over. */
  ghost predicate Matches(r: Rec, t: Tree, skip: int) {
    && |r.keys| == BTREE_MAX_KEYS && |r.values| == BTREE_MAX_KEYS && |r.children| == BTREE_MAX_KEYS + 1
    && |t.pairs| <= BTREE_MAX_KEYS && |t.kids| <= BTREE_MAX_KEYS + 1
    && r.numkeys == |t.pairs| && r.isleaf == (if t.kids == [] then 1 else 0)
    && (forall j | 0 <= j < |t.pairs| :: r.keys[j] == t.pairs[j].key && r.values[j] == t.pairs[j].val)
    && forall j | 0 <= j < |t.kids| && j != skip :: r.children[j] == t.kids[j].off
  }

  ghost predicate NodeOn(img: Image, t: Tree, skip: int) {
    && t.off >= 8 && Word(img, t.off - 8) == BTREE_NODE_SIZE
    && RecAt(img, t.off).Some? && Matches(RecAt(img, t.off).value, t, skip)
  }

  /** The value behind a pointer: its label gives its length. */
  function Load(img: Image, v: nat): seq<Byte> {
    if v >= 8 && v + Word(img, v - 8) <= |img| then img[v..v + Word(img, v - 8)] else []
  }

  lemma LoadKept(x: Image, y: Image, v: nat)
    requires v >= 8 && Kept(x, y, v - 8)
    ensures Load(y, v) == Load(x, v)
  {
    KeptLabel(x, y, v - 8);
    hide Word;
    var n := Word(x, v - 8);
    SlicePart(x, y, v - 8, v + n, v, v + n);
  }

  lemma RecKept(x: Image, y: Image, off: nat)
    requires off >= 8 && Kept(x, y, off - 8) && Word(x, off - 8) == BTREE_NODE_SIZE
    ensures RecAt(y, off) == RecAt(x, off) && Word(y, off - 8) == BTREE_NODE_SIZE
  {
    KeptLabel(x, y, off - 8);
    hide Word, DecodeNode;
    SlicePart(x, y, off - 8, off + BTREE_NODE_SIZE, off, off + BTREE_NODE_SIZE);
  }

  lemma NodeKept(x: Image, y: Image, t: Tree, skip: int)
    requires NodeOn(x, t, skip) && Kept(x, y, Start(t.off))
    ensures NodeOn(y, t, skip)
  {
    hide Word, Kept, Matches, RecAt;
    RecKept(x, y, t.off);
  }

  /** Where a node keeps the pointer to a kid. */
  lemma ChildWord(img: Image, off: nat, j: nat)
    requires RecAt(img, off).Some? && j <= BTREE_MAX_KEYS
    ensures |RecAt(img, off).value.children| == BTREE_MAX_KEYS + 1
    ensures RecAt(img, off).value.children[j] == Word(img, off + CHILDREN_POS + 8 * j)
  {
    hide Number;
    var (b, o) := (img[off..off + BTREE_NODE_SIZE], CHILDREN_POS + 8 * j);
    SubSlice(img, off, BTREE_NODE_SIZE, o, 8);
  }

  lemma SubSlice(img: Image, off: nat, n: nat, o: nat, w: nat)
    requires off + n <= |img| && o + w <= n
    ensures img[off..off + n][o..o + w] == img[off + o..off + o + w]
  {
    var (u, v) := (img[off..off + n][o..o + w], img[off + o..off + o + w]);
    forall i | 0 <= i < w ensures u[i] == v[i] {
      assert u[i] == img[off..off + n][o + i] == img[off + o + i] == v[i];
    }
  }

  lemma PatchedSlice(img: Image, off: nat, n: nat, o: nat, s: seq<Byte>)
    requires off + n <= |img| && o + |s| <= n
    ensures Patched(img, off + o, s)[off..off + n] == Patched(img[off..off + n], o, s)
  {
    var (u, v) := (Patched(img, off + o, s)[off..off + n], Patched(img[off..off + n], o, s));
    var (p, b) := (Patched(img, off + o, s), img[off..off + n]);
    forall i | 0 <= i < n ensures u[i] == v[i] {
      assert u[i] == p[off + i];
      if i < o {
        assert p[off + i] == img[off + i] == b[i] == v[i];
      } else if i < o + |s| {
        assert p[off + i] == s[i - o] == v[i];
      } else {
        assert p[off + i] == img[off + i] == b[i] == v[i];
      }
    }
  }

  lemma ChildWritten(img: Image, off: nat, j: nat, v: nat)
    requires RecAt(img, off).Some? && j <= BTREE_MAX_KEYS && v < 2 * POW63
    ensures |RecAt(img, off).value.children| == BTREE_MAX_KEYS + 1 && off + CHILDREN_POS + 8 * j + 8 <= |img|
    ensures var r := RecAt(img, off).value;
            RecAt(Patched(img, off + CHILDREN_POS + 8 * j, Big(v, 8)), off) == Some(r.(children := r.children[j := v]))
  {
    hide Patched, Big, DecodeNode;
    PatchedSlice(img, off, BTREE_NODE_SIZE, CHILDREN_POS + 8 * j, Big(v, 8));
    ChildPatched(img[off..off + BTREE_NODE_SIZE], j, v);
    ChildWord(img, off, j);
    assert |Patched(img, off + (CHILDREN_POS + 8 * j), Big(v, 8))| == |img|;
  }

  lemma ValueWritten(img: Image, off: nat, j: nat, v: nat)
    requires RecAt(img, off).Some? && j < BTREE_MAX_KEYS && v < 2 * POW63
    ensures |RecAt(img, off).value.values| == BTREE_MAX_KEYS && off + VALUES_POS + 8 * j + 8 <= |img|
    ensures var r := RecAt(img, off).value;
            RecAt(Patched(img, off + VALUES_POS + 8 * j, Big(v, 8)), off) == Some(r.(values := r.values[j := v]))
  {
    hide Patched, Big;
    PatchedSlice(img, off, BTREE_NODE_SIZE, VALUES_POS + 8 * j, Big(v, 8));
    ValuePatched(img[off..off + BTREE_NODE_SIZE], j, v);
    assert |Patched(img, off + (VALUES_POS + 8 * j), Big(v, 8))| == |img|;
  }

  lemma NodeWritten(img: Image, off: nat, mark: nat, r: Rec)
    requires Storable(r) && off + BTREE_NODE_SIZE <= |img|
    ensures |EncodeNode(mark, r)| == BTREE_NODE_SIZE
    ensures var t := Patched(img, off, EncodeNode(mark, r));
            RecAt(t, off) == Some(r) && |t| == |img| && t[off..off + BTREE_NODE_SIZE] == EncodeNode(mark, r)
  {
    hide EncodeNode, DecodeNode, Patched;
    DecodeEncodeNode(mark, r);
    PatchElsewhere(img, off, EncodeNode(mark, r));
    assert |Patched(img, off, EncodeNode(mark, r))| == |img|;
  }

  // ---------------------------------------------------------------- trees

  ghost predicate Stored(img: Image, t: Tree) {
    NodeOn(img, t, -1) && forall k | k in t.kids :: Stored(img, k)
  }

  /** Where the pointer to the hole of a path is kept. */
  ghost function Hook(k: Path): nat {
    if k.Top? then BTREE_HDR_ROOTPTR_POS else k.node.off + CHILDREN_POS + 8 * k.i
  }

  ghost predicate StoredPath(img: Image, k: Path)
    requires Proper(k)
  {
    k.Under? ==>
      && NodeOn(img, k.node, k.i) && (forall j | 0 <= j < |k.node.kids| && j != k.i :: Stored(img, k.node.kids[j]))
      && Word(img, Hook(k.up)) == k.node.off && StoredPath(img, k.up)
  }

  /** The file holds the path, and the tree t below it. */
  ghost predicate Holds(img: Image, k: Path, t: Tree) {
    Proper(k) && StoredPath(img, k) && Word(img, Hook(k)) == t.off && Stored(img, t)
  }

  lemma InKid(kids: seq<Tree>, i: nat, p: nat)
    requires i < |kids| && p in Foot(kids[i])
    ensures p in KidsFoot(kids)
  {
    KidsFootAt(kids, i);
  }

  ghost predicate AllKept(x: Image, y: Image, foot: multiset<nat>) {
    forall p | p in foot :: Kept(x, y, p)
  }

  /** A tree whose blocks are kept is kept. */
  lemma {:induction false} StoredKept(x: Image, y: Image, t: Tree)
    requires Stored(x, t) && AllKept(x, y, Foot(t))
    ensures Stored(y, t)
  {
    hide Kept, NodeOn;
    NodeKept(x, y, t, -1);
    forall k | k in t.kids ensures Stored(y, k) {
      var i :| 0 <= i < |t.kids| && t.kids[i] == k;
      forall p | p in Foot(k) ensures Kept(x, y, p) {
        InKid(t.kids, i, p);
        FootIs(t);
      }
      StoredKept(x, y, k);
    }
  }

  lemma {:induction false} StoredPathKept(x: Image, y: Image, k: Path)
    requires Proper(k) && StoredPath(x, k) && AllKept(x, y, PathFoot(k))
    requires Word(y, BTREE_HDR_ROOTPTR_POS) == Word(x, BTREE_HDR_ROOTPTR_POS)
    ensures StoredPath(y, k) && Word(y, Hook(k)) == Word(x, Hook(k))
  {
    hide Kept, NodeOn, Stored, Word, PathFoot, AllKept;
    if k.Under? {
      var n := k.node;
      AllKeptUp(x, y, k);
      StoredPathKept(x, y, k.up);
      NodeKept(x, y, n, k.i);
      forall j | 0 <= j < |n.kids| && j != k.i ensures Stored(y, n.kids[j]) {
        BesideKept(x, y, k, j);
      }
      HookKept(x, y, n, k.i);
    }
  }

  lemma AllKeptUp(x: Image, y: Image, k: Path)
    requires Proper(k) && k.Under? && AllKept(x, y, PathFoot(k))
    ensures AllKept(x, y, PathFoot(k.up)) && Kept(x, y, Start(k.node.off))
  {
    hide Kept, KidsFoot, PairsFoot;
    assert Start(k.node.off) in PathFoot(k);
    forall p | p in PathFoot(k.up) ensures Kept(x, y, p) {
      assert p in PathFoot(k);
    }
  }

  lemma BesideKept(x: Image, y: Image, k: Path, j: nat)
    requires Proper(k) && k.Under? && AllKept(x, y, PathFoot(k)) && j < |k.node.kids| && j != k.i
             && Stored(x, k.node.kids[j])
    ensures Stored(y, k.node.kids[j])
  {
    hide Kept, Stored, PathFoot, Foot;
    BesideFoot(k, j);
    StoredKept(x, y, k.node.kids[j]);
  }

  lemma HookKept(x: Image, y: Image, n: Tree, i: nat)
    requires NodeOn(x, n, i) && Kept(x, y, Start(n.off)) && i < |n.kids|
    ensures Word(y, n.off + CHILDREN_POS + 8 * i) == Word(x, n.off + CHILDREN_POS + 8 * i)
  {
    hide Word;
    WordPart(x, y, n.off - 8, n.off + BTREE_NODE_SIZE, n.off + CHILDREN_POS + 8 * i);
  }

  /** The trees beside a hole occupy blocks of the path. */
  lemma BesideFoot(k: Path, j: nat)
    requires Proper(k) && k.Under? && j < |k.node.kids| && j != k.i
    ensures forall p | p in Foot(k.node.kids[j]) :: p in PathFoot(k)
  {
    hide Foot, KidsFoot, PairsFoot;
    var kids := k.node.kids;
    forall p | p in Foot(kids[j]) ensures p in PathFoot(k) {
      if j < k.i {
        assert kids[..k.i][j] == kids[j];
        InKid(kids[..k.i], j, p);
      } else {
        assert kids[k.i + 1..][j - k.i - 1] == kids[j];
        InKid(kids[k.i + 1..], j - k.i - 1, p);
      }
    }
  }

  /** Opening a tree at a kid. */
  lemma HoldsKid(img: Image, k: Path, t: Tree, i: nat)
    requires Holds(img, k, t) && i < |t.kids| == |t.pairs| + 1
    ensures Holds(img, Under(k, t, i), t.kids[i])
  {
    hide Word;
    assert t.kids[i] in t.kids;
    forall j | 0 <= j < |t.kids| ensures Stored(img, t.kids[j]) {
      assert t.kids[j] in t.kids;
    }
    ChildWord(img, t.off, i);
  }

  /** Closing it again. */
  lemma HoldsUp(img: Image, k: Path, t: Tree)
    requires Holds(img, k, t) && k.Under?
    ensures Holds(img, k.up, Filled(k.node, k.i, t))
  {
    hide Word;
    var (n, f) := (k.node, Filled(k.node, k.i, t));
    ChildWord(img, n.off, k.i);
    forall m | m in f.kids ensures Stored(img, m) {
      var j :| 0 <= j < |f.kids| && f.kids[j] == m;
    }
  }

  lemma {:induction false} HoldsTop(img: Image, k: Path, t: Tree)
    requires Holds(img, k, t)
    ensures Holds(img, Top, Plug(k, t))
  {
    hide Stored, StoredPath, Word;
    if k.Under? {
      HoldsUp(img, k, t);
      HoldsTop(img, k.up, Filled(k.node, k.i, t));
    }
  }

  // ---------------------------------------------------------------- commits

  /** The blocks of these nodes and values are all in use, and all different. */
  ghost predicate Occupies(foot: multiset<nat>, book: Book) {
    foot <= multiset(Live(book))
  }

  lemma Occupied(foot: multiset<nat>, book: Book, p: nat)
    requires Occupies(foot, book) && p in foot
    ensures foot[p] == 1 && p in book && book[p].use == InUse
  {
    assert foot[p] <= multiset(Live(book))[p];
  }

  lemma OccupiesLess(foot: multiset<nat>, book: Book, less: multiset<nat>)
    requires Occupies(foot, book) && less <= foot
    ensures Occupies(less, book)
  {
  }

  /** A node lies inside its block. */
  lemma NodeBlock(s: State, t: Tree, skip: int)
    requires Sound(s) && NodeOn(s.img, t, skip) && Start(t.off) in s.book
    ensures t.off == Start(t.off) + 8 && t.off + BTREE_NODE_SIZE <= Start(t.off) + SizeOf(s.book[Start(t.off)].cls)
    ensures Start(t.off) + SizeOf(s.book[Start(t.off)].cls) <= |s.img| < POW63
  {
    hide Framed, ListsOk, Chained, SlotsBooked, BlocksBooked, UsesListed, SizeOf, Word, RecAt, Matches;
    ChunksApart(s, Start(t.off), Start(t.off));
    FramedBound(s);
  }

  lemma FramedBound(s: State)
    requires Sound(s)
    ensures s.freeoff <= |s.img| < POW63
  {
    hide ListsOk, Apart, Labelled, Chained, SlotsBooked, BlocksBooked, UsesListed, Word;
  }

  /** All blocks in use but one are kept. */
  ghost predicate OthersKept(s: State, img: Image, p: nat) {
    forall q | q in Live(s.book) && q != p :: Kept(s.img, img, q)
  }

  lemma OthersAllKept(s: State, img: Image, p: nat, foot: multiset<nat>)
    requires OthersKept(s, img, p) && Occupies(foot, s.book) && p !in foot
    ensures AllKept(s.img, img, foot)
  {
    hide Kept;
    forall q | q in foot ensures Kept(s.img, img, q) {
      Occupied(foot, s.book, q);
    }
  }

  /** A word inside a node is written. */
  lemma NodeWrite(s: State, t: Tree, skip: int, o: nat, v: nat)
    requires Sound(s) && NodeOn(s.img, t, skip) && Start(t.off) in Live(s.book) && o + 8 <= BTREE_NODE_SIZE
             && v < 2 * POW63
    ensures t.off + o + 8 <= |s.img|
    ensures var img := Patched(s.img, t.off + o, Big(v, 8));
            && Sound(s.(img := img)) && OthersKept(s, img, Start(t.off)) && Word(img, t.off + o) == v
            && Word(img, BTREE_HDR_ROOTPTR_POS) == Word(s.img, BTREE_HDR_ROOTPTR_POS)
               && Word(img, t.off - 8) == Word(s.img, t.off - 8)
  {
    hide Sound, NodeOn, SizeOf, Word, Patched, Elsewhere, Kept;
    NodeBlock(s, t, skip);
    var (p, img) := (Start(t.off), Patched(s.img, t.off + o, Big(v, 8)));
    WordWritten(s.img, t.off + o, v);
    PayloadUnread(s, p, t.off + o, 8);
    UnreadSound(s, img, t.off + o, 8);
    PayloadSteady(s, img, p, t.off + o, 8);
    WordElsewhere(s.img, img, t.off + o, 8, t.off - 8);
  }

  lemma PathDistinct(k: Path, foot: multiset<nat>, book: Book)
    requires Proper(k) && k.Under? && Occupies(PathFoot(k) + foot, book)
    ensures Start(k.node.off) in Live(book) && Occupies(foot, book) && Start(k.node.off) !in foot
    ensures Occupies(PathFoot(k.up), book) && Start(k.node.off) !in PathFoot(k.up)
    ensures forall j | 0 <= j < |k.node.kids| && j != k.i ::
            Occupies(Foot(k.node.kids[j]), book) && Start(k.node.off) !in Foot(k.node.kids[j])
  {
    hide KidsFoot, PairsFoot, Foot;
    var p := Start(k.node.off);
    var all := PathFoot(k) + foot;
    assert p in all;
    Occupied(all, book, p);
    OccupiesLess(all, book, foot);
    OccupiesLess(all, book, PathFoot(k.up));
    forall j | 0 <= j < |k.node.kids| && j != k.i ensures Occupies(Foot(k.node.kids[j]), book)
      && p !in Foot(k.node.kids[j]) {
      BesideLess(k, j);
      assert Foot(k.node.kids[j]) + multiset{p} <= all;
      OccupiesLess(all, book, Foot(k.node.kids[j]));
    }
  }

  lemma BesideLess(k: Path, j: nat)
    requires Proper(k) && k.Under? && j < |k.node.kids| && j != k.i
    ensures Foot(k.node.kids[j]) + multiset{Start(k.node.off)} <= PathFoot(k)
  {
    hide Foot, KidsFoot, PairsFoot;
    var kids := k.node.kids;
    if j < k.i {
      KidsFootAt(kids[..k.i], j);
    } else {
      KidsFootAt(kids[k.i + 1..], j - k.i - 1);
    }
  }

  /** Writing the pointer to the hole puts the new tree there, in one step. */
  lemma CommitKid(s: State, k: Path, t: Tree)
    requires Sound(s) && Proper(k) && k.Under? && StoredPath(s.img, k) && Stored(s.img, t)
             && Occupies(PathFoot(k) + Foot(t), s.book)
    requires t.off < 2 * POW63
    ensures Hook(k) + 8 <= |s.img|
    ensures var img := Patched(s.img, Hook(k), Big(t.off, 8));
            && Sound(s.(img := img)) && OthersKept(s, img, Start(k.node.off)) && Holds(img, k, t)
            && Word(img, BTREE_HDR_ROOTPTR_POS) == Word(s.img, BTREE_HDR_ROOTPTR_POS)
  {
    hide Sound, Word, Patched, Kept, Stored, Foot, PathFoot, NodeOn, OthersKept, Live, Occupies, Start;
    var n := k.node;
    PathDistinct(k, Foot(t), s.book);
    CommitRec(s, n, k.i, t.off);
    NodeWrite(s, n, k.i, CHILDREN_POS + 8 * k.i, t.off);
    var img := Patched(s.img, Hook(k), Big(t.off, 8));
    OthersAllKept(s, img, Start(n.off), Foot(t));
    StoredKept(s.img, img, t);
    OthersAllKept(s, img, Start(n.off), PathFoot(k.up));
    StoredPathKept(s.img, img, k.up);
    forall j | 0 <= j < |n.kids| && j != k.i ensures Stored(img, n.kids[j]) {
      OthersAllKept(s, img, Start(n.off), Foot(n.kids[j]));
      StoredKept(s.img, img, n.kids[j]);
    }
  }

  lemma CommitRec(s: State, n: Tree, i: nat, v: nat)
    requires Sound(s) && NodeOn(s.img, n, i) && i < |n.kids| && v < 2 * POW63 && Start(n.off) in Live(s.book)
    ensures i <= BTREE_MAX_KEYS && n.off + CHILDREN_POS + 8 * i + 8 <= |s.img|
    ensures NodeOn(Patched(s.img, n.off + CHILDREN_POS + 8 * i, Big(v, 8)), n, i)
  {
    hide Sound, Word, Patched, RecAt, OthersKept;
    ChildWritten(s.img, n.off, i, v);
    NodeWrite(s, n, i, CHILDREN_POS + 8 * i, v);
  }

  /** The root pointer. */
  lemma CommitRoot(s: State, t: Tree)
    requires Sound(s) && Stored(s.img, t) && Occupies(Foot(t), s.book) && t.off < 2 * POW63
    ensures BTREE_HDR_ROOTPTR_POS + 8 <= |s.img|
    ensures var img := Patched(s.img, BTREE_HDR_ROOTPTR_POS, Big(t.off, 8));
            Sound(s.(img := img)) && Holds(img, Top, t) && forall q | q in Live(s.book) :: Kept(s.img, img, q)
  {
    hide Sound, Word, Patched, Kept, Stored, Foot, SizeOf, Elsewhere;
    SpaceBound(s);
    WordWritten(s.img, BTREE_HDR_ROOTPTR_POS, t.off);
    var img := Patched(s.img, BTREE_HDR_ROOTPTR_POS, Big(t.off, 8));
    RootUnread(s);
    UnreadSound(s, img, BTREE_HDR_ROOTPTR_POS, 8);
    forall q | q in Live(s.book) ensures Kept(s.img, img, q) {
      ChunksApart(s, q, q);
      KeptElsewhere(s, img, BTREE_HDR_ROOTPTR_POS, 8, q);
    }
    forall q | q in Foot(t) ensures Kept(s.img, img, q) {
      Occupied(Foot(t), s.book, q);
    }
    StoredKept(s.img, img, t);
  }

  lemma SpaceBound(s: State)
    requires Sound(s)
    ensures HEAP_POS <= |s.img|
  {
    hide ListsOk, Apart, Labelled, Chained, SlotsBooked, BlocksBooked, UsesListed, Word;
  }

  lemma RootUnread(s: State)
    requires Sound(s)
    ensures Unread(s, BTREE_HDR_ROOTPTR_POS, 8)
  {
    hide Sound, SizeOf;
    forall p | p in s.book ensures BTREE_HDR_ROOTPTR_POS + 8 <= p { ChunksApart(s, p, p); }
    forall j: nat, k: nat | HasBlock(s.lists, j, k)
      ensures BTREE_HDR_ROOTPTR_POS + 8 <= Base(s.lists, j, k)
              || Base(s.lists, j, k) + 24 + 8 * Fill(s.lists, j, k) <= BTREE_HDR_ROOTPTR_POS
    {
      BlockPlace(s, j, k);
      SoundLists(s);
      FillBound(s.lists, j, k);
    }
  }

  /** A value pointer inside a node is replaced, in one step. */
  lemma CommitValue(s: State, k: Path, t: Tree, i: nat, v: nat)
    requires Sound(s) && Holds(s.img, k, t) && Occupies(PathFoot(k) + Foot(t), s.book) && i < |t.pairs| && v < 2 * POW63
    ensures t.off + VALUES_POS + 8 * i + 8 <= |s.img|
    ensures var (img, u) := (Patched(s.img, t.off + VALUES_POS + 8 * i, Big(v, 8)),
            t.(pairs := t.pairs[i := Pair(t.pairs[i].key, v)]));
            && Sound(s.(img := img)) && OthersKept(s, img, Start(t.off)) && Holds(img, k, u)
            && Word(img, BTREE_HDR_ROOTPTR_POS) == Word(s.img, BTREE_HDR_ROOTPTR_POS)
  {
    hide Sound, Word, Patched, Kept, StoredPath, PathFoot, NodeOn, OthersKept, Live, Occupies, Start, Hook;
    TreeDistinct(PathFoot(k), t, s.book);
    ValueRec(s, t, i, v);
    var (img, u) := (Patched(s.img, t.off + VALUES_POS + 8 * i, Big(v, 8)),
      t.(pairs := t.pairs[i := Pair(t.pairs[i].key, v)]));
    NodeWrite(s, t, -1, VALUES_POS + 8 * i, v);
    OthersAllKept(s, img, Start(t.off), PathFoot(k));
    StoredPathKept(s.img, img, k);
    forall m | m in t.kids ensures Stored(img, m) {
      OthersAllKept(s, img, Start(t.off), Foot(m));
      StoredKept(s.img, img, m);
    }
  }

  lemma ValueRec(s: State, t: Tree, i: nat, v: nat)
    requires Sound(s) && NodeOn(s.img, t, -1) && i < |t.pairs| && v < 2 * POW63 && Start(t.off) in Live(s.book)
    ensures i < BTREE_MAX_KEYS && t.off + VALUES_POS + 8 * i + 8 <= |s.img|
    ensures NodeOn(Patched(s.img, t.off + VALUES_POS + 8 * i, Big(v, 8)),
            t.(pairs := t.pairs[i := Pair(t.pairs[i].key, v)]), -1)
  {
    hide Sound, Word, Patched, RecAt, OthersKept;
    ValueWritten(s.img, t.off, i, v);
    NodeWrite(s, t, -1, VALUES_POS + 8 * i, v);
  }

  lemma TreeDistinct(foot: multiset<nat>, t: Tree, book: Book)
    requires Occupies(foot + Foot(t), book)
    ensures Start(t.off) in Live(book) && Start(t.off) !in foot && Occupies(foot, book)
    ensures forall m | m in t.kids :: Occupies(Foot(m), book) && Start(t.off) !in Foot(m)
  {
    hide PairsFoot, KidsFoot;
    var (p, all) := (Start(t.off), foot + Foot(t));
    assert p in all;
    Occupied(all, book, p);
    OccupiesLess(all, book, foot);
    FootIs(t);
    hide Foot;
    forall m | m in t.kids ensures Occupies(Foot(m), book) && p !in Foot(m) {
      var i :| 0 <= i < |t.kids| && t.kids[i] == m;
      KidsFootAt(t.kids, i);
      assert Foot(m) + multiset{p} <= all;
      OccupiesLess(all, book, Foot(m));
    }
  }
}
