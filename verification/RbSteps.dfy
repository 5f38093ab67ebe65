/** The facts that the red-black tree methods use step by step: the explicit stack of a path, what
    single writes do to the cells, where a descent leads, and what a cut or a repair leaves. */
module RbSteps {
  import opened Options
  import opened Words
  import opened SortedItems
  import opened RedBlack
  import opened RbStore
  import opened RbRepairs
  import opened RbUnlink

  const RB_MAX_HEIGHT := 128

  /** The stack of nodes and of directions that a path stands for. */
  function PaOf<V>(k: Ctx<V>): seq<Ptr> {
    if k.Top? then [HDR] else PaOf(k.up) + [k.p]
  }

  function DaOf<V>(k: Ctx<V>): seq<Dir> {
    if k.Top? then [Left] else DaOf(k.up) + [k.d]
  }

  ghost predicate Stack<V>(pa: seq<Ptr>, da: seq<Dir>, k: Ctx<V>) {
    pa == PaOf(k) && da == DaOf(k)
  }

  lemma {:induction false} StackTop<V>(k: Ctx<V>)
    ensures |PaOf(k)| == |DaOf(k)| == Depth(k) + 1
    ensures PaOf(k)[Depth(k)] == Hole(k) && DaOf(k)[Depth(k)] == HoleDir(k)
    ensures k.Frame? ==> PaOf(k)[..Depth(k)] == PaOf(k.up) && DaOf(k)[..Depth(k)] == DaOf(k.up)
  {
    if k.Frame? { StackTop(k.up); }
  }

  ghost predicate SameData<V>(st: Store<V>, st': Store<V>) {
    st'.mem.Keys == st.mem.Keys && forall r | r in st.mem :: st'.mem[r].data == st.mem[r].data
  }

  lemma {:induction false} PlugIsBin<V>(k: Ctx<V>, t: Tree<V>)
    requires t.Bin?
    ensures Plug(k, t).Bin?
  {
    if k.Frame? { PlugIsBin(k.up, Make(k.d, k.p, k.c, k.x, t, k.s)); }
  }

  /** Exactly these addresses are allocated. */
  ghost predicate Owns<V>(st: Store<V>, b: multiset<Ptr>) {
    forall r :: r in st.mem <==> r in b
  }

  /** The colour of the last node on the path. */
  lemma LastColour<V>(st: Store<V>, k: Ctx<V>, t: Tree<V>)
    requires State(st, k, t) && k.Frame?
    ensures st.IsRed(k.p) <==> k.c == Red
  {
    hide Rep;
    Unfold(st, k, t);
  }

  /** The colours the insertion loop looks at. */
  lemma TopColours<V>(st: Store<V>, k: Ctx<V>, t: Tree<V>)
    requires State(st, k, t) && k.Frame? && k.up.Frame?
    ensures st.Has(k.up.p) && st.Link(k.up.p, Other(k.up.d)) == Root(k.up.s)
    ensures st.IsRed(Root(k.up.s)) <==> !IsBlack(k.up.s)
  {
    hide Rep, Make, RepCtx;
    StepUp(st, k, t);
    var m := Make(k.d, k.p, k.c, k.x, t, k.s);
    Unfold(st, k.up, m);
    RepRoot(st, Root(k.up.s), k.up.s);
  }

  lemma StraightenShape<V>(k: Ctx<V>, t: Tree<V>)
    requires k.Frame? && k.up.Frame? && t.Bin?
    ensures Straighten(k, t).0.Frame? && Straighten(k, t).0.p == t.p
  {
  }

  lemma BlackAbove<V>(k: Ctx<V>, h: nat)
    requires CtxRb(k, h)
    ensures k.Frame? && k.c == Red ==> k.up.Frame? && Depth(k) >= 2
  {
    hide Rb;
  }

  /** The key is there: it is the one of the node reached. */
  lemma Present<V>(tree: Tree<V>, k: Ctx<V>, t: Tree<V>, x: Item<V>)
    requires Plug(k, t) == tree && Sorted(Inorder(tree)) && t.Bin? && x.key == t.x.key
    ensures Insert(Inorder(tree), x) == Inorder(tree) && Seek(Inorder(tree), x.key) == Some(t.x)
  {
    hide Plug, Insert, Seek, Sorted, Inorder, Before, After;
    PlugInorder(k, t);
    InorderKids(t, Left);
    SortedAround(Before(k), Inorder(t.l), t.x, Inorder(t.r), After(k));
    var a, b := Before(k) + Inorder(t.l), Inorder(t.r) + After(k);
    assert Inorder(tree) == a + [t.x] + b;
    InsertExisting(a, t.x, b, x);
    SeekAt(a, t.x, b);
  }

  /** The key is not there and belongs in the hole reached. */
  lemma Absent<V>(tree: Tree<V>, k: Ctx<V>, x: Item<V>, n: Ptr)
    requires Plug(k, Leaf) == tree && Sorted(Inorder(tree)) && AllBelow(Before(k), x.key) && AllAbove(After(k), x.key)
    ensures Insert(Inorder(tree), x) == Inorder(Plug(k, Bin(n, Red, Leaf, x, Leaf)))
    ensures Sorted(Insert(Inorder(tree), x)) && |Insert(Inorder(tree), x)| == |Inorder(tree)| + 1
    ensures Seek(Inorder(tree), x.key) == None && Seek(Insert(Inorder(tree), x), x.key) == Some(x)
  {
    hide Plug, Insert, Seek, Sorted, Inorder, Before, After, AllBelow, AllAbove;
    var u := Bin(n, Red, Leaf, x, Leaf);
    PlugInorder(k, Leaf);
    PlugInorder(k, u);
    SmallInorder(n, x);
    assert Inorder(tree) == Before(k) + After(k);
    InsertBetween(Before(k), x, After(k));
    SeekBetween(Before(k), After(k), x.key);
    SeekAt(Before(k), x, After(k));
    InsertSorted(Inorder(tree), x);
  }

  lemma SmallInorder<V>(n: Ptr, x: Item<V>)
    ensures Inorder<V>(Leaf) == [] && Inorder(Bin(n, Red, Leaf, x, Leaf)) == [x]
  {
  }

  lemma AbsentKey<V>(tree: Tree<V>, k: Ctx<V>, key: int)
    requires Plug(k, Leaf) == tree && AllBelow(Before(k), key) && AllAbove(After(k), key)
    ensures Seek(Inorder(tree), key) == None && Remove(Inorder(tree), key) == Inorder(tree)
  {
    hide Plug, Seek, Remove;
    PlugInorder(k, Leaf);
    assert Inorder(tree) == Before(k) + After(k);
    SeekBetween(Before(k), After(k), key);
    RemoveAbsent(Before(k), After(k), key);
  }

  /** Everything on the way down: the cells, the stack, the balance, and where the key belongs. */
  ghost predicate Descending<V>(st: Store<V>, pa: seq<Ptr>, da: seq<Dir>, k: Ctx<V>, t: Tree<V>, h: nat,
                                tree: Tree<V>, key: int) {
    && State(st, k, t) && Stack(pa, da, k) && Plug(k, t) == tree
    && CtxRb(k, h) && Rb(t, h) && (IsBlack(t) || (k.Frame? && k.c == Black))
    && AllBelow(Before(k), key) && AllAbove(After(k), key)
  }

  lemma StepTowards<V>(st: Store<V>, pa: seq<Ptr>, da: seq<Dir>, k: Ctx<V>, t: Tree<V>, h: nat,
                       tree: Tree<V>, key: int, d: Dir) returns (g: nat)
    requires Descending(st, pa, da, k, t, h, tree, key) && t.Bin? && Sorted(Inorder(tree))
    requires if d == Left then key < t.x.key else t.x.key < key
    ensures var k' := Frame(k, d, t.p, t.c, t.x, Kid(t, Other(d)));
            Descending(st, pa + [t.p], da + [d], k', Kid(t, d), g, tree, key)
  {
    hide State, CtxRb, Rb, Plug;
    StepDown(st, k, t, d);
    g := Descend(k, t, d, h);
    PlugInorder(k, t);
    SortedAround(Before(k), Inorder(t.l), t.x, Inorder(t.r), After(k));
  }

  /** The node under the hole. */
  lemma CellBelow<V>(st: Store<V>, k: Ctx<V>, t: Tree<V>)
    requires State(st, k, t) && Root(t) != NULL
    ensures t.Bin? && t.p in st.mem && t.p != HDR && st.mem[t.p].data == t.x && st.mem[t.p].color == t.c
  {
    hide Bag, CtxBag, RepCtx;
  }

  lemma DeletedCell<V>(st: Store<V>, k: Ctx<V>, t: Tree<V>)
    requires State(st, k, t) && t.Bin?
    ensures Is(st, t.p, t.c, t.x, Left, Root(t.l), Root(t.r)) && t.p != Hole(k)
  {
    hide Rep, Bag, CtxBag, RepCtx;
    RootsApart(st, st.Link(Hole(k), HoleDir(k)), t, Left, CtxBag(k));
    HoleOff(k, Bag(t));
    UncleInBag(t);
  }

  lemma LinkBelow<V>(st: Store<V>, k: Ctx<V>, t: Tree<V>)
    requires State(st, k, t)
    ensures st.Has(Hole(k)) && st.Link(Hole(k), HoleDir(k)) == Root(t)
  {
    hide Bag, CtxBag, RepCtx;
  }

  /** An empty hole. */
  lemma NoneBelow<V>(st: Store<V>, k: Ctx<V>, t: Tree<V>)
    requires State(st, k, t) && Root(t) == NULL
    ensures t == Leaf
  {
    hide Bag, CtxBag, RepCtx;
  }

  lemma RedLeaf<V>(n: Ptr, x: Item<V>, h: nat)
    requires Rb<V>(Leaf, h)
    ensures Rb(Bin(n, Red, Leaf, x, Leaf), h)
  {
  }

  lemma HoleInStore<V>(st: Store<V>, k: Ctx<V>, t: Tree<V>)
    requires State(st, k, t)
    ensures st.Has(Hole(k)) && (k.Frame? ==> k.p in st.mem && k.p != HDR)
  {
    hide Bag, CtxBag, Rep;
  }

  /** A child of the sibling is a node of its own. */
  lemma NephewApart<V>(st: Store<V>, k: Ctx<V>, t: Tree<V>, d: Dir)
    requires State(st, k, t) && k.Frame? && k.s.Bin? && Kid(k.s, d).Bin?
    ensures var y := Kid(k.s, d);
            && y.p != k.p && y.p != k.s.p && y.p != Hole(k.up)
            && y.p in st.mem && y.p != HDR && y.p != NULL
            && Is(st, y.p, y.c, y.x, k.d, Root(Kid(y, k.d)), Root(Kid(y, Other(k.d))))
  {
    hide Rep, Bag, RepCtx, Make, Kid, CtxBag;
    var y := Kid(k.s, d);
    SiblingPieces(st, k, t);
    UncleInBag(y);
    assert d == k.d || d == Other(k.d);
    SubApart(Bag(t) + Bag(Kid(k.s, k.d)) + Bag(Kid(k.s, Other(k.d))), multiset{} + Bag(y));
    RootsApart(st, y.p, y, k.d, multiset{});
  }

  /** What one link write does, cell by cell. */
  ghost predicate Relinked<V>(st: Store<V>, st': Store<V>, p: Ptr, d: Dir, q: Ptr) {
    && st'.mem.Keys == st.mem.Keys && st.Has(p) && st'.Link(p, d) == q
    && (forall r | r in st.mem && (r != p || p == HDR) :: st'.mem[r] == st.mem[r])
    && (p != HDR ==> st'.root == st.root && st'.Link(p, Other(d)) == st.Link(p, Other(d))
                     && st'.mem[p].color == st.mem[p].color && st'.mem[p].data == st.mem[p].data)
  }

  lemma LinkWritten<V>(st: Store<V>, p: Ptr, d: Dir, q: Ptr)
    requires st.Has(p)
    ensures Relinked(st, st.SetLink(p, d, q), p, d, q)
  {
  }

  lemma SameCell<V>(st: Store<V>, st': Store<V>, p: Ptr, d: Dir)
    requires p in st.mem && p in st'.mem && st'.mem[p] == st.mem[p] && p != HDR
    ensures st'.Link(p, d) == st.Link(p, d)
  {
  }

  /** `y`, in direction `d` of `x`, has risen over it and hangs in direction `e` of `q`. */
  ghost predicate Lifted<V>(st: Store<V>, st': Store<V>, x: Ptr, y: Ptr, d: Dir, q: Ptr, e: Dir) {
    && st'.mem.Keys == st.mem.Keys && {x, y} <= st.mem.Keys && x != HDR && y != HDR
    && Wrote(st, st', {x, y}, q, e) && st'.Has(q) && st'.Link(q, e) == y
    && Is(st', x, st.mem[x].color, st.mem[x].data, d, st.Link(y, Other(d)), st.Link(x, Other(d)))
    && Is(st', y, st.mem[y].color, st.mem[y].data, d, st.Link(y, d), x)
    && SameData(st, st')
  }

  lemma ThreeLinks<V>(st: Store<V>, s1: Store<V>, s2: Store<V>, s3: Store<V>,
                      x: Ptr, y: Ptr, d: Dir, q: Ptr, e: Dir)
    requires x in st.mem && y in st.mem && st.Has(q)
    requires q != x && q != y && x != y && x != HDR && y != HDR && x != NULL && y != NULL
    requires Relinked(st, s1, x, d, st.Link(y, Other(d)))
    requires Relinked(s1, s2, y, Other(d), x) && Relinked(s2, s3, q, e, y)
    ensures Lifted(st, s3, x, y, d, q, e)
  {
    hide Store.Link;
    SameCell(st, s1, y, d);
    SameCell(s1, s2, x, d);
    SameCell(s1, s2, x, Other(d));
    SameCell(s2, s3, x, d);
    SameCell(s2, s3, x, Other(d));
    SameCell(s2, s3, y, d);
    SameCell(s2, s3, y, Other(d));
    if q != HDR {
      SameCell(st, s1, q, Other(e));
      SameCell(s1, s2, q, Other(e));
    }
    assert Other(Other(d)) == d;
  }

  /** From `st` to `st'` only colours have changed, and only in the cells `ps`. */
  ghost predicate Coloured<V>(st: Store<V>, st': Store<V>, ps: set<Ptr>) {
    && st'.mem.Keys == st.mem.Keys && st'.root == st.root
    && (forall r | r in st.mem && r !in ps :: st'.mem[r] == st.mem[r])
    && (forall r | r in st.mem :: st'.mem[r] == st.mem[r].(color := st'.mem[r].color))
  }

  lemma ColourWritten<V>(st: Store<V>, p: Ptr, c: Color)
    requires p in st.mem
    ensures var st' := st.SetColor(p, c); Coloured(st, st', {p}) && st'.mem[p].color == c
  {
  }

  lemma ColouredTwice<V>(st: Store<V>, s1: Store<V>, s2: Store<V>, ps: set<Ptr>, qs: set<Ptr>)
    requires Coloured(st, s1, ps) && Coloured(s1, s2, qs)
    ensures Coloured(st, s2, ps + qs)
  {
  }

  lemma ColouredLink<V>(st: Store<V>, st': Store<V>, ps: set<Ptr>, p: Ptr, d: Dir)
    requires Coloured(st, st', ps) && st.Has(p)
    ensures st'.Has(p) && st'.Link(p, d) == st.Link(p, d)
  {
  }

  /** A repair colours some cells and then lifts a node over its parent. */
  lemma ColouredThenLifted<V>(st: Store<V>, s1: Store<V>, s2: Store<V>, ps: set<Ptr>,
                              x: Ptr, y: Ptr, d: Dir, q: Ptr, e: Dir)
    requires Coloured(st, s1, ps) && Lifted(s1, s2, x, y, d, q, e) && x in ps && y in ps && q !in ps
    ensures Wrote(st, s2, ps, q, e) && SameData(st, s2) && s2.Has(q) && s2.Link(q, e) == y
    ensures Is(s2, x, s1.mem[x].color, st.mem[x].data, Other(d), st.Link(x, Other(d)), st.Link(y, Other(d)))
    ensures Is(s2, y, s1.mem[y].color, st.mem[y].data, Other(d), x, st.Link(y, d))
    ensures Is(s2, x, s1.mem[x].color, st.mem[x].data, d, st.Link(y, Other(d)), st.Link(x, Other(d)))
    ensures Is(s2, y, s1.mem[y].color, st.mem[y].data, d, st.Link(y, d), x)
    ensures forall r | r in st.mem && r != x && r != y && r != q :: r in s2.mem && s2.mem[r] == s1.mem[r]
  {
    ColouredLink(st, s1, ps, x, d);
    ColouredLink(st, s1, ps, x, Other(d));
    ColouredLink(st, s1, ps, y, d);
    ColouredLink(st, s1, ps, y, Other(d));
    assert Other(Other(d)) == d;
    if q != HDR { ColouredLink(st, s1, ps, q, Other(e)); }
  }

  /** Where the deleted node `p` stood after it is cut out, and what its colour says. */
  ghost predicate Cut<V>(st: Store<V>, k: Ctx<V>, t: Tree<V>, h: nat, p: Ptr, b: multiset<Ptr>, s: seq<Item<V>>) {
    && State(st, k, t) && p in st.mem && All(k, t) + multiset{p} == b && Inorder(Plug(k, t)) == s
    && (if st.mem[p].color == Black then Short(k, t, h) else CtxRb(k, h) && Rb(t, h) && IsBlack(t))
  }

  /** The successor is at the end of the path `k`, which starts with the frame `base` of the
      deleted node. */
  ghost predicate Succeeding<V>(st: Store<V>, pa: seq<Ptr>, da: seq<Dir>, k: Ctx<V>, base: Ctx<V>, s: Tree<V>, h: nat) {
    && State(st, k, s) && Stack(pa, da, k) && base.Frame? && base.d == Right && Lefts(k, base) && s.Bin?
    && CtxRb(k, h) && Rb(s, h) && (IsBlack(s) || k.c == Black)
  }

  lemma {:induction false} PathOfRebase<V>(k: Ctx<V>, base: Ctx<V>, base': Ctx<V>)
    requires Lefts(k, base) && base.Frame? && base'.Frame? && base'.up == base.up && base'.d == base.d
    ensures Depth(base) <= Depth(k) && |PaOf(k)| == Depth(k) + 1 && |DaOf(k)| == Depth(k) + 1
    ensures DaOf(k)[Depth(base)] == base.d
    ensures PaOf(Rebase(k, base, base')) == PaOf(k)[Depth(base) := base'.p]
    ensures DaOf(Rebase(k, base, base')) == DaOf(k)
  {
    StackTop(k);
    StackTop(base);
    if k != base {
      PathOfRebase(k.up, base, base');
    }
  }

  /** One write among several: a link of a cell in `ps`, the link `e` of `q`, or colours in `ps`. */
  ghost predicate Step<V>(st: Store<V>, st': Store<V>, ps: set<Ptr>, q: Ptr, e: Dir) {
    st'.mem.Keys == st.mem.Keys && Wrote(st, st', ps, q, e)
  }

  lemma CellStep<V>(st: Store<V>, st': Store<V>, p: Ptr, d: Dir, x: Ptr, ps: set<Ptr>, q: Ptr, e: Dir)
    requires Relinked(st, st', p, d, x) && p in ps && p != HDR && q !in ps
    ensures Step(st, st', ps, q, e)
  {
    if q in st.mem { SameCell2(st, st', q, Other(e)); }
  }

  lemma SameCell2<V>(st: Store<V>, st': Store<V>, p: Ptr, d: Dir)
    requires p in st.mem && p in st'.mem && st'.mem[p] == st.mem[p] && st'.root == st.root
    ensures st'.Link(p, d) == st.Link(p, d)
  {
  }

  lemma HoleStep<V>(st: Store<V>, st': Store<V>, x: Ptr, ps: set<Ptr>, q: Ptr, e: Dir)
    requires Relinked(st, st', q, e, x) && q !in ps
    ensures Step(st, st', ps, q, e)
  {
  }

  lemma ColourStep<V>(st: Store<V>, st': Store<V>, cs: set<Ptr>, ps: set<Ptr>, q: Ptr, e: Dir)
    requires Coloured(st, st', cs) && cs <= ps && q !in ps
    ensures Step(st, st', ps, q, e)
  {
    if q in st.mem { ColouredLink(st, st', cs, q, Other(e)); }
  }

  lemma StepsJoin<V>(st: Store<V>, s1: Store<V>, s2: Store<V>, ps: set<Ptr>, q: Ptr, e: Dir)
    requires Step(st, s1, ps, q, e) && Step(s1, s2, ps, q, e)
    ensures Step(st, s2, ps, q, e)
  {
    hide Store.Link;
  }

  /** Writes to two cells and the far link of a third leave the cell `q` alone. */
  lemma WroteBelow<V>(st: Store<V>, st': Store<V>, x: Ptr, c: Color, data: Item<V>, d: Dir, w: Ptr, y: Ptr,
                      q: Ptr, e: Dir, near: Ptr)
    requires Wrote(st, st', {y} + {w}, x, Other(d)) && Is(st, x, c, data, d, near, w)
    requires st'.Has(x) && st'.Link(x, Other(d)) == y && st.Has(q) && q != x && q != w && q != y
    ensures Wrote(st, st', {x, w, y}, q, e) && st'.Has(q) && st'.Link(q, e) == st.Link(q, e)
    ensures Is(st', x, c, data, d, near, y)
  {
    assert Other(Other(d)) == d;
  }

  lemma ColouredHas<V>(st: Store<V>, st': Store<V>, ps: set<Ptr>, p: Ptr)
    requires Coloured(st, st', ps) && p in st.mem
    ensures p in st'.mem && (p !in ps ==> st'.mem[p].color == st.mem[p].color)
  {
  }

  lemma UncleCells<V>(st: Store<V>, k: Ctx<V>, t: Tree<V>)
    requires State(st, k, t) && k.Frame? && k.up.Frame? && k.up.s.Bin?
    ensures k.p in st.mem && k.up.p in st.mem && k.up.s.p in st.mem
  {
    hide Rep, Make, Bag, RepCtx, CtxBag;
    UnclePieces(st, k, t);
    StepUp(st, k, t);
    Unfold(st, k, t);
    Unfold(st, k.up, Make(k.d, k.p, k.c, k.x, t, k.s));
  }

  /** The three colours of a recolouring, against the tree they make. */
  lemma RecolorWrites<V>(st: Store<V>, s1: Store<V>, s2: Store<V>, st': Store<V>, k: Ctx<V>, t: Tree<V>)
    requires State(st, k, t) && k.Frame? && k.up.Frame? && k.up.s.Bin?
    requires Coloured(st, s1, {k.p}) && Coloured(s1, s2, {k.up.s.p}) && Coloured(s2, st', {k.up.p})
    requires k.p in s1.mem && s1.mem[k.p].color == Black
    requires k.up.s.p in s2.mem && s2.mem[k.up.s.p].color == Black
    requires k.up.p in st'.mem && st'.mem[k.up.p].color == Red
    ensures State(st', k.up.up, Recolor(k, t))
  {
    hide State, Rep, RepCtx, Bag, CtxBag, Make, Kid, Recolor, Wrote;
    var (y, u, x, q, e) := (k.p, k.up.s.p, k.up.p, Hole(k.up.up), HoleDir(k.up.up));
    UnclePieces(st, k, t);
    StepUp(st, k, t);
    Unfold(st, k, t);
    Unfold(st, k.up, Make(k.d, k.p, k.c, k.x, t, k.s));
    MakeRoot(k.d, k.p, k.c, k.x, t, k.s);
    ColouredTwice(st, s1, s2, {y}, {u});
    ColouredTwice(st, s2, st', {y} + {u}, {x});
    var ps := {y} + {u} + {x};
    assert ps == {y, x, u};
    ColourStep(st, st', ps, ps, q, e);
    ColouredLink(st, st', ps, q, e);
    ColouredLink(st, st', ps, y, k.d);
    ColouredLink(st, st', ps, y, Other(k.d));
    ColouredLink(st, st', ps, x, k.up.d);
    ColouredLink(st, st', ps, x, Other(k.up.d));
    RecolorDone(st, st', k, t);
  }

  lemma DirectWrites<V>(st: Store<V>, s1: Store<V>, s2: Store<V>, s3: Store<V>, p: Ptr, r: Ptr, l: Ptr, q: Ptr, e: Dir)
    requires p in st.mem && r in st.mem && q != p && q != r && p != r && r != HDR && r != NULL && st.Has(q)
    requires Relinked(st, s1, r, Left, l) && Coloured(s1, s2, {r} + {p}) && Relinked(s2, s3, q, e, r)
    ensures Step(st, s3, {p, r}, q, e) && s3.Has(q) && s3.Link(q, e) == r
    ensures Is(s3, r, s2.mem[r].color, st.mem[r].data, Left, l, st.Link(r, Right))
    ensures s3.mem[p].color == s2.mem[p].color
  {
    hide Store.Link, Wrote, Step;
    ColouredLink(s1, s2, {r} + {p}, r, Left);
    ColouredLink(s1, s2, {r} + {p}, r, Right);
    SameCell(s2, s3, r, Left);
    SameCell(s2, s3, r, Right);
    CellStep(st, s1, r, Left, l, {p, r}, q, e);
    ColourStep(s1, s2, {r} + {p}, {p, r}, q, e);
    HoleStep(s2, s3, r, {p, r}, q, e);
    StepsJoin(st, s1, s2, {p, r}, q, e);
    StepsJoin(st, s2, s3, {p, r}, q, e);
  }

  /** The five writes around a successor deeper down, in their order. */
  ghost predicate FiveWrites<V>(st: Store<V>, s1: Store<V>, s2: Store<V>, s3: Store<V>, s4: Store<V>, s5: Store<V>,
                                p: Ptr, s: Ptr, r: Ptr, q: Ptr, e: Dir) {
    && {p, s, r} <= st.mem.Keys && st.Has(q)
    && q != p && q != s && q != r && p != s && p != r && s != r
    && s != HDR && s != NULL && r != HDR && r != NULL && p != HDR
    && Relinked(st, s1, q, e, s) && Relinked(s1, s2, s, Left, st.Link(p, Left))
    && Relinked(s2, s3, r, Left, st.Link(s, Right)) && Relinked(s3, s4, s, Right, st.Link(p, Right))
    && Coloured(s4, s5, {s} + {p})
  }

  lemma FiveSteps<V>(st: Store<V>, s1: Store<V>, s2: Store<V>, s3: Store<V>, s4: Store<V>, s5: Store<V>,
                     p: Ptr, s: Ptr, r: Ptr, q: Ptr, e: Dir)
    requires FiveWrites(st, s1, s2, s3, s4, s5, p, s, r, q, e)
    ensures Step(st, s5, {p, s, r}, q, e)
  {
    hide Store.Link, Wrote, Step, Relinked, Coloured;
    var ps := {p, s, r};
    HoleStep(st, s1, s, ps, q, e);
    CellStep(s1, s2, s, Left, st.Link(p, Left), ps, q, e);
    CellStep(s2, s3, r, Left, st.Link(s, Right), ps, q, e);
    CellStep(s3, s4, s, Right, st.Link(p, Right), ps, q, e);
    ColourStep(s4, s5, {s} + {p}, ps, q, e);
    StepsJoin(st, s1, s2, ps, q, e);
    StepsJoin(st, s2, s3, ps, q, e);
    StepsJoin(st, s3, s4, ps, q, e);
    StepsJoin(st, s4, s5, ps, q, e);
  }

  lemma OtherLink<V>(st: Store<V>, st': Store<V>, q: Ptr, e: Dir, x: Ptr, p: Ptr, d: Dir)
    requires Relinked(st, st', q, e, x) && p in st.mem && p != HDR && (p != q || d == Other(e))
    ensures p in st'.mem && st.Has(p) && st'.Has(p) && st'.Link(p, d) == st.Link(p, d)
    ensures st'.mem.Keys == st.mem.Keys
  {
    if p != q { SameCell(st, st', p, d); }
  }

  lemma SuccessorCell<V>(st: Store<V>, s1: Store<V>, s2: Store<V>, s3: Store<V>, s4: Store<V>, s5: Store<V>,
                         p: Ptr, s: Ptr, r: Ptr, q: Ptr, e: Dir)
    requires FiveWrites(st, s1, s2, s3, s4, s5, p, s, r, q, e)
    ensures s in s5.mem && Is(s5, s, s5.mem[s].color, st.mem[s].data, Left, st.Link(p, Left), st.Link(p, Right))
  {
    hide Store.Link;
    SameCell(s2, s3, s, Left);
    ColouredLink(s4, s5, {s} + {p}, s, Left);
    ColouredLink(s4, s5, {s} + {p}, s, Right);
  }

  lemma ParentCell<V>(st: Store<V>, s1: Store<V>, s2: Store<V>, s3: Store<V>, s4: Store<V>, s5: Store<V>,
                      p: Ptr, s: Ptr, r: Ptr, q: Ptr, e: Dir)
    requires FiveWrites(st, s1, s2, s3, s4, s5, p, s, r, q, e)
    ensures r in s5.mem && Is(s5, r, st.mem[r].color, st.mem[r].data, Left, st.Link(s, Right), st.Link(r, Right))
  {
    hide Store.Link;
    SameCell(st, s1, r, Right);
    SameCell(s1, s2, r, Right);
    SameCell(s3, s4, r, Left);
    SameCell(s3, s4, r, Right);
    ColouredLink(s4, s5, {s} + {p}, r, Left);
    ColouredLink(s4, s5, {s} + {p}, r, Right);
  }

  /** The hole keeps its new link through the later writes. */
  lemma HoleThrough<V>(st: Store<V>, s1: Store<V>, s2: Store<V>, s3: Store<V>, s4: Store<V>, s5: Store<V>,
                       p: Ptr, s: Ptr, r: Ptr, q: Ptr, e: Dir)
    requires FiveWrites(st, s1, s2, s3, s4, s5, p, s, r, q, e)
    ensures s5.Has(q) && s5.Link(q, e) == s
    ensures p in s4.mem && s in s4.mem && s4.mem[p].color == st.mem[p].color && s4.mem[s].color == st.mem[s].color
  {
  }

  lemma LinkedHas<V>(st: Store<V>, s1: Store<V>, s2: Store<V>, r: Ptr, p: Ptr, q: Ptr)
    requires st.Has(q) && st.Has(p) && Relinked(st, s1, r, Left, st.Link(p, Left)) && Coloured(s1, s2, {r} + {p})
    ensures s2.Has(q)
  {
  }

  lemma DirectCells<V>(st: Store<V>, base: Ctx<V>, s: Tree<V>)
    requires State(st, base, s) && base.Frame? && base.d == Right && s.Bin?
    ensures st.Link(base.p, Left) == Root(base.s) && st.mem[s.p].data == s.x
  {
    hide Rep, Bag, RepCtx;
    Unfold(st, base, s);
    RepRoot(st, Root(s), s);
  }

  /** The balance after the successor has taken over. */
  lemma TakenRb<V>(k: Ctx<V>, base: Ctx<V>, s: Tree<V>, h: nat) returns (g: nat)
    requires base.Frame? && Lefts(k, base) && s.Bin? && s.l == Leaf && CtxRb(k, h) && Rb(s, h)
    ensures var n := Rebase(k, base, TakeOver(base, s));
            if s.c == Black then Short(n, s.r, g) else CtxRb(n, g) && Rb(s.r, g) && IsBlack(s.r)
  {
    hide Rb, CtxRb, Short, Rebase;
    RebaseRb(k, base, TakeOver(base, s), h);
    CutRb(Rebase(k, base, TakeOver(base, s)), s, s.r, h);
    g := if s.c == Black then h - 1 else h;
  }

  /** One step left towards the successor. */
  lemma StepLeft<V>(st: Store<V>, pa: seq<Ptr>, da: seq<Dir>, k: Ctx<V>, base: Ctx<V>, s: Tree<V>, h: nat)
                    returns (g: nat)
    requires Succeeding(st, pa, da, k, base, s, h)
    requires s.l.Bin?
    ensures var k' := Frame(k, Left, s.p, s.c, s.x, s.r);
            && Succeeding(st, pa + [s.p], da + [Left], k', base, s.l, g) && Plug(k', s.l) == Plug(k, s)
            && All(k', s.l) == All(k, s) && st.Has(s.p) && st.Link(s.p, Left) == s.l.p && st.Has(s.l.p) && s.l < s
  {
    hide State, CtxRb, Rb, Plug, Bag, CtxBag;
    StepDown(st, k, s, Left);
    g := Descend(k, s, Left, h);
    LeftBag(k, s);
    var k' := Frame(k, Left, s.p, s.c, s.x, s.r);
    LinkBelow(st, k', s.l);
    LeftOf(st, k', s.l);
  }

  lemma LeftBag<V>(k: Ctx<V>, s: Tree<V>)
    requires s.Bin?
    ensures All(Frame(k, Left, s.p, s.c, s.x, s.r), s.l) == All(k, s)
  {
  }

  /** What the loop to the successor reads of the node it looks at. */
  lemma LeftOf<V>(st: Store<V>, k: Ctx<V>, s: Tree<V>)
    requires State(st, k, s) && s.Bin?
    ensures s.p in st.mem && s.p != HDR && s.p != NULL && st.Link(s.p, Left) == Root(s.l)
            && (Root(s.l) == NULL <==> s.l == Leaf)
    ensures st.Link(s.p, Right) == Root(s.r) && (Root(s.r) == NULL <==> s.r == Leaf)
  {
    hide Bag, CtxBag, RepCtx, Rep;
    DeletedCell(st, k, s);
    RepKids(st, st.Link(Hole(k), HoleDir(k)), s, Left);
    RepRoot(st, st.Link(s.p, Left), s.l);
    RepRoot(st, st.Link(s.p, Right), s.r);
  }

  lemma TakeOverDone<V>(st: Store<V>, s1: Store<V>, s2: Store<V>, s3: Store<V>, s4: Store<V>, s5: Store<V>,
                        k: Ctx<V>, base: Ctx<V>, s: Tree<V>)
    requires State(st, k, s) && AtSuccessor(k, base, s) && k != base
    requires FiveWrites(st, s1, s2, s3, s4, s5, base.p, s.p, k.p, Hole(base.up), HoleDir(base.up))
    requires s5.mem[s.p].color == s4.mem[base.p].color && s5.mem[base.p].color == s4.mem[s.p].color
    ensures State(s5, Rebase(k, base, TakeOver(base, s)), s.r)
    ensures base.p in s5.mem && s5.mem[base.p].color == s.c && s5.mem.Keys == st.mem.Keys
  {
    hide State, Wrote, Relinked, Coloured, FiveWrites, Is, Rebase;
    var (p, q, e) := (base.p, Hole(base.up), HoleDir(base.up));
    SuccessorCells(st, k, base, s);
    FiveSteps(st, s1, s2, s3, s4, s5, p, s.p, k.p, q, e);
    SuccessorCell(st, s1, s2, s3, s4, s5, p, s.p, k.p, q, e);
    ParentCell(st, s1, s2, s3, s4, s5, p, s.p, k.p, q, e);
    HoleThrough(st, s1, s2, s3, s4, s5, p, s.p, k.p, q, e);
    SuccessorDone(st, s5, k, base, s);
  }

  /** The first step towards the successor. */
  lemma StepRight<V>(st: Store<V>, pa: seq<Ptr>, da: seq<Dir>, k: Ctx<V>, t: Tree<V>, h: nat) returns (g: nat)
    requires State(st, k, t) && Stack(pa, da, k) && t.Bin? && t.r.Bin?
    requires CtxRb(k, h) && Rb(t, h) && (IsBlack(t) || (k.Frame? && k.c == Black))
    ensures var base := Frame(k, Right, t.p, t.c, t.x, t.l);
            && Succeeding(st, pa + [t.p], da + [Right], base, base, t.r, g)
            && Plug(base, t.r) == Plug(k, t) && All(base, t.r) == All(k, t)
  {
    hide State, CtxRb, Rb, Plug, Bag, CtxBag;
    StepDown(st, k, t, Right);
    g := Descend(k, t, Right, h);
    RightBag(k, t);
  }

  lemma RightBag<V>(k: Ctx<V>, s: Tree<V>)
    requires s.Bin?
    ensures All(Frame(k, Right, s.p, s.c, s.x, s.l), s.r) == All(k, s)
  {
  }

  /** The nodes are the same with the same items, but for some new ones and some freed ones. */
  ghost predicate Stay<V>(st: Store<V>, st': Store<V>, added: set<Ptr>) {
    forall r | r in st'.mem && r !in added :: r in st.mem && st'.mem[r].data == st.mem[r].data
  }

  lemma RelinkedData<V>(st: Store<V>, st': Store<V>, p: Ptr, d: Dir, q: Ptr)
    requires Relinked(st, st', p, d, q)
    ensures SameData(st, st')
  {
  }

  lemma FiveData<V>(st: Store<V>, s1: Store<V>, s2: Store<V>, s3: Store<V>, s4: Store<V>, s5: Store<V>,
                    p: Ptr, s: Ptr, r: Ptr, q: Ptr, e: Dir)
    requires FiveWrites(st, s1, s2, s3, s4, s5, p, s, r, q, e)
    ensures SameData(st, s5)
  {
    hide Relinked, Coloured, SameData, Store.Link;
    RelinkedData(st, s1, q, e, s);
    RelinkedData(s1, s2, s, Left, st.Link(p, Left));
    RelinkedData(s2, s3, r, Left, st.Link(s, Right));
    RelinkedData(s3, s4, s, Right, st.Link(p, Right));
    ColouredData(s4, s5, {s} + {p});
    SameChain(st, s1, s2);
    SameChain(st, s2, s3);
    SameChain(st, s3, s4);
    SameChain(st, s4, s5);
  }

  /** The nodes stay where they are when one is freed. */
  lemma FreedStay<V>(st: Store<V>, s1: Store<V>, p: Ptr)
    requires SameData(st, s1)
    ensures Stay(st, s1.(mem := s1.mem - {p}), {})
  {
  }

  /** They stay when one is added. */
  lemma PlantedStay<V>(st: Store<V>, s1: Store<V>, s2: Store<V>, n: Ptr)
    requires Stay(st, s1, {n}) && SameData(s1, s2)
    ensures Stay(st, s2, {n})
  {
  }

  lemma SameAgain<V>(st: Store<V>)
    ensures SameData(st, st)
  {
  }

  lemma SameChain<V>(st: Store<V>, s1: Store<V>, s2: Store<V>)
    requires SameData(st, s1) && SameData(s1, s2)
    ensures SameData(st, s2)
  {
  }

  lemma StackOf<V>(pa: seq<Ptr>, da: seq<Dir>, k: Ctx<V>)
    requires Stack(pa, da, k)
    ensures |pa| == |da| >= 1 && pa[|pa| - 1] == Hole(k) && da[|pa| - 1] == HoleDir(k)
    ensures |pa| < 2 <==> k.Top?
    ensures k.Frame? ==> var n := |pa| - 1;
            Stack(pa[..n], da[..n], k.up) && pa[n - 1] == Hole(k.up) && da[n - 1] == HoleDir(k.up)
  {
    StackTop(k);
    if k.Frame? { StackTop(k.up); }
  }

  lemma StackTwo<V>(pa: seq<Ptr>, da: seq<Dir>, k: Ctx<V>)
    requires Stack(pa, da, k) && |pa| >= 3
    ensures |pa| == |da| == Depth(k) + 1 && k.Frame? && k.up.Frame?
    ensures pa[|pa| - 1] == k.p && da[|pa| - 1] == k.d && pa[|pa| - 2] == k.up.p && da[|pa| - 2] == k.up.d
    ensures Stack(pa[..|pa| - 2], da[..|pa| - 2], k.up.up)
  {
    StackTop(k);
    StackTop(k.up);
    StackTop(k.up.up);
  }

  lemma DepthOf<V>(pa: seq<Ptr>, da: seq<Dir>, k: Ctx<V>)
    requires Stack(pa, da, k)
    ensures |pa| == |da| == Depth(k) + 1
    ensures k.Frame? ==> pa[|pa| - 1] == k.p
  {
    StackTop(k);
  }

  lemma HoleLink<V>(st: Store<V>, k: Ctx<V>, t: Tree<V>)
    requires State(st, k, t)
    ensures st.Has(Hole(k)) && st.Link(Hole(k), HoleDir(k)) == Root(t)
    ensures st.IsRed(Root(t)) <==> !IsBlack(t)
  {
    hide Bag, CtxBag, RepCtx, Rep;
    RepRoot(st, st.Link(Hole(k), HoleDir(k)), t);
  }

  lemma ColouredData<V>(st: Store<V>, st': Store<V>, ps: set<Ptr>)
    requires Coloured(st, st', ps)
    ensures SameData(st, st')
  {
  }

  lemma TopShort<V>(t: Tree<V>, h: nat)
    requires Short(Top, t, h) && IsBlack(t)
    ensures CtxRb<V>(Top, h) && Rb(t, h)
  {
  }

  /** A short subtree with a red root is mended by painting it. */
  lemma ShortPainted<V>(st: Store<V>, st': Store<V>, k: Ctx<V>, t: Tree<V>, h: nat)
    requires State(st, k, t) && Short(k, t, h) && !IsBlack(t)
    requires Coloured(st, st', {t.p}) && t.p in st.mem && st'.mem[t.p].color == Black
    ensures State(st', k, Paint(t, Black)) && CtxRb(k, h + 1) && Rb(Paint(t, Black), h + 1)
    ensures Inorder(Plug(k, Paint(t, Black))) == Inorder(Plug(k, t)) && All(k, Paint(t, Black)) == All(k, t)
  {
    hide Rep, Bag, CtxBag, RepCtx, Plug, Rb, CtxRb, Inorder;
    LinkBelow(st, k, t);
    DeletedCell(st, k, t);
    RepRoot(st, Root(t), t);
    PaintedBag(t);
    UncleInBag(t);
    Repainted(st, st', t, Black, CtxBag(k));
    PlugInorder(k, t);
    PlugInorder(k, Paint(t, Black));
    ColourStep(st, st', {t.p}, {t.p}, Hole(k), HoleDir(k));
    ColouredLink(st, st', {t.p}, Hole(k), HoleDir(k));
    Close(st, st', k, t, Paint(t, Black), {t.p});
  }

  lemma PaintedBag<V>(t: Tree<V>)
    ensures Bag(Paint(t, Black)) == Bag(t) && Inorder(Paint(t, Black)) == Inorder(t)
  {
  }

  /** What the repair reads of the sibling. */
  lemma SiblingCells<V>(st: Store<V>, k: Ctx<V>, t: Tree<V>)
    requires State(st, k, t) && k.Frame? && k.s.Bin?
    ensures k.p in st.mem && st.Has(k.p) && st.Link(k.p, Other(k.d)) == k.s.p && st.Has(k.s.p) && k.s.p in st.mem
    ensures st.IsRed(k.s.p) <==> k.s.c == Red
    ensures st.IsRed(st.Link(k.s.p, Left)) <==> !IsBlack(k.s.l)
    ensures st.IsRed(st.Link(k.s.p, Right)) <==> !IsBlack(k.s.r)
  {
    hide Rep, Bag, RepCtx, CtxBag;
    Unfold(st, k, t);
    RepKids(st, Root(k.s), k.s, Left);
    RepRoot(st, st.Link(k.s.p, Left), k.s.l);
    RepRoot(st, st.Link(k.s.p, Right), k.s.r);
  }

  lemma PassUpAll<V>(k: Ctx<V>, t: Tree<V>)
    requires k.Frame?
    ensures All(k.up, PassUp(k, t)) == All(k, t)
  {
    hide Bag;
    BagMake(k.d, k.p, k.c, k.x, t, Paint(k.s, Red));
    RedBag(k.s);
  }

  lemma RedBag<V>(t: Tree<V>)
    ensures Bag(Paint(t, Red)) == Bag(t)
  {
  }

  lemma KidsBag<V>(t: Tree<V>, d: Dir)
    requires t.Bin?
    ensures Bag(t) == multiset{t.p} + Bag(Kid(t, d)) + Bag(Kid(t, Other(d)))
  {
  }

  lemma FrameAll<V>(k: Ctx<V>, t: Tree<V>)
    requires k.Frame?
    ensures All(k, t) == CtxBag(k.up) + multiset{k.p} + Bag(k.s) + Bag(t)
  {
    hide Bag;
  }

  lemma RaiseAll<V>(k: Ctx<V>, t: Tree<V>)
    requires k.Frame? && k.s.Bin?
    ensures All(RaiseSibling(k), t) == All(k, t)
  {
    hide Bag, CtxBag, All, Kid;
    var n := RaiseSibling(k);
    FrameAll(k, t);
    FrameAll(n, t);
    FrameAll(n.up, t);
    assert CtxBag(n.up) + Bag(t) == All(n.up, t) by { AllIs(n.up, t); }
    KidsBag(k.s, k.d);
    RaiseSum(CtxBag(k.up), multiset{k.p}, multiset{k.s.p}, Bag(Kid(k.s, k.d)), Bag(Kid(k.s, Other(k.d))), Bag(t),
      CtxBag(n.up));
  }

  lemma AllIs<V>(k: Ctx<V>, t: Tree<V>)
    ensures All(k, t) == CtxBag(k) + Bag(t)
  {
  }

  lemma RaiseSum(u: multiset<Ptr>, x: multiset<Ptr>, w: multiset<Ptr>, a: multiset<Ptr>, b: multiset<Ptr>,
                 t: multiset<Ptr>, n: multiset<Ptr>)
    requires n + t == u + w + b + t
    ensures n + x + a + t == u + x + (w + a + b) + t
  {
    assert n + x + a + t == (n + t) + x + a;
  }

  lemma TurnAll<V>(k: Ctx<V>, t: Tree<V>)
    requires k.Frame? && k.s.Bin? && Kid(k.s, k.d).Bin?
    ensures All(k.(s := TurnSibling(k)), t) == All(k, t)
  {
    hide Bag, CtxBag, All, Kid, Make;
    var (d, e, w) := (k.d, Other(k.d), k.s);
    var y := Kid(w, d);
    FrameAll(k, t);
    FrameAll(k.(s := TurnSibling(k)), t);
    KidsBag(w, d);
    KidsBag(y, d);
    BagMake(d, w.p, Red, w.x, Kid(y, e), Kid(w, e));
    BagMake(d, y.p, Black, y.x, Kid(y, d), Make(d, w.p, Red, w.x, Kid(y, e), Kid(w, e)));
    assert multiset{y.p} + Bag(Kid(y, d)) + (multiset{w.p} + Bag(Kid(y, e)) + Bag(Kid(w, e))) == Bag(w);
  }

  lemma SettleAll<V>(k: Ctx<V>, t: Tree<V>)
    requires k.Frame? && k.s.Bin?
    ensures All(k.up, Settle(k, t)) == All(k, t)
  {
    hide Bag, CtxBag, All, Kid, Make;
    var (d, e, w) := (k.d, Other(k.d), k.s);
    FrameAll(k, t);
    AllIs(k.up, Settle(k, t));
    KidsBag(w, d);
    BlackBag(Kid(w, e));
    BagMake(d, k.p, Black, k.x, t, Kid(w, d));
    BagMake(d, w.p, k.c, w.x, Make(d, k.p, Black, k.x, t, Kid(w, d)), Paint(Kid(w, e), Black));
    var m := multiset{w.p} + (multiset{k.p} + Bag(t) + Bag(Kid(w, d))) + Bag(Kid(w, e));
    assert m == multiset{k.p} + Bag(w) + Bag(t);
    assert CtxBag(k.up) + m == CtxBag(k.up) + multiset{k.p} + Bag(w) + Bag(t);
  }

  lemma RaiseStack<V>(pa: seq<Ptr>, da: seq<Dir>, k: Ctx<V>)
    requires Stack(pa, da, k) && k.Frame? && k.s.Bin?
    ensures |pa| == |da| >= 1
    ensures var n := |pa| - 1; Stack(pa[..n] + [k.s.p] + [k.p], da[..n] + [k.d] + [k.d], RaiseSibling(k))
  {
    StackTop(k);
  }

  lemma RecolorAll<V>(k: Ctx<V>, t: Tree<V>)
    requires k.Frame? && k.up.Frame?
    ensures All(k.up.up, Recolor(k, t)) == All(k, t)
  {
    hide Bag, CtxBag, All, Make;
    FrameAll(k, t);
    FrameAll(k.up, t);
    AllIs(k.up, t);
    AllIs(k.up.up, Recolor(k, t));
    BlackBag(k.up.s);
    BagMake(k.d, k.p, Black, k.x, t, k.s);
    BagMake(k.up.d, k.up.p, Red, k.up.x, Make(k.d, k.p, Black, k.x, t, k.s), Paint(k.up.s, Black));
    TwoFrames(CtxBag(k.up.up), CtxBag(k.up), multiset{k.up.p}, Bag(k.up.s), multiset{k.p}, Bag(k.s), Bag(t));
  }

  lemma TwoFrames(u: multiset<Ptr>, v: multiset<Ptr>, y: multiset<Ptr>, b: multiset<Ptr>,
                  x: multiset<Ptr>, a: multiset<Ptr>, t: multiset<Ptr>)
    requires v + t == u + y + b + t
    ensures u + (y + (x + t + a) + b) == v + x + a + t
    ensures u + (x + t + (y + a + b)) == v + x + a + t
  {
    assert v + x + a + t == (v + t) + x + a;
  }

  lemma RotateOuterAll<V>(k: Ctx<V>, t: Tree<V>)
    requires k.Frame? && k.up.Frame?
    ensures All(k.up.up, RotateOuter(k, t)) == All(k, t)
  {
    hide Bag, CtxBag, All, Make;
    FrameAll(k, t);
    FrameAll(k.up, t);
    AllIs(k.up, t);
    AllIs(k.up.up, RotateOuter(k, t));
    BagMake(k.d, k.up.p, Red, k.up.x, k.s, k.up.s);
    BagMake(k.d, k.p, Black, k.x, t, Make(k.d, k.up.p, Red, k.up.x, k.s, k.up.s));
    TwoFrames(CtxBag(k.up.up), CtxBag(k.up), multiset{k.up.p}, Bag(k.up.s), multiset{k.p}, Bag(k.s), Bag(t));
  }

  lemma StraightenAll<V>(k: Ctx<V>, t: Tree<V>)
    requires k.Frame? && t.Bin?
    ensures var (n, u) := Straighten(k, t); All(n, u) == All(k, t)
  {
    hide Bag, CtxBag, All, Make, Kid;
    var (n, u) := Straighten(k, t);
    FrameAll(k, t);
    FrameAll(n, u);
    KidsBag(t, Other(k.d));
    BagMake(Other(k.d), k.p, k.c, k.x, k.s, Kid(t, Other(k.d)));
    assert Other(Other(k.d)) == k.d;
  }

  lemma OwnsPlanted<V>(st: Store<V>, s1: Store<V>, s2: Store<V>, t: Tree<V>, t': Tree<V>, k: Ctx<V>, n: Ptr, x: Item<V>)
    requires Owns(st, Bag(t)) && Plug(k, Leaf) == t && s1.mem.Keys == st.mem.Keys + {n} && s2.mem.Keys == s1.mem.Keys
    requires Bag(t') == All(k, Bin(n, Red, Leaf, x, Leaf))
    ensures Owns(s2, Bag(t'))
  {
    hide Plug, Bag, CtxBag, All;
    PlugAll(k, Leaf);
    AllIs(k, Leaf);
    AllIs(k, Bin(n, Red, Leaf, x, Leaf));
    LeafBag(n, x);
    assert CtxBag(k) + multiset{} == CtxBag(k);
    assert Bag(t') == Bag(t) + multiset{n};
  }

  /** Freeing a node that is not in the tree. */
  lemma Freed<V>(st: Store<V>, t: Tree<V>, p: Ptr, b: multiset<Ptr>)
    requires State(st, Top, t) && Owns(st, b) && Bag(t) + multiset{p} == b && b[p] == 1
    ensures State(st.(mem := st.mem - {p}), Top, t) && Owns(st.(mem := st.mem - {p}), Bag(t))
  {
    hide Rep;
    assert b[p] == Bag(t)[p] + 1;
    RepFrame(st, st.(mem := st.mem - {p}), st.root, t);
    forall r ensures r in st.mem - {p} <==> r in Bag(t) {
      if r != p { assert b[r] == Bag(t)[r]; }
    }
  }

  lemma SameKeys<V>(st: Store<V>, st': Store<V>)
    requires SameData(st, st')
    ensures st'.mem.Keys == st.mem.Keys
  {
  }

  /** The tree once the deleted node is freed. */
  lemma FreedTree<V>(st: Store<V>, st': Store<V>, k: Ctx<V>, t: Tree<V>, h: nat, p: Ptr, k0: Ctx<V>, t0: Tree<V>)
    returns (tree: Tree<V>)
    requires State(st, k0, t0) && Owns(st, Bag(Plug(k0, t0))) && st'.mem.Keys == st.mem.Keys
    requires State(st', k, t) && CtxRb(k, h) && Rb(t, h) && (IsBlack(t) || (k.Frame? && k.c == Black))
    requires All(k, t) + multiset{p} == All(k0, t0)
    ensures tree == Plug(k, t) && Balanced(tree)
    ensures var freed := st'.(mem := st'.mem - {p}); State(freed, Top, tree) && Owns(freed, Bag(tree))
  {
    hide Rep, Bag, CtxBag, RepCtx, Plug, CtxRb, Rb, IsBlack;
    tree := Plug(k, t);
    BalancedPlug(k, t, h);
    Climb(st', k, t);
    PlugAll(k, t);
    PlugAll(k0, t0);
    assert p in All(k0, t0);
    Freed(st', tree, p, All(k0, t0));
  }

  lemma BalancedPlug<V>(k: Ctx<V>, t: Tree<V>, h: nat)
    requires CtxRb(k, h) && Rb(t, h) && (IsBlack(t) || (k.Frame? && k.c == Black))
    ensures Balanced(Plug(k, t))
  {
    hide CtxRb, Rb, Plug, IsBlack;
    var g := PlugRb(k, t, h);
  }

  lemma HeightFits<V>(tree: Tree<V>)
    requires Balanced(tree)
    ensures |Inorder(tree)| < LONG_MAX ==> Height(tree) <= 124
  {
    hide Height, Inorder, Balanced;
    if |Inorder(tree)| < LONG_MAX { PathsFit(Top, tree); }
  }

  lemma StackBelow<V>(pa: seq<Ptr>, da: seq<Dir>, k: Ctx<V>, t: Tree<V>)
    requires Stack(pa, da, k)
    ensures |pa| <= Height(Plug(k, t)) + 1
  {
    hide Plug, Height;
    DepthBound(k, t);
    StackTop(k);
  }

  /** The stack on the way down stays within its arrays. */
  lemma StackFits<V>(tree: Tree<V>, pa: seq<Ptr>, da: seq<Dir>, k: Ctx<V>, t: Tree<V>)
    requires Stack(pa, da, k) && Plug(k, t) == tree && Balanced(tree)
    ensures |Inorder(tree)| < LONG_MAX ==> |pa| + Height(t) <= 125
  {
    hide Plug, Height, Inorder, Balanced;
    if |Inorder(tree)| < LONG_MAX { PathsFit(k, t); }
    StackTop(k);
  }

  lemma TurnRoot<V>(k: Ctx<V>)
    requires k.Frame? && k.s.Bin? && Kid(k.s, k.d).Bin?
    ensures TurnSibling(k).Bin? && TurnSibling(k).p == Kid(k.s, k.d).p
  {
  }

  lemma SettleRoot<V>(k: Ctx<V>, t: Tree<V>)
    requires k.Frame? && k.s.Bin?
    ensures Settle(k, t).Bin?
  {
  }

  lemma BlackBag<V>(t: Tree<V>)
    ensures Bag(Paint(t, Black)) == Bag(t)
  {
  }

  lemma LeftOfSucceeding<V>(st: Store<V>, pa: seq<Ptr>, da: seq<Dir>, k: Ctx<V>, base: Ctx<V>, s: Tree<V>, h: nat)
    requires Succeeding(st, pa, da, k, base, s, h)
    ensures s.Bin? && s.p in st.mem && st.Has(s.p) && st.Link(s.p, Left) == Root(s.l)
            && (Root(s.l) == NULL <==> s.l == Leaf)
  {
    hide State, CtxRb, Rb, Stack, Lefts;
    LeftOf(st, k, s);
  }

  lemma Arrived<V>(st: Store<V>, pa: seq<Ptr>, da: seq<Dir>, k: Ctx<V>, base: Ctx<V>, s: Tree<V>, h: nat, pa0: seq<Ptr>)
    requires Succeeding(st, pa, da, k, base, s, h) && s.l == Leaf && pa0 == PaOf(base.up) && |pa| > |pa0| + 1
    ensures State(st, k, s) && AtSuccessor(k, base, s) && k != base && CtxRb(k, h) && Rb(s, h) && Stack(pa, da, k)
  {
    hide State, CtxRb, Rb;
  }

  lemma PathOfSucceeding<V>(pa: seq<Ptr>, da: seq<Dir>, k: Ctx<V>, base: Ctx<V>, s: Tree<V>, pa0: seq<Ptr>)
    requires Stack(pa, da, k) && base.Frame? && base.d == Right && Lefts(k, base) && s.Bin? && pa0 == PaOf(base.up)
    ensures |pa0| < |pa| && |pa0| < |da|
            && Stack(pa[|pa0| := s.p], da[|pa0| := Right], Rebase(k, base, TakeOver(base, s)))
  {
    hide Rebase, Lefts;
    PathOfRebase(k, base, TakeOver(base, s));
    StackTop(base.up);
  }

  /** The cells around a successor that is not a child of the deleted node. */
  lemma SuccessorCells<V>(st: Store<V>, k: Ctx<V>, base: Ctx<V>, s: Tree<V>)
    requires State(st, k, s) && AtSuccessor(k, base, s) && k != base
    ensures base.p in st.mem && base.p != HDR && k.p in st.mem && s.p in st.mem && st.Has(Hole(base.up))
    ensures k.p != NULL && s.p != NULL && s.p != HDR && k.p != HDR
    ensures base.p != s.p && base.p != k.p && s.p != k.p
    ensures Hole(base.up) != base.p && Hole(base.up) != s.p && Hole(base.up) != k.p
    ensures st.Link(base.p, Left) == Root(base.s) && st.mem[base.p].color == base.c
    ensures st.Link(s.p, Right) == Root(s.r) && st.mem[s.p].data == s.x && st.mem[s.p].color == s.c
    ensures st.Link(k.p, Right) == Root(k.s) && st.mem[k.p].data == k.x && st.mem[k.p].color == k.c
  {
    hide Rep, Bag, CtxBag, MidBag;
    SuccessorBag(k, base, s);
    OffMid(k, base, s);
    PathPrefix(st, k, base);
    Unfold(st, k, s);
    LeftOf(st, k, s);
    RepRoot(st, st.Link(base.p, Left), base.s);
    RepRoot(st, Root(s), s);
  }
}
