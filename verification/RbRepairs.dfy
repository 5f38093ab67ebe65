/** The pointer writes of each repair, src/tree/rbtree.c:130-190 and 286-381, against the tree
    they are meant to build.  `d` is the direction of the source's branch, so each lemma covers a
    branch and its mirror image. */
module RbRepairs {
  import opened SortedItems
  import opened RedBlack
  import opened RbStore

  /** The contents of one cell. */
  ghost predicate Is<V>(st: Store<V>, p: Ptr, c: Color, x: Item<V>, d: Dir, near: Ptr, far: Ptr) {
    && p in st.mem && p != NULL && p != HDR
    && st.mem[p].color == c && st.mem[p].data == x
    && st.Link(p, d) == near && st.Link(p, Other(d)) == far
  }

  /** From `st` to `st'` only the cells `ps` and link `e` of cell `q` have changed. */
  ghost predicate Wrote<V>(st: Store<V>, st': Store<V>, ps: set<Ptr>, q: Ptr, e: Dir) {
    && q !in ps
    && (forall p | p in st.mem && p !in ps && p != q :: p in st'.mem && st'.mem[p] == st.mem[p])
    && (q != HDR ==>
          && st'.root == st.root
          && (q in st.mem ==>
                && q in st'.mem && st'.mem[q].color == st.mem[q].color && st'.mem[q].data == st.mem[q].data
                && st'.Link(q, Other(e)) == st.Link(q, Other(e))))
  }

  /** What a state says about the cells of its last frame. */
  lemma Unfold<V>(st: Store<V>, k: Ctx<V>, t: Tree<V>)
    requires State(st, k, t) && k.Frame?
    ensures Is(st, k.p, k.c, k.x, k.d, Root(t), Root(k.s))
    ensures Rep(st, Root(t), t) && Rep(st, Root(k.s), k.s) && RepCtx(st, k.up)
    ensures st.Has(Hole(k.up)) && st.Link(Hole(k.up), HoleDir(k.up)) == k.p
  {
    hide Rep;
    RepRoot(st, st.Link(k.p, k.d), t);
    RepRoot(st, st.Link(k.p, Other(k.d)), k.s);
  }

  lemma StepUp<V>(st: Store<V>, k: Ctx<V>, t: Tree<V>)
    requires State(st, k, t) && k.Frame?
    ensures State(st, k.up, Make(k.d, k.p, k.c, k.x, t, k.s))
  {
    hide Rep, Make, Bag, RepCtx;
    Unfold(st, k, t);
    RepMake(st, k.d, k.p, k.c, k.x, t, k.s);
    BagMake(k.d, k.p, k.c, k.x, t, k.s);
    assert CtxBag(k) + Bag(t) == CtxBag(k.up) + (multiset{k.p} + Bag(t) + Bag(k.s));
  }

  lemma StepDown<V>(st: Store<V>, k: Ctx<V>, t: Tree<V>, d: Dir)
    requires State(st, k, t) && t.Bin?
    ensures State(st, Frame(k, d, t.p, t.c, t.x, Kid(t, Other(d))), Kid(t, d))
  {
    hide Rep, Kid, Bag;
    RepKids(st, st.Link(Hole(k), HoleDir(k)), t, d);
    var n := Frame(k, d, t.p, t.c, t.x, Kid(t, Other(d)));
    assert CtxBag(k) + Bag(t) == CtxBag(n) + Bag(Kid(t, d));
  }

  /** Addresses in the parts of a duplicate-free bag differ. */
  lemma Distinct(a: multiset<Ptr>, b: multiset<Ptr>, p: Ptr)
    requires Apart(a + b) && p in b
    ensures p !in a && p != HDR && p != NULL
  {
    assert (a + b)[p] == a[p] + b[p];
  }

  /** Subtrees away from the writes survive them. */
  lemma Survives<V>(st: Store<V>, st': Store<V>, ps: set<Ptr>, q: Ptr, e: Dir, p: Ptr, t: Tree<V>)
    requires Wrote(st, st', ps, q, e) && Rep(st, p, t)
    requires q !in Bag(t) && forall r | r in ps :: r !in Bag(t)
    ensures Rep(st', p, t)
  {
    RepFrame(st, st', p, t);
  }

  /** Close a repair: the path above the hole is untouched and the new subtree is in place. */
  lemma Close<V>(st: Store<V>, st': Store<V>, k: Ctx<V>, t: Tree<V>, n: Tree<V>, ps: set<Ptr>)
    requires State(st, k, t) && Bag(n) == Bag(t) && n.Bin?
    requires forall r | r in ps :: r in Bag(t)
    requires Wrote(st, st', ps, Hole(k), HoleDir(k))
    requires st'.Has(Hole(k)) && st'.Link(Hole(k), HoleDir(k)) == n.p && Rep(st', n.p, n)
    ensures State(st', k, n)
  {
    hide Rep, Bag;
    assert CtxBag(k) + Bag(n) == CtxBag(k) + Bag(t);
    if k.Frame? {
      forall r | r in CtxBag(k) ensures r !in ps {
        if r in ps { Distinct(CtxBag(k), Bag(t), r); }
      }
      assert k.p !in CtxBag(k.up) + Bag(k.s) by {
        assert (CtxBag(k) + Bag(t))[k.p] == 1 + (CtxBag(k.up) + Bag(k.s))[k.p] + Bag(t)[k.p];
      }
    }
    Adopt(st, st', k, n);
  }

  /** Address `p` occurs nowhere in the bag. */
  predicate Off(p: Ptr, b: multiset<Ptr>) {
    p !in b
  }

  predicate Clear<V>(k: Ctx<V>, b: multiset<Ptr>)
    requires k.Frame? && k.up.Frame?
  {
    Off(k.p, b) && Off(k.up.p, b) && Off(Hole(k.up.up), b)
  }

  lemma OnlyOnce(p: Ptr, a: multiset<Ptr>, b: multiset<Ptr>, c: multiset<Ptr>, d: multiset<Ptr>)
    requires Apart(a + b + c + d + multiset{p})
    ensures Off(p, a) && Off(p, b) && Off(p, c) && Off(p, d) && p != HDR && p != NULL
  {
    var m := a + b + c + d + multiset{p};
    assert m[p] == a[p] + b[p] + c[p] + d[p] + 1;
  }

  lemma HoleOff<V>(k: Ctx<V>, b: multiset<Ptr>)
    requires Apart(CtxBag(k) + b)
    ensures Off(Hole(k), b) && Off(NULL, b) && Off(HDR, b)
  {
    hide Bag;
    if k.Frame? {
      assert (CtxBag(k) + b)[k.p] >= 1 + b[k.p];
    }
  }

  /** The cells of the two topmost frames, the subtrees around them, and the hole above are apart. */
  lemma Pieces<V>(st: Store<V>, k: Ctx<V>, t: Tree<V>)
    requires State(st, k, t) && k.Frame? && k.up.Frame?
    ensures Clear(k, Bag(t)) && Clear(k, Bag(k.s)) && Clear(k, Bag(k.up.s))
    ensures k.p != k.up.p && Hole(k.up.up) != k.p && Hole(k.up.up) != k.up.p
    ensures var b := multiset{k.p} + multiset{k.up.p} + Bag(t) + Bag(k.s) + Bag(k.up.s);
            Apart(CtxBag(k.up.up) + b)
            && Bag(Make(k.up.d, k.up.p, k.up.c, k.up.x, Make(k.d, k.p, k.c, k.x, t, k.s), k.up.s)) == b
  {
    hide Rep, Bag, RepCtx, Make;
    var u, a, b, c := CtxBag(k.up.up), Bag(t), Bag(k.s), Bag(k.up.s);
    var m := multiset{k.p} + multiset{k.up.p} + a + b + c;
    var all := CtxBag(k) + Bag(t);
    assert CtxBag(k.up) == u + multiset{k.up.p} + c;
    assert all == u + m;
    assert all == (u + multiset{k.up.p}) + a + b + c + multiset{k.p};
    OnlyOnce(k.p, u + multiset{k.up.p}, a, b, c);
    assert all == (u + multiset{k.p}) + a + b + c + multiset{k.up.p};
    OnlyOnce(k.up.p, u + multiset{k.p}, a, b, c);
    HoleOff(k.up.up, m);
    BagMake(k.d, k.p, k.c, k.x, t, k.s);
    BagMake(k.up.d, k.up.p, k.up.c, k.up.x, Make(k.d, k.p, k.c, k.x, t, k.s), k.up.s);
  }

  /** The subtrees around the two topmost frames survive writes to those frames. */
  lemma PiecesSurvive<V>(st: Store<V>, st': Store<V>, k: Ctx<V>, t: Tree<V>, ps: set<Ptr>)
    requires State(st, k, t) && k.Frame? && k.up.Frame? && ps <= {k.p, k.up.p}
    requires Wrote(st, st', ps, Hole(k.up.up), HoleDir(k.up.up))
    ensures Rep(st', Root(t), t) && Rep(st', Root(k.s), k.s) && Rep(st', Root(k.up.s), k.up.s)
  {
    hide Rep, Bag, RepCtx, CtxBag, Make, Wrote;
    var q, e := Hole(k.up.up), HoleDir(k.up.up);
    Pieces(st, k, t);
    Unfold(st, k, t);
    StepUp(st, k, t);
    Unfold(st, k.up, Make(k.d, k.p, k.c, k.x, t, k.s));
    Survives(st, st', ps, q, e, Root(t), t);
    Survives(st, st', ps, q, e, Root(k.s), k.s);
    Survives(st, st', ps, q, e, Root(k.up.s), k.up.s);
  }

  lemma OuterDone<V>(st: Store<V>, st': Store<V>, k: Ctx<V>, t: Tree<V>)
    requires State(st, k, t) && k.Frame? && k.up.Frame? && k.d == k.up.d
    requires Wrote(st, st', {k.p, k.up.p}, Hole(k.up.up), HoleDir(k.up.up))
    requires st'.Has(Hole(k.up.up)) && st'.Link(Hole(k.up.up), HoleDir(k.up.up)) == k.p
    requires Is(st', k.up.p, Red, k.up.x, k.d, Root(k.s), Root(k.up.s))
    requires Is(st', k.p, Black, k.x, k.d, Root(t), k.up.p)
    ensures State(st', k.up.up, RotateOuter(k, t))
  {
    hide Rep, Make, Bag, RepCtx, CtxBag, Wrote, Apart;
    var d := k.d;
    var m := Make(d, k.p, k.c, k.x, t, k.s);
    StepUp(st, k, t);
    StepUp(st, k.up, m);
    Pieces(st, k, t);
    PiecesSurvive(st, st', k, t, {k.p, k.up.p});
    var low := Make(d, k.up.p, Red, k.up.x, k.s, k.up.s);
    RepMake(st', d, k.up.p, Red, k.up.x, k.s, k.up.s);
    BagMake(d, k.up.p, Red, k.up.x, k.s, k.up.s);
    MakeRoot(d, k.up.p, Red, k.up.x, k.s, k.up.s);
    RepMake(st', d, k.p, Black, k.x, t, low);
    BagMake(d, k.p, Black, k.x, t, low);
    MakeRoot(d, k.p, Black, k.x, t, low);
    Close(st, st', k.up.up, Make(d, k.up.p, k.up.c, k.up.x, m, k.up.s), RotateOuter(k, t), {k.p, k.up.p});
  }

  lemma {:induction false} RootsApart<V>(st: Store<V>, p: Ptr, t: Tree<V>, d: Dir, b: multiset<Ptr>)
    requires t.Bin? && Rep(st, p, t) && Apart(b + Bag(t))
    ensures Off(t.p, b) && Off(t.p, Bag(Kid(t, d))) && Off(t.p, Bag(Kid(t, Other(d))))
    ensures Bag(t) == multiset{t.p} + Bag(Kid(t, d)) + Bag(Kid(t, Other(d)))
    ensures Rep(st, Root(Kid(t, d)), Kid(t, d)) && Rep(st, Root(Kid(t, Other(d))), Kid(t, Other(d)))
    ensures Is(st, t.p, t.c, t.x, d, Root(Kid(t, d)), Root(Kid(t, Other(d))))
  {
    hide Rep, Kid, Bag;
    RepKids(st, p, t, d);
    var x, y := Bag(Kid(t, d)), Bag(Kid(t, Other(d)));
    assert b + Bag(t) == b + x + y + multiset{} + multiset{t.p};
    OnlyOnce(t.p, b, x, y, multiset{});
    RepRoot(st, st.Link(t.p, d), Kid(t, d));
    RepRoot(st, st.Link(t.p, Other(d)), Kid(t, Other(d)));
  }

  /** The bent pair straightened: the lower node has risen over the upper one. */
  function Straighten<V>(k: Ctx<V>, t: Tree<V>): (Ctx<V>, Tree<V>)
    requires k.Frame? && t.Bin?
  {
    var d := Other(k.d);
    (Frame(k.up, d, t.p, t.c, t.x, Kid(t, Other(d))), Make(d, k.p, k.c, k.x, k.s, Kid(t, d)))
  }

  /** The last frame, with the subtree below it taken apart. */
  lemma ChildPieces<V>(st: Store<V>, k: Ctx<V>, t: Tree<V>, d: Dir)
    requires State(st, k, t) && k.Frame? && t.Bin?
    ensures var (a, b, q) := (Kid(t, d), Kid(t, Other(d)), Hole(k.up));
            && Off(k.p, Bag(a)) && Off(k.p, Bag(b)) && Off(k.p, Bag(k.s)) && k.p != t.p
            && Off(t.p, Bag(a)) && Off(t.p, Bag(b)) && Off(t.p, Bag(k.s))
            && Off(q, Bag(a)) && Off(q, Bag(b)) && Off(q, Bag(k.s)) && q != k.p && q != t.p
            && Bag(Make(k.d, k.p, k.c, k.x, t, k.s)) == multiset{k.p} + multiset{t.p} + Bag(a) + Bag(b) + Bag(k.s)
            && Is(st, k.p, k.c, k.x, k.d, t.p, Root(k.s))
            && Is(st, t.p, t.c, t.x, d, Root(a), Root(b))
            && Rep(st, Root(k.s), k.s) && Rep(st, Root(a), a) && Rep(st, Root(b), b)
            && st.Has(q) && st.Link(q, HoleDir(k.up)) == k.p
  {
    hide Rep, Bag, RepCtx, Make, Kid, CtxBag, Is;
    var a, b := Kid(t, d), Kid(t, Other(d));
    Unfold(st, k, t);
    LastFrame(k, t);
    RootsApart(st, t.p, t, d, CtxBag(k));
    CtxLast(k);
    assert CtxBag(k) + Bag(t) == (CtxBag(k.up) + multiset{t.p}) + Bag(a) + Bag(b) + Bag(k.s) + multiset{k.p};
    OnlyOnce(k.p, CtxBag(k.up) + multiset{t.p}, Bag(a), Bag(b), Bag(k.s));
    assert CtxBag(k) + Bag(t) == CtxBag(k.up) + (multiset{k.p} + multiset{t.p} + Bag(a) + Bag(b) + Bag(k.s));
    HoleOff(k.up, multiset{k.p} + multiset{t.p} + Bag(a) + Bag(b) + Bag(k.s));
    BagMake(k.d, k.p, k.c, k.x, t, k.s);
  }

  lemma CtxLast<V>(k: Ctx<V>)
    requires k.Frame?
    ensures Bag(k.s) <= CtxBag(k)
  {
    hide Bag;
  }

  lemma StraightenDone<V>(st: Store<V>, st': Store<V>, k: Ctx<V>, t: Tree<V>)
    requires State(st, k, t) && k.Frame? && t.Bin?
    requires Wrote(st, st', {k.p, t.p}, Hole(k.up), HoleDir(k.up))
    requires st'.Has(Hole(k.up)) && st'.Link(Hole(k.up), HoleDir(k.up)) == t.p
    requires Is(st', k.p, k.c, k.x, Other(k.d), Root(k.s), Root(Kid(t, Other(k.d))))
    requires Is(st', t.p, t.c, t.x, Other(k.d), k.p, Root(Kid(t, k.d)))
    ensures var (n, u) := Straighten(k, t); State(st', n, u)
  {
    hide Rep, Make, Bag, RepCtx, CtxBag, Apart, Kid, Wrote, Is;
    var d := Other(k.d);
    var a, b := Kid(t, d), Kid(t, Other(d));
    var q, e, ps := Hole(k.up), HoleDir(k.up), {k.p, t.p};
    ChildPieces(st, k, t, d);
    StepUp(st, k, t);
    Survives(st, st', ps, q, e, Root(a), a);
    Survives(st, st', ps, q, e, Root(b), b);
    Survives(st, st', ps, q, e, Root(k.s), k.s);
    var low := Make(d, k.p, k.c, k.x, k.s, a);
    var n := Make(d, t.p, t.c, t.x, low, b);
    IsMake(st', d, k.p, k.c, k.x, k.s, a);
    IsMake(st', d, t.p, t.c, t.x, low, b);
    Close(st, st', k.up, Make(k.d, k.p, k.c, k.x, t, k.s), n, ps);
    StepDown(st', k.up, n, d);
  }

  /** Straightening and then rotating the outer way is the inner rotation. */
  lemma StraightenThenRotate<V>(k: Ctx<V>, t: Tree<V>)
    requires k.Frame? && k.up.Frame? && t.Bin? && k.d != k.up.d && k.c == Red
    ensures var (n, u) := Straighten(k, t);
            && n.Frame? && n.up == k.up && n.d == k.up.d && RotateOuter(n, u) == RotateInner(k, t)
  {
  }

  /** Repainting the root of a subtree whose other cells are untouched. */
  lemma Repainted<V>(st: Store<V>, st': Store<V>, t: Tree<V>, c: Color, b: multiset<Ptr>)
    requires t.Bin? && Rep(st, t.p, t) && Apart(b + Bag(t))
    requires t.p in st'.mem && st'.mem[t.p] == st.mem[t.p].(color := c)
    requires forall r | r in Bag(t) && r != t.p && r in st.mem :: r in st'.mem && st'.mem[r] == st.mem[r]
    ensures Rep(st', t.p, Paint(t, c)) && Bag(Paint(t, c)) == Bag(t)
  {
    hide Rep, Bag;
    RootsApart(st, t.p, t, Left, b);
    RepFrame(st, st', Root(t.l), t.l);
    RepFrame(st, st', Root(t.r), t.r);
    RepMake(st', Left, t.p, c, t.x, t.l, t.r);
    BagMake(Left, t.p, c, t.x, t.l, t.r);
  }

  lemma RecolorDone<V>(st: Store<V>, st': Store<V>, k: Ctx<V>, t: Tree<V>)
    requires State(st, k, t) && k.Frame? && k.up.Frame? && k.up.s.Bin?
    requires Wrote(st, st', {k.p, k.up.p, k.up.s.p}, Hole(k.up.up), HoleDir(k.up.up))
    requires st'.Has(Hole(k.up.up)) && st'.Link(Hole(k.up.up), HoleDir(k.up.up)) == k.up.p
    requires Is(st', k.up.p, Red, k.up.x, k.up.d, k.p, k.up.s.p)
    requires Is(st', k.p, Black, k.x, k.d, Root(t), Root(k.s))
    requires k.up.s.p in st.mem && k.up.s.p in st'.mem
    requires st'.mem[k.up.s.p] == st.mem[k.up.s.p].(color := Black)
    ensures State(st', k.up.up, Recolor(k, t))
  {
    hide Rep, Make, Bag, RepCtx, CtxBag, Apart;
    var u := k.up.s;
    var q, e, ps := Hole(k.up.up), HoleDir(k.up.up), {k.p, k.up.p, u.p};
    var m := Make(k.d, k.p, k.c, k.x, t, k.s);
    StepUp(st, k, t);
    StepUp(st, k.up, m);
    Pieces(st, k, t);
    Unfold(st, k, t);
    Unfold(st, k.up, m);
    UncleApart(k, t);
    RootsApart(st, u.p, u, Left, Bag(t) + Bag(k.s));
    Survives(st, st', ps, q, e, Root(t), t);
    Survives(st, st', ps, q, e, Root(k.s), k.s);
    Repainted(st, st', u, Black, Bag(t) + Bag(k.s));
    var near, far := Make(k.d, k.p, Black, k.x, t, k.s), Paint(u, Black);
    RepMake(st', k.d, k.p, Black, k.x, t, k.s);
    BagMake(k.d, k.p, Black, k.x, t, k.s);
    MakeRoot(k.d, k.p, Black, k.x, t, k.s);
    RepMake(st', k.up.d, k.up.p, Red, k.up.x, near, far);
    BagMake(k.up.d, k.up.p, Red, k.up.x, near, far);
    MakeRoot(k.up.d, k.up.p, Red, k.up.x, near, far);
    BagMake(k.up.d, k.up.p, k.up.c, k.up.x, m, u);
    BagMake(k.d, k.p, k.c, k.x, t, k.s);
    UncleInBag(u);
    Close(st, st', k.up.up, Make(k.up.d, k.up.p, k.up.c, k.up.x, m, u), Recolor(k, t), ps);
  }

  lemma UnclePieces<V>(st: Store<V>, k: Ctx<V>, t: Tree<V>)
    requires State(st, k, t) && k.Frame? && k.up.Frame? && k.up.s.Bin?
    ensures var (u, q) := (k.up.s.p, Hole(k.up.up));
            && k.p != k.up.p && u != k.p && u != k.up.p && q != k.p && q != k.up.p && q != u && u in st.mem
  {
    hide Rep, Make, Bag, RepCtx, CtxBag;
    Pieces(st, k, t);
    UncleInBag(k.up.s);
    StepUp(st, k, t);
    Unfold(st, k.up, Make(k.d, k.p, k.c, k.x, t, k.s));
    RepRoot(st, Root(k.up.s), k.up.s);
  }

  lemma UncleInBag<V>(t: Tree<V>)
    requires t.Bin?
    ensures t.p in Bag(t)
  {
  }

  lemma UncleApart<V>(k: Ctx<V>, t: Tree<V>)
    requires k.Frame? && k.up.Frame? && Apart(CtxBag(k) + Bag(t))
    ensures Apart(Bag(t) + Bag(k.s) + Bag(k.up.s))
  {
    hide Bag;
    assert CtxBag(k.up) == CtxBag(k.up.up) + multiset{k.up.p} + Bag(k.up.s);
    SubApart(CtxBag(k) + Bag(t), Bag(t) + Bag(k.s) + Bag(k.up.s));
  }

  lemma SubApart(a: multiset<Ptr>, b: multiset<Ptr>)
    requires Apart(a) && b <= a
    ensures Apart(b)
  {
    forall p | p in b ensures b[p] == 1 { assert p in a; }
  }

  // ---------------------------------------------------------------- after a deletion

  /** The last frame and its sibling node `w`, taken apart: the parent and the sibling, the short
      subtree and the two children of the sibling, and the hole above are apart. */
  lemma SiblingPieces<V>(st: Store<V>, k: Ctx<V>, t: Tree<V>)
    requires State(st, k, t) && k.Frame? && k.s.Bin?
    ensures var (d, w) := (k.d, k.s);
            var (a, b, q) := (Kid(w, d), Kid(w, Other(d)), Hole(k.up));
            && Off(k.p, Bag(t)) && Off(k.p, Bag(a)) && Off(k.p, Bag(b)) && k.p != w.p
            && Off(w.p, Bag(t)) && Off(w.p, Bag(a)) && Off(w.p, Bag(b))
            && Off(q, Bag(t)) && Off(q, Bag(a)) && Off(q, Bag(b)) && q != k.p && q != w.p
            && Bag(w) == multiset{w.p} + Bag(a) + Bag(b)
            && Bag(Make(d, k.p, k.c, k.x, t, w)) == multiset{k.p} + multiset{w.p} + Bag(t) + Bag(a) + Bag(b)
            && Apart(Bag(t) + Bag(a) + Bag(b))
            && Is(st, k.p, k.c, k.x, d, Root(t), w.p)
            && Is(st, w.p, w.c, w.x, d, Root(a), Root(b))
            && Rep(st, Root(t), t) && Rep(st, Root(a), a) && Rep(st, Root(b), b)
            && st.Has(q) && st.Link(q, HoleDir(k.up)) == k.p
  {
    hide Rep, Bag, RepCtx, Make, Kid, CtxBag, Is;
    var d, w := k.d, k.s;
    var a, b := Kid(w, d), Kid(w, Other(d));
    Unfold(st, k, t);
    LastFrame(k, t);
    RootsApart(st, w.p, w, d, CtxBag(k.up) + multiset{k.p} + Bag(t));
    assert CtxBag(k) + Bag(t) == (CtxBag(k.up) + multiset{w.p}) + Bag(t) + Bag(a) + Bag(b) + multiset{k.p};
    OnlyOnce(k.p, CtxBag(k.up) + multiset{w.p}, Bag(t), Bag(a), Bag(b));
    assert CtxBag(k) + Bag(t) == CtxBag(k.up) + (multiset{k.p} + multiset{w.p} + Bag(t) + Bag(a) + Bag(b));
    HoleOff(k.up, multiset{k.p} + multiset{w.p} + Bag(t) + Bag(a) + Bag(b));
    BagMake(d, k.p, k.c, k.x, t, w);
    SubApart(CtxBag(k) + Bag(t), Bag(t) + Bag(a) + Bag(b));
  }

  lemma LastFrame<V>(k: Ctx<V>, t: Tree<V>)
    requires k.Frame?
    ensures CtxBag(k) + Bag(t) == CtxBag(k.up) + multiset{k.p} + Bag(t) + Bag(k.s)
  {
  }

  lemma SettleDone<V>(st: Store<V>, st': Store<V>, k: Ctx<V>, t: Tree<V>)
    requires State(st, k, t) && k.Frame? && k.s.Bin? && Kid(k.s, Other(k.d)).Bin?
    requires Wrote(st, st', {k.p, k.s.p, Kid(k.s, Other(k.d)).p}, Hole(k.up), HoleDir(k.up))
    requires st'.Has(Hole(k.up)) && st'.Link(Hole(k.up), HoleDir(k.up)) == k.s.p
    requires Is(st', k.p, Black, k.x, k.d, Root(t), Root(Kid(k.s, k.d)))
    requires Is(st', k.s.p, k.c, k.s.x, k.d, k.p, Kid(k.s, Other(k.d)).p)
    requires var z := Kid(k.s, Other(k.d)).p; z in st.mem && z in st'.mem && st'.mem[z] == st.mem[z].(color := Black)
    ensures State(st', k.up, Settle(k, t))
  {
    hide Rep, Make, Bag, RepCtx, CtxBag, Apart, Kid;
    var d, w := k.d, k.s;
    var a, b := Kid(w, d), Kid(w, Other(d));
    var q, e, ps := Hole(k.up), HoleDir(k.up), {k.p, w.p, b.p};
    SiblingPieces(st, k, t);
    StepUp(st, k, t);
    RootsApart(st, b.p, b, Left, Bag(t) + Bag(a));
    Survives(st, st', ps, q, e, Root(t), t);
    Survives(st, st', ps, q, e, Root(a), a);
    Repainted(st, st', b, Black, Bag(t) + Bag(a));
    UncleInBag(b);
    var low, far := Make(d, k.p, Black, k.x, t, a), Paint(b, Black);
    RepMake(st', d, k.p, Black, k.x, t, a);
    BagMake(d, k.p, Black, k.x, t, a);
    MakeRoot(d, k.p, Black, k.x, t, a);
    RepMake(st', d, w.p, k.c, w.x, low, far);
    BagMake(d, w.p, k.c, w.x, low, far);
    MakeRoot(d, w.p, k.c, w.x, low, far);
    Close(st, st', k.up, Make(d, k.p, k.c, k.x, t, w), Settle(k, t), ps);
  }

  lemma RaiseDone<V>(st: Store<V>, st': Store<V>, k: Ctx<V>, t: Tree<V>)
    requires State(st, k, t) && k.Frame? && k.s.Bin?
    requires Wrote(st, st', {k.p, k.s.p}, Hole(k.up), HoleDir(k.up))
    requires st'.Has(Hole(k.up)) && st'.Link(Hole(k.up), HoleDir(k.up)) == k.s.p
    requires Is(st', k.p, Red, k.x, k.d, Root(t), Root(Kid(k.s, k.d)))
    requires Is(st', k.s.p, Black, k.s.x, k.d, k.p, Root(Kid(k.s, Other(k.d))))
    ensures State(st', RaiseSibling(k), t)
  {
    hide Rep, Make, Bag, RepCtx, CtxBag, Apart, Kid, Wrote, Is;
    var d, w := k.d, k.s;
    var a, b := Kid(w, d), Kid(w, Other(d));
    var q, e, ps := Hole(k.up), HoleDir(k.up), {k.p, w.p};
    SiblingPieces(st, k, t);
    StepUp(st, k, t);
    Survives(st, st', ps, q, e, Root(t), t);
    Survives(st, st', ps, q, e, Root(a), a);
    Survives(st, st', ps, q, e, Root(b), b);
    var low := Make(d, k.p, Red, k.x, t, a);
    var n := Make(d, w.p, Black, w.x, low, b);
    IsMake(st', d, k.p, Red, k.x, t, a);
    IsMake(st', d, w.p, Black, w.x, low, b);
    Close(st, st', k.up, Make(d, k.p, k.c, k.x, t, w), n, ps);
    StepDown(st', k.up, n, d);
    StepDown(st', Frame(k.up, d, w.p, Black, w.x, b), low, d);
  }

  /** Fold a node whose cell and subtrees are in place. */
  lemma IsMake<V>(st: Store<V>, d: Dir, p: Ptr, c: Color, x: Item<V>, near: Tree<V>, far: Tree<V>)
    requires Is(st, p, c, x, d, Root(near), Root(far)) && Rep(st, Root(near), near) && Rep(st, Root(far), far)
    ensures var m := Make(d, p, c, x, near, far);
            && Rep(st, p, m) && Bag(m) == multiset{p} + Bag(near) + Bag(far)
            && m.Bin? && m.p == p && m.c == c && m.x == x && Kid(m, d) == near && Kid(m, Other(d)) == far
  {
    hide Rep, Make, Bag;
    RepMake(st, d, p, c, x, near, far);
    BagMake(d, p, c, x, near, far);
    MakeRoot(d, p, c, x, near, far);
  }

  lemma PassUpDone<V>(st: Store<V>, st': Store<V>, k: Ctx<V>, t: Tree<V>)
    requires State(st, k, t) && k.Frame? && k.s.Bin? && k.s.p in st.mem
    requires st' == st.SetColor(k.s.p, Red)
    ensures State(st', k.up, PassUp(k, t))
  {
    hide Rep, Make, Bag, RepCtx, CtxBag, Apart, Kid;
    var d, w := k.d, k.s;
    var a, b := Kid(w, d), Kid(w, Other(d));
    SiblingPieces(st, k, t);
    StepUp(st, k, t);
    LastFrame(k, t);
    assert Wrote(st, st', {w.p}, Hole(k.up), HoleDir(k.up));
    Survives(st, st', {w.p}, Hole(k.up), HoleDir(k.up), Root(t), t);
    Survives(st, st', {w.p}, Hole(k.up), HoleDir(k.up), Root(a), a);
    Survives(st, st', {w.p}, Hole(k.up), HoleDir(k.up), Root(b), b);
    IsMake(st', d, w.p, Red, w.x, a, b);
    PaintIsMake(w, d, Red);
    IsMake(st', d, k.p, k.c, k.x, t, Paint(w, Red));
    Close(st, st', k.up, Make(d, k.p, k.c, k.x, t, w), PassUp(k, t), {w.p});
  }

  lemma PaintIsMake<V>(t: Tree<V>, d: Dir, c: Color)
    requires t.Bin?
    ensures Paint(t, c) == Make(d, t.p, c, t.x, Kid(t, d), Kid(t, Other(d)))
  {
  }

  lemma TurnDone<V>(st: Store<V>, st': Store<V>, k: Ctx<V>, t: Tree<V>)
    requires State(st, k, t) && k.Frame? && k.s.Bin? && Kid(k.s, k.d).Bin?
    requires var y := Kid(k.s, k.d); Wrote(st, st', {k.p, k.s.p, y.p}, Hole(k.up), HoleDir(k.up))
    requires st'.Has(Hole(k.up)) && st'.Link(Hole(k.up), HoleDir(k.up)) == k.p
    requires Is(st', k.p, k.c, k.x, k.d, Root(t), Kid(k.s, k.d).p)
    requires var y := Kid(k.s, k.d);
             && Is(st', y.p, Black, y.x, k.d, Root(Kid(y, k.d)), k.s.p)
             && Is(st', k.s.p, Red, k.s.x, k.d, Root(Kid(y, Other(k.d))), Root(Kid(k.s, Other(k.d))))
    ensures State(st', k.(s := TurnSibling(k)), t)
  {
    hide Rep, Make, Bag, RepCtx, CtxBag, Apart, Kid, Wrote, Is;
    var d, w := k.d, k.s;
    var y, b := Kid(w, d), Kid(w, Other(d));
    var y0, y1 := Kid(y, d), Kid(y, Other(d));
    var q, e, ps := Hole(k.up), HoleDir(k.up), {k.p, w.p, y.p};
    SiblingPieces(st, k, t);
    StepUp(st, k, t);
    assert Bag(t) + Bag(y) + Bag(b) == Bag(t) + Bag(b) + Bag(y);
    RootsApart(st, y.p, y, d, Bag(t) + Bag(b));
    Survives(st, st', ps, q, e, Root(t), t);
    Survives(st, st', ps, q, e, Root(y0), y0);
    Survives(st, st', ps, q, e, Root(y1), y1);
    Survives(st, st', ps, q, e, Root(b), b);
    var low := Make(d, w.p, Red, w.x, y1, b);
    IsMake(st', d, w.p, Red, w.x, y1, b);
    IsMake(st', d, y.p, Black, y.x, y0, low);
    var n := Make(d, k.p, k.c, k.x, t, TurnSibling(k));
    IsMake(st', d, k.p, k.c, k.x, t, TurnSibling(k));
    UncleInBag(y);
    Close(st, st', k.up, Make(d, k.p, k.c, k.x, t, w), n, ps);
    StepDown(st', k.up, n, d);
  }

  // ---------------------------------------------------------------- growing and closing

  lemma {:induction false} TreeInStore<V>(st: Store<V>, p: Ptr, t: Tree<V>)
    requires Rep(st, p, t)
    ensures forall r | r in Bag(t) :: r in st.mem
    decreases t
  {
    if t.Bin? {
      TreeInStore(st, st.mem[p].left, t.l);
      TreeInStore(st, st.mem[p].right, t.r);
    }
  }

  lemma {:induction false} PathInStore<V>(st: Store<V>, k: Ctx<V>)
    requires RepCtx(st, k)
    ensures forall r | r in CtxBag(k) :: r in st.mem
  {
    hide Rep, Bag;
    if k.Frame? {
      PathInStore(st, k.up);
      TreeInStore(st, st.Link(k.p, Other(k.d)), k.s);
    }
  }

  /** A fresh red node in an empty hole. */
  lemma Planted<V>(st: Store<V>, st': Store<V>, k: Ctx<V>, n: Ptr, x: Item<V>)
    requires State(st, k, Leaf) && n !in st.mem && n != NULL && n != HDR
    requires Wrote(st, st', {n}, Hole(k), HoleDir(k))
    requires st'.Has(Hole(k)) && st'.Link(Hole(k), HoleDir(k)) == n
    requires Is(st', n, Red, x, Left, NULL, NULL)
    ensures State(st', k, Bin(n, Red, Leaf, x, Leaf))
  {
    hide RepCtx, Bag, Wrote;
    PathInStore(st, k);
    var t: Tree<V> := Bin(n, Red, Leaf, x, Leaf);
    LeafBag(n, x);
    assert CtxBag(k) + Bag<V>(Leaf) == CtxBag(k);
    if k.Frame? { assert k.p in CtxBag(k); }
    PlantedPath(st, st', k, n);
    HoleFrame(st, st', k);
    ApartAdd(CtxBag(k), n);
    assert Apart(CtxBag(k) + Bag(t));
    assert RepCtx(st', k);
    assert Rep(st', n, t);
  }

  lemma ApartAdd(a: multiset<Ptr>, n: Ptr)
    requires Apart(a) && n !in a && n != NULL && n != HDR
    ensures Apart(a + multiset{n})
  {
    forall p | p in a + multiset{n} ensures (a + multiset{n})[p] == 1 {
      if p != n { assert p in a; }
    }
  }

  lemma LeafBag<V>(n: Ptr, x: Item<V>)
    ensures Bag(Bin(n, Red, Leaf, x, Leaf)) == multiset{n}
    ensures Bag<V>(Leaf) == multiset{}
  {
  }

  lemma PlantedPath<V>(st: Store<V>, st': Store<V>, k: Ctx<V>, n: Ptr)
    requires RepCtx(st, k) && Apart(CtxBag(k)) && n !in CtxBag(k)
    requires Wrote(st, st', {n}, Hole(k), HoleDir(k))
    ensures SameButHole(st, st', k)
  {
    hide Rep, Bag;
    if k.Frame? {
      assert CtxBag(k)[k.p] == 1 + (CtxBag(k.up) + Bag(k.s))[k.p];
    }
  }

  lemma {:induction false} Climb<V>(st: Store<V>, k: Ctx<V>, t: Tree<V>)
    requires State(st, k, t)
    ensures State(st, Top, Plug(k, t))
  {
    hide State;
    if k.Frame? {
      StepUp(st, k, t);
      Climb(st, k.up, Make(k.d, k.p, k.c, k.x, t, k.s));
    }
  }

  lemma RootPainted<V>(st: Store<V>, st': Store<V>, t: Tree<V>)
    requires State(st, Top, t) && t.Bin? && st.root in st.mem && st' == st.SetColor(st.root, Black)
    ensures State(st', Top, Paint(t, Black))
  {
    hide Rep, Bag;
    RepRoot(st, st.root, t);
    assert multiset{} + Bag(t) == Bag(t);
    Repainted(st, st', t, Black, multiset{});
  }
}
