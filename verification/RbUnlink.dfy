/** Taking a node out of a red-black tree, src/tree/rbtree.c:245-284: a node without a right
    child is bypassed; any other node gives its place and colour to its successor. */
module RbUnlink {
  import opened Options
  import opened SortedItems
  import opened RedBlack
  import opened RbStore
  import opened RbRepairs

  // ---------------------------------------------------------------- the path to the successor

  /** `k` runs from `base` down left links only. */
  predicate Lefts<V(==)>(k: Ctx<V>, base: Ctx<V>) {
    k == base || (k.Frame? && k.d == Left && Lefts(k.up, base))
  }

  /** `k` with another path in place of `base`. */
  function Rebase<V(==)>(k: Ctx<V>, base: Ctx<V>, base': Ctx<V>): Ctx<V>
    requires Lefts(k, base)
  {
    if k == base then base' else k.(up := Rebase(k.up, base, base'))
  }

  /** The items between `base` and the hole. */
  function Passed<V(==)>(k: Ctx<V>, base: Ctx<V>): seq<Item<V>>
    requires Lefts(k, base)
  {
    if k == base then [] else [k.x] + Inorder(k.s) + Passed(k.up, base)
  }

  lemma {:induction false} RebaseContents<V>(k: Ctx<V>, base: Ctx<V>, base': Ctx<V>)
    requires Lefts(k, base)
    ensures Before(k) == Before(base) && After(k) == Passed(k, base) + After(base)
    ensures Before(Rebase(k, base, base')) == Before(base')
    ensures After(Rebase(k, base, base')) == Passed(k, base) + After(base')
  {
    hide Inorder;
    if k != base {
      RebaseContents(k.up, base, base');
      var n := Rebase(k, base, base');
      assert After(n) == ([k.x] + Inorder(k.s)) + After(n.up);
    }
  }

  lemma {:induction false} RebaseRb<V>(k: Ctx<V>, base: Ctx<V>, base': Ctx<V>, h: nat)
    requires Lefts(k, base) && CtxRb(k, h) && base.Frame?
    requires base'.Frame? && base'.c == base.c && base'.up == base.up && base'.s == base.s
    ensures CtxRb(Rebase(k, base, base'), h)
    ensures var n := Rebase(k, base, base'); n.Frame? && k.Frame? && n.c == k.c
  {
    hide Rb;
    if k != base {
      RebaseRb(k.up, base, base', if k.c == Black then h + 1 else h);
    }
  }

  /** The node `x` to delete, its path, and the successor found below it. */
  ghost predicate AtSuccessor<V>(k: Ctx<V>, base: Ctx<V>, s: Tree<V>) {
    base.Frame? && base.d == Right && Lefts(k, base) && s.Bin? && s.l == Leaf
  }

  /** The frame of the deleted node, taken over by the successor. */
  function TakeOver<V>(base: Ctx<V>, s: Tree<V>): Ctx<V>
    requires base.Frame? && s.Bin?
  {
    base.(p := s.p, x := s.x)
  }

  /** Only the deleted item disappears. */
  lemma TakeOverContents<V>(k: Ctx<V>, base: Ctx<V>, s: Tree<V>)
    requires AtSuccessor(k, base, s)
    ensures var (a, b) := (Before(base.up) + Inorder(base.s), [s.x] + Inorder(s.r) + Passed(k, base) + After(base.up));
            && Inorder(Plug(k, s)) == a + [base.x] + b
            && Inorder(Plug(Rebase(k, base, TakeOver(base, s)), s.r)) == a + b
  {
    hide Plug, Rebase, Passed;
    var base' := TakeOver(base, s);
    RebaseContents(k, base, base');
    PlugInorder(k, s);
    PlugInorder(Rebase(k, base, base'), s.r);
    assert Inorder(s) == [s.x] + Inorder(s.r);
    ShiftItem(Before(base.up), Inorder(base.s), base.x, s.x, Inorder(s.r), Passed(k, base), After(base.up));
  }

  lemma ShiftItem<T>(u: seq<T>, l: seq<T>, x: T, y: T, r: seq<T>, m: seq<T>, v: seq<T>)
    ensures (u + (l + [x])) + ([y] + r) + (m + ([] + v)) == (u + l) + [x] + ([y] + r + m + v)
    ensures (u + (l + [y])) + r + (m + ([] + v)) == (u + l) + ([y] + r + m + v)
  {
  }

  // ---------------------------------------------------------------- the cells

  /** The addresses in the frames between `base` and `k`. */
  function MidBag<V(==)>(k: Ctx<V>, base: Ctx<V>): multiset<Ptr>
    requires Lefts(k, base)
  {
    if k == base then multiset{} else MidBag(k.up, base) + (multiset{k.p} + Bag(k.s))
  }

  lemma CtxBagStep<V>(k: Ctx<V>)
    requires k.Frame?
    ensures CtxBag(k) == CtxBag(k.up) + (multiset{k.p} + Bag(k.s))
  {
    hide Bag;
  }

  lemma {:induction false} MidParts<V>(k: Ctx<V>, base: Ctx<V>, base': Ctx<V>)
    requires Lefts(k, base)
    ensures CtxBag(k) == CtxBag(base) + MidBag(k, base)
    ensures CtxBag(Rebase(k, base, base')) == CtxBag(base') + MidBag(k, base)
  {
    hide Bag, CtxBag;
    if k != base {
      MidParts(k.up, base, base');
      CtxBagStep(k);
      CtxBagStep(Rebase(k, base, base'));
    }
  }

  /** The frames from `base` down to `k` are in place under a new base. */
  lemma {:induction false} RebaseRep<V>(st: Store<V>, st': Store<V>, k: Ctx<V>, base: Ctx<V>, base': Ctx<V>)
    requires Lefts(k, base) && RepCtx(st, k) && base.Frame? && base'.Frame? && base.p in st.mem && base.p != HDR
    requires RepCtx(st', base') && st'.Link(base'.p, base'.d) == st.Link(base.p, base.d)
    requires SameOn(st, st', MidBag(k, base))
    ensures k.Frame? && k.p in st.mem && RepCtx(st', Rebase(k, base, base'))
    ensures var n := Rebase(k, base, base');
            n.Frame? && n.p in st'.mem && st'.Link(n.p, n.d) == st.Link(k.p, k.d)
  {
    hide Rep, Bag;
    if k != base {
      SameOnPart(st, st', MidBag(k, base), MidBag(k.up, base));
      SameOnPart(st, st', MidBag(k, base), Bag(k.s));
      RebaseRep(st, st', k.up, base, base');
      assert k.p in MidBag(k, base);
      RepFrame(st, st', st.Link(k.p, Right), k.s);
    }
  }

  /** The writes leave the path above the deleted node alone, except for its hole. */
  lemma AboveKept<V>(st: Store<V>, st': Store<V>, k: Ctx<V>, b: multiset<Ptr>, ps: set<Ptr>)
    requires RepCtx(st, k) && Apart(CtxBag(k) + b) && Wrote(st, st', ps, Hole(k), HoleDir(k))
    requires forall r | r in ps :: r in b
    ensures RepCtx(st', k)
  {
    hide Rep, Bag;
    if k.Frame? {
      forall r | r in CtxBag(k) ensures r !in ps {
        if r in ps { Distinct(CtxBag(k), b, r); }
      }
      assert k.p !in CtxBag(k.up) + Bag(k.s) by {
        assert (CtxBag(k) + b)[k.p] == 1 + (CtxBag(k.up) + Bag(k.s))[k.p] + b[k.p];
      }
    }
    HoleFrame(st, st', k);
  }

  lemma BypassDone<V>(st: Store<V>, st': Store<V>, k: Ctx<V>, t: Tree<V>)
    requires State(st, k, t) && t.Bin? && t.r == Leaf
    requires Wrote(st, st', {t.p}, Hole(k), HoleDir(k))
    requires st'.Has(Hole(k)) && st'.Link(Hole(k), HoleDir(k)) == Root(t.l)
    ensures State(st', k, t.l)
  {
    hide Rep, Bag, RepCtx, CtxBag, Wrote;
    var p := st.Link(Hole(k), HoleDir(k));
    RepKids(st, p, t, Left);
    RootsApart(st, p, t, Left, CtxBag(k));
    HoleOff(k, Bag(t));
    UncleInBag(t);
    AboveKept(st, st', k, Bag(t), {t.p});
    Survives(st, st', {t.p}, Hole(k), HoleDir(k), Root(t.l), t.l);
    SubApart(CtxBag(k) + Bag(t), CtxBag(k) + Bag(t.l));
  }

  /** All the addresses around the deleted node and its successor. */
  lemma SuccessorBag<V>(k: Ctx<V>, base: Ctx<V>, s: Tree<V>)
    requires AtSuccessor(k, base, s) && Apart(CtxBag(k) + Bag(s))
    ensures var (u, m) := (CtxBag(base.up), MidBag(k, base));
            var b := multiset{base.p} + multiset{s.p} + Bag(base.s) + m + Bag(s.r);
            && CtxBag(k) + Bag(s) == u + b
            && Off(base.p, u) && Off(base.p, Bag(base.s)) && Off(base.p, m) && Off(base.p, Bag(s.r)) && base.p != s.p
            && Off(s.p, u) && Off(s.p, Bag(base.s)) && Off(s.p, m) && Off(s.p, Bag(s.r))
            && Off(Hole(base.up), b) && base.p != HDR && s.p != HDR
            && Apart(CtxBag(Rebase(k, base, TakeOver(base, s))) + Bag(s.r))
  {
    hide Bag, CtxBag, MidBag, Apart, Rebase, Off;
    var u, m, l, r := CtxBag(base.up), MidBag(k, base), Bag(base.s), Bag(s.r);
    var b := multiset{base.p} + multiset{s.p} + l + m + r;
    var all := CtxBag(k) + Bag(s);
    MidParts(k, base, TakeOver(base, s));
    CtxBagStep(base);
    CtxBagStep(TakeOver(base, s));
    SuccessorOwnBag(s);
    assert all == u + b;
    assert all == (u + multiset{s.p}) + l + m + r + multiset{base.p};
    OnlyOnce(base.p, u + multiset{s.p}, l, m, r);
    OffParts(base.p, u, s.p);
    assert all == (u + multiset{base.p}) + l + m + r + multiset{s.p};
    OnlyOnce(s.p, u + multiset{base.p}, l, m, r);
    OffParts(s.p, u, base.p);
    HoleOff(base.up, b);
    SubApart(all, CtxBag(Rebase(k, base, TakeOver(base, s))) + r);
  }

  lemma OffParts(p: Ptr, u: multiset<Ptr>, q: Ptr)
    requires Off(p, u + multiset{q})
    ensures Off(p, u) && p != q
  {
  }

  lemma SuccessorOwnBag<V>(s: Tree<V>)
    requires s.Bin? && s.l == Leaf
    ensures Bag(s) == multiset{s.p} + Bag(s.r)
  {
  }

  /** The frame of the deleted node is in place under its new owner. */
  lemma TakenOver<V>(st: Store<V>, st': Store<V>, k: Ctx<V>, base: Ctx<V>, s: Tree<V>, ps: set<Ptr>, right: Ptr)
    requires State(st, k, s) && AtSuccessor(k, base, s) && RepCtx(st, base)
    requires ps == {base.p, s.p} || (k != base && ps == {base.p, s.p, k.p})
    requires Wrote(st, st', ps, Hole(base.up), HoleDir(base.up))
    requires st'.Has(Hole(base.up)) && st'.Link(Hole(base.up), HoleDir(base.up)) == s.p
    requires Is(st', s.p, base.c, s.x, Left, Root(base.s), right)
    ensures RepCtx(st', TakeOver(base, s)) && st'.Link(s.p, Right) == right
  {
    hide Rep, Bag, CtxBag, Wrote, Rebase, MidBag;
    var b := multiset{base.p} + multiset{s.p} + Bag(base.s) + MidBag(k, base) + Bag(s.r);
    SuccessorBag(k, base, s);
    LastInMid(k, base);
    AboveKept(st, st', base.up, b, ps);
    RepRoot(st, st.Link(base.p, Left), base.s);
    if k != base { OffMid(k, base, s); }
    Survives(st, st', ps, Hole(base.up), HoleDir(base.up), Root(base.s), base.s);
  }

  lemma LastInMid<V>(k: Ctx<V>, base: Ctx<V>)
    requires Lefts(k, base)
    ensures k != base ==> k.p in MidBag(k, base) && MidBag(k, base) == MidBag(k.up, base) + (multiset{k.p} + Bag(k.s))
  {
    hide Bag;
  }

  /** The parent of the successor is apart from everything else. */
  lemma OffMid<V>(k: Ctx<V>, base: Ctx<V>, s: Tree<V>)
    requires AtSuccessor(k, base, s) && Apart(CtxBag(k) + Bag(s)) && k != base
    ensures Off(k.p, Bag(base.s)) && Off(k.p, MidBag(k.up, base)) && Off(k.p, Bag(k.s)) && Off(k.p, Bag(s.r))
    ensures Off(base.p, Bag(k.s)) && Off(s.p, Bag(k.s)) && Off(Hole(base.up), Bag(k.s))
    ensures forall r | r in MidBag(k.up, base) :: r != base.p && r != s.p && r != Hole(base.up)
    ensures k.p != base.p && k.p != s.p && k.p != Hole(base.up) && k.p != HDR
  {
    hide Bag, CtxBag;
    SuccessorBag(k, base, s);
    LastInMid(k, base);
    var u, m := CtxBag(base.up), MidBag(k.up, base);
    var all := CtxBag(k) + Bag(s);
    assert all == (u + multiset{base.p} + multiset{s.p} + Bag(base.s)) + m + Bag(k.s) + Bag(s.r) + multiset{k.p};
    OnlyOnce(k.p, u + multiset{base.p} + multiset{s.p} + Bag(base.s), m, Bag(k.s), Bag(s.r));
  }

  lemma DirectDone<V>(st: Store<V>, st': Store<V>, base: Ctx<V>, s: Tree<V>)
    requires State(st, base, s) && AtSuccessor(base, base, s)
    requires Wrote(st, st', {base.p, s.p}, Hole(base.up), HoleDir(base.up))
    requires st'.Has(Hole(base.up)) && st'.Link(Hole(base.up), HoleDir(base.up)) == s.p
    requires Is(st', s.p, base.c, s.x, Left, Root(base.s), Root(s.r))
    ensures State(st', TakeOver(base, s), s.r)
  {
    hide Rep, Bag, CtxBag, Wrote, MidBag, RepCtx;
    SuccessorBag(base, base, s);
    TakenOver(st, st', base, base, s, {base.p, s.p}, Root(s.r));
    RepKids(st, st.Link(base.p, Right), s, Right);
    RepRoot(st, st.Link(s.p, Right), s.r);
    Survives(st, st', {base.p, s.p}, Hole(base.up), HoleDir(base.up), Root(s.r), s.r);
  }

  lemma Untouched<V>(st: Store<V>, st': Store<V>, ps: set<Ptr>, q: Ptr, e: Dir, b: multiset<Ptr>)
    requires Wrote(st, st', ps, q, e) && forall r | r in b :: r !in ps && r != q
    ensures SameOn(st, st', b)
  {
  }

  lemma RebaseLast<V>(k: Ctx<V>, base: Ctx<V>, base': Ctx<V>)
    requires Lefts(k, base) && k != base
    ensures Rebase(k, base, base') == k.(up := Rebase(k.up, base, base'))
  {
  }

  lemma SuccessorDone<V>(st: Store<V>, st': Store<V>, k: Ctx<V>, base: Ctx<V>, s: Tree<V>)
    requires State(st, k, s) && AtSuccessor(k, base, s) && k != base && base.p in st.mem && base.p != HDR
    requires Wrote(st, st', {base.p, s.p, k.p}, Hole(base.up), HoleDir(base.up))
    requires st'.Has(Hole(base.up)) && st'.Link(Hole(base.up), HoleDir(base.up)) == s.p
    requires Is(st', s.p, base.c, s.x, Left, Root(base.s), st.Link(base.p, Right))
    requires Is(st', k.p, k.c, k.x, Left, Root(s.r), Root(k.s))
    ensures State(st', Rebase(k, base, TakeOver(base, s)), s.r)
  {
    hide Rep, Bag, CtxBag, MidBag, Wrote, SameOn, Apart, Rebase;
    var base', ps := TakeOver(base, s), {base.p, s.p, k.p};
    SuccessorBag(k, base, s);
    OffMid(k, base, s);
    PathPrefix(st, k, base);
    TakenOver(st, st', k, base, s, ps, st.Link(base.p, Right));
    Untouched(st, st', ps, Hole(base.up), HoleDir(base.up), MidBag(k.up, base));
    RebaseRep(st, st', k.up, base, base');
    RebaseLast(k, base, base');
    RepKids(st, st.Link(k.p, Left), s, Right);
    RepRoot(st, st.Link(s.p, Right), s.r);
    RepRoot(st, st.Link(k.p, Right), k.s);
    Survives(st, st', ps, Hole(base.up), HoleDir(base.up), Root(s.r), s.r);
    Survives(st, st', ps, Hole(base.up), HoleDir(base.up), Root(k.s), k.s);
  }

  lemma {:induction false} PathPrefix<V>(st: Store<V>, k: Ctx<V>, base: Ctx<V>)
    requires RepCtx(st, k) && Lefts(k, base)
    ensures RepCtx(st, base)
  {
    hide Rep;
    if k != base { PathPrefix(st, k.up, base); }
  }

  // ---------------------------------------------------------------- what a cut leaves behind

  /** The addresses of a tree seen from one of its places. */
  function All<V>(k: Ctx<V>, t: Tree<V>): multiset<Ptr> {
    CtxBag(k) + Bag(t)
  }

  lemma {:induction false} PlugAll<V>(k: Ctx<V>, t: Tree<V>)
    ensures Bag(Plug(k, t)) == All(k, t)
  {
    hide Bag;
    if k.Frame? {
      BagMake(k.d, k.p, k.c, k.x, t, k.s);
      PlugAll(k.up, Make(k.d, k.p, k.c, k.x, t, k.s));
    }
  }

  /** The colour that leaves the tree is that of `s`, whose only child `u` takes its place. */
  lemma {:induction false} CutRb<V>(k: Ctx<V>, s: Tree<V>, u: Tree<V>, h: nat)
    requires s.Bin? && ((s.l == Leaf && u == s.r) || (s.r == Leaf && u == s.l))
    requires CtxRb(k, h) && Rb(s, h)
    ensures if s.c == Black then h > 0 && Short(k, u, h - 1) else Rb(u, h) && IsBlack(u)
  {
    hide CtxRb;
    OnlyChild(s, u, h);
  }

  lemma {:induction false} OnlyChild<V>(s: Tree<V>, u: Tree<V>, h: nat)
    requires s.Bin? && ((s.l == Leaf && u == s.r) || (s.r == Leaf && u == s.l)) && Rb(s, h)
    ensures s.c == Red ==> Rb(u, h) && IsBlack(u)
    ensures s.c == Black ==> h > 0 && Rb(u, h - 1)
    ensures s.c == Black && !IsBlack(u) ==> Rb(Paint(u, Black), h)
  {
    if s.c == Black && !IsBlack(u) {
      assert Rb(u.l, h - 1) && Rb(u.r, h - 1);
    }
  }

  /** A node's item goes from a sorted sequence. */
  lemma CutContents<V>(a: seq<Item<V>>, x: Item<V>, b: seq<Item<V>>)
    requires Sorted(a + [x] + b)
    ensures Remove(a + [x] + b, x.key) == a + b && Seek(a + [x] + b, x.key) == Some(x)
  {
    hide Remove, Seek;
    assert a + ([] + [x] + b) + [] == a + [x] + b;
    SortedAround(a, [], x, b, []);
    RemoveAt(a, x, b);
    SeekAt(a, x, b);
  }

  /** A node without a right child leaves its left child. */
  lemma BypassContents<V>(k: Ctx<V>, t: Tree<V>)
    requires t.Bin? && t.r == Leaf && Sorted(Inorder(Plug(k, t)))
    ensures Inorder(Plug(k, t.l)) == Remove(Inorder(Plug(k, t)), t.x.key)
    ensures All(k, t.l) + multiset{t.p} == All(k, t)
  {
    hide Plug, Sorted, Remove, Bag, CtxBag;
    PlugInorder(k, t);
    PlugInorder(k, t.l);
    BypassBag(k, t);
    var a, b := Before(k) + Inorder(t.l), After(k);
    assert Inorder(t) == Inorder(t.l) + [t.x] + [];
    assert Inorder(Plug(k, t)) == a + [t.x] + b;
    CutContents(a, t.x, b);
  }

  lemma {:induction false} BypassBag<V>(k: Ctx<V>, t: Tree<V>)
    requires t.Bin? && t.r == Leaf
    ensures All(k, t.l) + multiset{t.p} == All(k, t)
  {
    hide CtxBag;
    assert Bag(t) == multiset{t.p} + Bag(t.l);
  }

  /** A node whose successor `s` takes over leaves the rest. */
  lemma SuccessorContents<V>(k: Ctx<V>, base: Ctx<V>, s: Tree<V>)
    requires AtSuccessor(k, base, s) && Sorted(Inorder(Plug(k, s)))
    ensures var n := Rebase(k, base, TakeOver(base, s));
            && Inorder(Plug(n, s.r)) == Remove(Inorder(Plug(k, s)), base.x.key)
            && All(n, s.r) + multiset{base.p} == All(k, s)
  {
    hide Plug, Sorted, Remove, Inorder, Bag;
    TakeOverContents(k, base, s);
    CutContents(Before(base.up) + Inorder(base.s), base.x, [s.x] + Inorder(s.r) + Passed(k, base) + After(base.up));
    MidParts(k, base, TakeOver(base, s));
    SuccessorOwnBag(s);
  }
}
