/** Memory cells of a red-black tree, and what it means that they hold a tree or a path.

    Nodes live at addresses of a store.  The address `HDR` is the pseudo-node whose left link is
    the root pointer of the table itself. */
module RbStore {
  import opened SortedItems
  import opened RedBlack

  const NULL: Ptr := 0
  const HDR: Ptr := 1

  datatype RbNode<V> = RbNode(left: Ptr, right: Ptr, data: Item<V>, color: Color)

  datatype Store<V> = Store(root: Ptr, mem: map<Ptr, RbNode<V>>) {

    /** A cell that can be read and written through. */
    predicate Has(p: Ptr) {
      p == HDR || p in mem
    }

    function Link(p: Ptr, d: Dir): Ptr
      requires Has(p)
    {
      if p == HDR then root else if d == Left then mem[p].left else mem[p].right
    }

    /** `p->rb_link[d] = q`; through the pseudo-node this writes the root pointer. */
    function SetLink(p: Ptr, d: Dir, q: Ptr): Store<V>
      requires Has(p)
    {
      if p == HDR then this.(root := q)
      else if d == Left then this.(mem := mem[p := mem[p].(left := q)])
      else this.(mem := mem[p := mem[p].(right := q)])
    }

    /** `p->rb_color = c` */
    function SetColor(p: Ptr, c: Color): Store<V>
      requires p in mem
    {
      this.(mem := mem[p := mem[p].(color := c)])
    }

    predicate IsRed(p: Ptr) {
      p != NULL && p in mem && mem[p].color == Red
    }
  }

  function Bag<V>(t: Tree<V>): multiset<Ptr> {
    match t
    case Leaf => multiset{}
    case Bin(p, _, l, _, r) => multiset{p} + Bag(l) + Bag(r)
  }

  function CtxBag<V>(k: Ctx<V>): multiset<Ptr> {
    match k
    case Top => multiset{}
    case Frame(up, _, p, _, _, s) => CtxBag(up) + multiset{p} + Bag(s)
  }

  /** No address occurs twice, and none is special. */
  ghost predicate Apart(b: multiset<Ptr>) {
    b[NULL] == 0 && b[HDR] == 0 && forall p | p in b :: b[p] == 1
  }

  function Root<V>(t: Tree<V>): Ptr {
    if t.Leaf? then NULL else t.p
  }

  /** The cells under `p` hold the tree. */
  ghost predicate Rep<V>(st: Store<V>, p: Ptr, t: Tree<V>)
    decreases t
  {
    match t
    case Leaf => p == NULL
    case Bin(q, c, l, x, r) =>
      && p == q && q in st.mem && q != NULL && q != HDR
      && st.mem[q].color == c && st.mem[q].data == x
      && Rep(st, st.mem[q].left, l) && Rep(st, st.mem[q].right, r)
  }

  /** The cell with the hole, and the direction of the hole in it. */
  function Hole<V>(k: Ctx<V>): Ptr {
    if k.Top? then HDR else k.p
  }

  function HoleDir<V>(k: Ctx<V>): Dir {
    if k.Top? then Left else k.d
  }

  /** The cells along the path hold the path. */
  ghost predicate RepCtx<V>(st: Store<V>, k: Ctx<V>)
    decreases k
  {
    match k
    case Top => true
    case Frame(up, d, p, c, x, s) =>
      && RepCtx(st, up) && p in st.mem && p != NULL && p != HDR
      && st.Has(Hole(up)) && st.Link(Hole(up), HoleDir(up)) == p
      && st.mem[p].color == c && st.mem[p].data == x
      && Rep(st, st.Link(p, Other(d)), s)
  }

  /** The store holds the tree `Plug(k, t)`, with `t` under the hole of `k`. */
  ghost predicate State<V>(st: Store<V>, k: Ctx<V>, t: Tree<V>) {
    && Apart(CtxBag(k) + Bag(t))
    && RepCtx(st, k)
    && st.Has(Hole(k)) && Rep(st, st.Link(Hole(k), HoleDir(k)), t)
  }

  // ---------------------------------------------------------------- frames

  ghost predicate SameOn<V>(st: Store<V>, st': Store<V>, b: multiset<Ptr>) {
    forall p | p in b && p in st.mem :: p in st'.mem && st'.mem[p] == st.mem[p]
  }

  lemma SameOnPart<V>(st: Store<V>, st': Store<V>, b: multiset<Ptr>, c: multiset<Ptr>)
    requires SameOn(st, st', b) && c <= b
    ensures SameOn(st, st', c)
  {
  }

  lemma {:induction false} RepFrame<V>(st: Store<V>, st': Store<V>, p: Ptr, t: Tree<V>)
    requires Rep(st, p, t) && SameOn(st, st', Bag(t))
    ensures Rep(st', p, t)
    decreases t
  {
    if t.Bin? {
      SameOnPart(st, st', Bag(t), Bag(t.l));
      SameOnPart(st, st', Bag(t), Bag(t.r));
      RepFrame(st, st', st.mem[p].left, t.l);
      RepFrame(st, st', st.mem[p].right, t.r);
    }
  }

  /** Cells that agree except for the link under the hole. */
  ghost predicate SameButHole<V>(st: Store<V>, st': Store<V>, k: Ctx<V>) {
    k.Frame? ==>
      && SameOn(st, st', CtxBag(k.up) + Bag(k.s)) && st'.root == st.root
      && k.p in st.mem && k.p in st'.mem && k.p != HDR
      && st'.mem[k.p].color == st.mem[k.p].color && st'.mem[k.p].data == st.mem[k.p].data
      && st'.Link(k.p, Other(k.d)) == st.Link(k.p, Other(k.d))
  }

  lemma PathParts<V>(k: Ctx<V>)
    requires k.Frame?
    ensures CtxBag(k.up) <= CtxBag(k) && Bag(k.s) <= CtxBag(k) && k.p in CtxBag(k)
  {
    hide Bag;
  }

  lemma {:induction false} PathFrame<V>(st: Store<V>, st': Store<V>, k: Ctx<V>)
    requires RepCtx(st, k) && SameOn(st, st', CtxBag(k)) && st'.root == st.root
    ensures RepCtx(st', k) && (k.Frame? ==> st'.Has(k.p) && st'.Link(k.p, k.d) == st.Link(k.p, k.d))
  {
    hide Rep, Bag, CtxBag;
    if k.Frame? {
      PathParts(k);
      SameOnPart(st, st', CtxBag(k), CtxBag(k.up));
      SameOnPart(st, st', CtxBag(k), Bag(k.s));
      PathFrame(st, st', k.up);
      RepFrame(st, st', st.Link(k.p, Other(k.d)), k.s);
    }
  }

  lemma HoleFrame<V>(st: Store<V>, st': Store<V>, k: Ctx<V>)
    requires RepCtx(st, k) && SameButHole(st, st', k)
    ensures RepCtx(st', k)
  {
    hide Rep;
    if k.Frame? {
      SameOnPart(st, st', CtxBag(k.up) + Bag(k.s), CtxBag(k.up));
      SameOnPart(st, st', CtxBag(k.up) + Bag(k.s), Bag(k.s));
      PathFrame(st, st', k.up);
      RepFrame(st, st', st.Link(k.p, Other(k.d)), k.s);
    }
  }

  /** A new subtree under the hole of an otherwise unchanged path. */
  lemma Adopt<V>(st: Store<V>, st': Store<V>, k: Ctx<V>, t: Tree<V>)
    requires RepCtx(st, k) && SameButHole(st, st', k) && Apart(CtxBag(k) + Bag(t))
    requires st'.Has(Hole(k)) && st'.Link(Hole(k), HoleDir(k)) == Root(t) && Rep(st', Root(t), t)
    ensures State(st', k, t)
  {
    HoleFrame(st, st', k);
  }

  lemma RepMake<V>(st: Store<V>, d: Dir, p: Ptr, c: Color, x: Item<V>, near: Tree<V>, far: Tree<V>)
    requires p in st.mem && p != NULL && p != HDR && st.mem[p].color == c && st.mem[p].data == x
    requires Rep(st, st.Link(p, d), near) && Rep(st, st.Link(p, Other(d)), far)
    ensures Rep(st, p, Make(d, p, c, x, near, far))
  {
  }

  lemma RepKids<V>(st: Store<V>, p: Ptr, t: Tree<V>, d: Dir)
    requires Rep(st, p, t) && t.Bin?
    ensures p == t.p && p in st.mem && p != NULL && p != HDR && st.mem[p].color == t.c && st.mem[p].data == t.x
    ensures Rep(st, st.Link(p, d), Kid(t, d)) && Rep(st, st.Link(p, Other(d)), Kid(t, Other(d)))
    ensures Bag(t) == multiset{p} + Bag(Kid(t, d)) + Bag(Kid(t, Other(d)))
  {
  }

  lemma RepRoot<V>(st: Store<V>, p: Ptr, t: Tree<V>)
    requires Rep(st, p, t)
    ensures p == Root(t) && (p == NULL <==> t.Leaf?)
    ensures t.Bin? ==> p in st.mem && st.mem[p].color == t.c && st.mem[p].data == t.x
  {
  }

  lemma BagMake<V>(d: Dir, p: Ptr, c: Color, x: Item<V>, near: Tree<V>, far: Tree<V>)
    ensures Bag(Make(d, p, c, x, near, far)) == multiset{p} + Bag(near) + Bag(far)
  {
  }
}
