/** Memory cells of an AVL tree with links to kids and to parents, what it means that they hold a tree,
    and the writes of src/tree/avltree.c as functions of the cells. */
module AvlStore {
  import opened AvlShape

  const NULL: Ptr := 0

  datatype Cell<V> = Cell(left: Ptr, right: Ptr, parent: Ptr, key: int, val: V, height: int)

  datatype Store<V> = Store(root: Ptr, mem: map<Ptr, Cell<V>>) {
    function Link(p: Ptr, d: Side): Ptr
      requires p in mem
    {
      if d == Left then mem[p].left else mem[p].right
    }

    function SetLink(p: Ptr, d: Side, q: Ptr): Store<V>
      requires p in mem
    {
      this.(mem := mem[p := if d == Left then mem[p].(left := q) else mem[p].(right := q)])
    }

    function SetParent(p: Ptr, q: Ptr): Store<V>
      requires p in mem
    {
      this.(mem := mem[p := mem[p].(parent := q)])
    }

    /** `avlTreeSubtreeHeight` */
    function HeightAt(p: Ptr): int {
      if p == NULL || p !in mem then 0 else mem[p].height
    }

    /** `avl_tree_update_height` */
    function Measure(p: Ptr): Store<V>
      requires p in mem
    {
      this.(mem := mem[p := mem[p].(height := Max(HeightAt(mem[p].left), HeightAt(mem[p].right)) + 1)])
    }

    /** `avl_tree_node_parent_side` */
    function SideOf(p: Ptr): Side
      requires p in mem && mem[p].parent in mem
    {
      if mem[mem[p].parent].left == p then Left else Right
    }

    /** A node whose parent, if it has one, is there. */
    predicate Placed(p: Ptr) {
      p in mem && (mem[p].parent == NULL || mem[p].parent in mem)
    }

    /** `avl_tree_node_replace`: what led to n1 leads to n2, and the height of its parent is computed again. */
    function Replace(n1: Ptr, n2: Ptr): Store<V>
      requires Placed(n1) && (n2 == NULL || n2 in mem)
    {
      var st := if n2 != NULL then SetParent(n2, mem[n1].parent) else this;
      var q := mem[n1].parent;
      if q == NULL then st.(root := n2) else st.SetLink(q, if st.mem[q].left == n1 then Left else Right, n2).Measure(q)
    }

    /** The links inside a rotation: x goes below its kid y, which hands over a kid of its own. */
    function Hang(x: Ptr, y: Ptr, d: Side): (su: Store<V>)
      requires x in mem && y in mem && x != y && (Link(y, d) == NULL || Link(y, d) in mem)
      ensures su.mem.Keys == mem.Keys
    {
      var c := Link(y, d);
      var st := SetLink(x, Other(d), c).SetLink(y, d, x).SetParent(x, y);
      if c != NULL then st.SetParent(c, x) else st
    }

    /** And the new heights, from above: that of y is taken from the old one of x. */
    function Spin(x: Ptr, y: Ptr, d: Side): Store<V>
      requires x in mem && y in mem && x != y && (Link(y, d) == NULL || Link(y, d) in mem)
    {
      Hang(x, y, d).Measure(y).Measure(x)
    }

    predicate CanRotate(x: Ptr, d: Side) {
      && Placed(x) && Link(x, Other(d)) in mem && Link(x, Other(d)) != x && Link(x, Other(d)) != NULL
      && var st := Replace(x, Link(x, Other(d)));
         var y := Link(x, Other(d));
         x in st.mem && y in st.mem && st.Link(x, Other(d)) == y && (st.Link(y, d) == NULL || st.Link(y, d) in st.mem)
    }

    /** `avl_tree_rotate` */
    function Rotate(x: Ptr, d: Side): Store<V>
      requires CanRotate(x, d)
    {
      var y := Link(x, Other(d));
      Replace(x, y).Spin(x, y, d)
    }
  }

  function Bag<V>(t: Tree<V>): multiset<Ptr> {
    match t
    case Leaf => multiset{}
    case Bin(l, e, _, r) => multiset{e.at} + Bag(l) + Bag(r)
  }

  function PathBag<V>(k: Path<V>): multiset<Ptr> {
    match k
    case Top => multiset{}
    case Frame(up, _, e, _, s) => PathBag(up) + multiset{e.at} + Bag(s)
  }

  /** No address occurs twice, and none is NULL. */
  ghost predicate Distinct(b: multiset<Ptr>) {
    b[NULL] == 0 && forall p | p in b :: b[p] == 1
  }

  function Root<V>(t: Tree<V>): Ptr {
    if t.Leaf? then NULL else t.e.at
  }

  /** The parent of the root, if there is one. */
  ghost predicate Below<V>(st: Store<V>, t: Tree<V>, up: Ptr) {
    t.Bin? ==> t.e.at in st.mem && st.mem[t.e.at].parent == up
  }

  /** The cell of the root, but for its own parent. */
  ghost predicate RootCell<V>(st: Store<V>, t: Tree<V>)
    requires t.Bin?
  {
    && t.e.at in st.mem && t.e.at != NULL
    && st.mem[t.e.at].key == t.e.key && st.mem[t.e.at].val == t.e.val && st.mem[t.e.at].height == t.h
    && st.mem[t.e.at].left == Root(t.l) && st.mem[t.e.at].right == Root(t.r)
    && Below(st, t.l, t.e.at) && Below(st, t.r, t.e.at)
  }

  /** The cells hold the tree; the parent of its root may be anything. */
  ghost predicate Body<V>(st: Store<V>, t: Tree<V>) {
    t.Bin? ==> RootCell(st, t) && Body(st, t.l) && Body(st, t.r)
  }

  /** The node with the hole. */
  function Hole<V>(k: Path<V>): Ptr {
    if k.Top? then NULL else k.e.at
  }

  ghost predicate Leads<V>(st: Store<V>, k: Path<V>, p: Ptr) {
    if k.Top? then st.root == p else k.e.at in st.mem && st.Link(k.e.at, k.d) == p
  }

  /** The cells along the path hold the path. */
  ghost predicate Along<V>(st: Store<V>, k: Path<V>)
    decreases k
  {
    match k
    case Top => true
    case Frame(up, d, e, h, s) =>
      && e.at in st.mem && e.at != NULL
      && st.mem[e.at].key == e.key && st.mem[e.at].val == e.val && st.mem[e.at].height == h
         && st.mem[e.at].parent == Hole(up)
      && st.Link(e.at, Other(d)) == Root(s) && Body(st, s) && Below(st, s, e.at)
      && Leads(st, up, e.at) && Along(st, up)
  }

  /** The cells hold the tree `Plug(k, t)`, with `t` in the hole of `k`. */
  ghost predicate State<V>(st: Store<V>, k: Path<V>, t: Tree<V>) {
    && Distinct(PathBag(k) + Bag(t)) && NULL !in st.mem
    && Along(st, k) && Leads(st, k, Root(t)) && Body(st, t) && Below(st, t, Hole(k))
  }

  // ---------------------------------------------------------------- frames

  ghost predicate SameOn<V>(st: Store<V>, su: Store<V>, b: multiset<Ptr>) {
    forall p | p in b && p in st.mem :: p in su.mem && su.mem[p] == st.mem[p]
  }

  lemma SameOnPart<V>(st: Store<V>, su: Store<V>, b: multiset<Ptr>, c: multiset<Ptr>)
    requires SameOn(st, su, b) && c <= b
    ensures SameOn(st, su, c)
  {
  }

  lemma {:induction false} BodyFrame<V>(st: Store<V>, su: Store<V>, t: Tree<V>)
    requires Body(st, t) && SameOn(st, su, Bag(t))
    ensures Body(su, t)
  {
    hide RootCell, SameOn, Bag;
    if t.Bin? {
      BagKids(t);
      SameOnPart(st, su, Bag(t), Bag(t.l));
      SameOnPart(st, su, Bag(t), Bag(t.r));
      BodyFrame(st, su, t.l);
      BodyFrame(st, su, t.r);
      RootFrame(st, su, t);
    }
  }

  lemma RootFrame<V>(st: Store<V>, su: Store<V>, t: Tree<V>)
    requires t.Bin? && RootCell(st, t) && SameOn(st, su, Bag(t))
    ensures RootCell(su, t)
  {
    BagKids(t);
    hide Bag;
  }

  lemma BelowFrame<V>(st: Store<V>, su: Store<V>, t: Tree<V>, up: Ptr)
    requires Below(st, t, up) && SameOn(st, su, Bag(t))
    ensures Below(su, t, up)
  {
    if t.Bin? { BagKids(t); }
  }

  lemma BagKids<V>(t: Tree<V>)
    requires t.Bin?
    ensures Bag(t) == multiset{t.e.at} + Bag(t.l) + Bag(t.r)
    ensures t.e.at in Bag(t) && (t.l.Bin? ==> t.l.e.at in Bag(t)) && (t.r.Bin? ==> t.r.e.at in Bag(t))
    ensures Bag(t.l) <= Bag(t) && Bag(t.r) <= Bag(t)
  {
  }

  /** Only the root cell may change. */
  ghost predicate SameBelow<V>(st: Store<V>, su: Store<V>, t: Tree<V>) {
    t.Bin? ==> SameOn(st, su, Bag(t.l)) && SameOn(st, su, Bag(t.r))
  }

  lemma KidsSame<V>(st: Store<V>, su: Store<V>, t: Tree<V>)
    requires Distinct(Bag(t)) && forall p | p in Bag(t) && p != Root(t) && p in st.mem ::
             p in su.mem && su.mem[p] == st.mem[p]
    ensures SameBelow(st, su, t)
  {
    if t.Bin? {
      BagKids(t);
      RootOnce(t);
      hide Bag, Distinct;
    }
  }

  lemma RootMoved<V>(st: Store<V>, su: Store<V>, t: Tree<V>)
    requires t.Bin? && RootCell(st, t) && SameCell(st, su, t.e.at) && SameBelow(st, su, t)
    ensures RootCell(su, t)
  {
    hide SameOn, Below, Bag;
    BelowFrame(st, su, t.l, t.e.at);
    BelowFrame(st, su, t.r, t.e.at);
  }

  /** Only the parent of the root may change. */
  lemma BodyRoot<V>(st: Store<V>, su: Store<V>, t: Tree<V>)
    requires Body(st, t) && SameBelow(st, su, t)
    requires t.Bin? ==> SameCell(st, su, t.e.at)
    ensures Body(su, t)
  {
    hide SameOn, RootCell, Bag;
    if t.Bin? {
      BodyFrame(st, su, t.l);
      BodyFrame(st, su, t.r);
      RootMoved(st, su, t);
    }
  }

  lemma BodyKids<V>(st: Store<V>, t: Tree<V>)
    requires Body(st, t) && t.Bin?
    ensures RootCell(st, t) && Body(st, t.l) && Body(st, t.r)
  {
  }

  lemma BodyMake<V>(st: Store<V>, t: Tree<V>)
    requires t.Bin? && RootCell(st, t) && Body(st, t.l) && Body(st, t.r)
    ensures Body(st, t)
  {
  }

  lemma RootOnce<V>(t: Tree<V>)
    requires t.Bin? && Distinct(Bag(t))
    ensures t.e.at !in Bag(t.l) && t.e.at !in Bag(t.r) && Distinct(Bag(t.l)) && Distinct(Bag(t.r))
  {
    var b := Bag(t);
    assert b == multiset{t.e.at} + Bag(t.l) + Bag(t.r);
    assert b[t.e.at] == 1 + Bag(t.l)[t.e.at] + Bag(t.r)[t.e.at];
    forall p | p in Bag(t.l) || p in Bag(t.r) ensures b[p] == 1 && b[p] >= Bag(t.l)[p] && b[p] >= Bag(t.r)[p] {
      assert p in b;
    }
  }

  /** The same but for the parent. */
  ghost predicate SameCell<V>(st: Store<V>, su: Store<V>, p: Ptr) {
    p in st.mem && p in su.mem && su.mem[p] == st.mem[p].(parent := su.mem[p].parent)
  }

  lemma {:induction false} AlongFrame<V>(st: Store<V>, su: Store<V>, k: Path<V>)
    requires Along(st, k) && SameOn(st, su, PathBag(k)) && su.root == st.root
    ensures Along(su, k) && forall p :: Leads(st, k, p) ==> Leads(su, k, p)
  {
    hide Body, Bag;
    if k.Frame? {
      PathParts(k);
      SameOnPart(st, su, PathBag(k), PathBag(k.up));
      SameOnPart(st, su, PathBag(k), Bag(k.s));
      AlongFrame(st, su, k.up);
      BodyFrame(st, su, k.s);
      BelowFrame(st, su, k.s, k.e.at);
    }
  }

  lemma PathParts<V>(k: Path<V>)
    requires k.Frame?
    ensures PathBag(k.up) <= PathBag(k) && Bag(k.s) <= PathBag(k) && k.e.at in PathBag(k)
  {
    hide Bag;
  }

  // ---------------------------------------------------------------- replacing a node at its parent

  /** Cells other than these are the same, and none comes or goes. */
  ghost predicate OnlyAt<V>(st: Store<V>, su: Store<V>, p: Ptr, q: Ptr) {
    su.mem.Keys == st.mem.Keys && forall r | r in st.mem && r != p && r != q :: su.mem[r] == st.mem[r]
  }

  /** What `Replace` writes; d is the side of n1 at its parent q. */
  ghost predicate Replaced<V>(st: Store<V>, su: Store<V>, n2: Ptr, q: Ptr, d: Side) {
    && OnlyAt(st, su, n2, q)
    && (n2 != NULL ==> n2 in st.mem && n2 in su.mem && su.mem[n2] == st.mem[n2].(parent := q))
    && (if q == NULL then su.root == n2
        else q in st.mem && q in su.mem && su.root == st.root && su.Link(q, d) == n2
             && su.Link(q, Other(d)) == st.Link(q, Other(d))
             && su.mem[q].key == st.mem[q].key && su.mem[q].val == st.mem[q].val && su.mem[q].parent == st.mem[q].parent
             && su.mem[q].height == Max(st.HeightAt(n2), st.HeightAt(st.Link(q, Other(d)))) + 1)
  }

  lemma ReplaceCells<V>(st: Store<V>, n1: Ptr, n2: Ptr, d: Side)
    requires st.Placed(n1) && NULL !in st.mem && (n2 == NULL || (n2 in st.mem && n2 != st.mem[n1].parent))
    requires var q := st.mem[n1].parent; q != NULL ==> st.Link(q, d) == n1 && st.Link(q, Other(d)) != n1
    ensures Replaced(st, st.Replace(n1, n2), n2, st.mem[n1].parent, d)
  {
  }

  /** A new tree in the hole of a path; the last node of the path was measured for it. */
  lemma NewHole<V>(st: Store<V>, su: Store<V>, k: Path<V>, u: Tree<V>)
    requires k.Frame? && Along(st, k) && Replaced(st, su, Root(u), k.e.at, k.d) && st.HeightAt(Root(u)) == Height(u)
    requires SameOn(st, su, PathBag(k.up)) && SameOn(st, su, Bag(k.s))
    ensures Along(su, Touched(k, Height(u))) && Leads(su, k, Root(u))
  {
    hide Body, Bag, SameOn, PathBag;
    AlongFrame(st, su, k.up);
    BodyFrame(st, su, k.s);
    BelowFrame(st, su, k.s, k.e.at);
    BodyHeight(st, k.s);
  }

  lemma BodyHeight<V>(st: Store<V>, t: Tree<V>)
    requires Body(st, t)
    ensures st.HeightAt(Root(t)) == Height(t)
  {
  }

  /** The node p is in the hole of the path; what its cell says of its kids does not matter. */
  ghost predicate InHole<V>(st: Store<V>, k: Path<V>, p: Ptr) {
    && NULL !in st.mem && Along(st, k) && Leads(st, k, p) && p in st.mem && st.mem[p].parent == Hole(k)
       && p !in PathBag(k)
    && (k.Frame? ==> k.e.at in st.mem && k.e.at != NULL)
  }

  lemma StateHole<V>(st: Store<V>, k: Path<V>, t: Tree<V>)
    requires State(st, k, t) && t.Bin?
    ensures InHole(st, k, t.e.at)
  {
    hide Bag, Along, PathBag, Distinct;
    StateOpen(st, k, t);
    PathApart(k, t);
    RootInBag(t);
  }

  /** The links of a node lead to different nodes. */
  lemma HoleSide<V>(st: Store<V>, k: Path<V>, p: Ptr)
    requires InHole(st, k, p) && k.Frame?
    ensures st.Link(k.e.at, k.d) == p && st.Link(k.e.at, Other(k.d)) != p
  {
    hide Body;
    PathParts(k);
    RootInBag(k.s);
  }

  /** Addresses of a path and of what hangs in it do not meet. */
  lemma PathApart<V>(k: Path<V>, t: Tree<V>)
    requires Distinct(PathBag(k) + Bag(t))
    ensures forall p | p in Bag(t) :: p !in PathBag(k)
    ensures k.Frame? ==> k.e.at !in Bag(t) && k.e.at !in PathBag(k.up) && k.e.at !in Bag(k.s) && k.e.at != NULL
    ensures k.Frame? ==> forall p | p in Bag(t) :: p !in PathBag(k.up) && p !in Bag(k.s)
    ensures Distinct(Bag(t))
  {
    hide Bag;
    var b := PathBag(k) + Bag(t);
    forall p | p in Bag(t) ensures p !in PathBag(k) && Bag(t)[p] == 1 {
      assert p in b && b[p] == PathBag(k)[p] + Bag(t)[p];
    }
    if k.Frame? {
      assert k.e.at in b && b[k.e.at] == PathBag(k.up)[k.e.at] + 1 + Bag(k.s)[k.e.at] + Bag(t)[k.e.at];
      assert b[NULL] == 0;
    }
  }

  lemma OnlySame<V>(st: Store<V>, su: Store<V>, p: Ptr, q: Ptr, b: multiset<Ptr>)
    requires OnlyAt(st, su, p, q) && p !in b && q !in b
    ensures SameOn(st, su, b)
  {
  }

  lemma StateOpen<V>(st: Store<V>, k: Path<V>, t: Tree<V>)
    requires State(st, k, t)
    ensures Distinct(PathBag(k) + Bag(t)) && NULL !in st.mem && Along(st, k) && Leads(st, k, Root(t)) && Body(st, t)
    ensures t.Bin? ==> t.e.at in st.mem && st.mem[t.e.at].parent == Hole(k)
    ensures k.Frame? ==> k.e.at in st.mem && k.e.at != NULL
  {
    hide Distinct, Bag, PathBag;
  }

  lemma BodyRootIn<V>(st: Store<V>, u: Tree<V>)
    requires Body(st, u)
    ensures st.HeightAt(Root(u)) == Height(u) && (u.Bin? ==> u.e.at in st.mem && u.e.at != NULL)
  {
  }

  lemma RootInBag<V>(u: Tree<V>)
    ensures u.Bin? ==> u.e.at in Bag(u)
  {
  }

  lemma TouchedBag<V>(k: Path<V>, h: int)
    ensures PathBag(Touched(k, h)) == PathBag(k) && Hole(Touched(k, h)) == Hole(k)
  {
  }

  lemma ReplacedHole<V>(st: Store<V>, su: Store<V>, k: Path<V>, u: Tree<V>)
    requires Along(st, k) && Replaced(st, su, Root(u), Hole(k), if k.Frame? then k.d else Left)
             && Distinct(PathBag(k) + Bag(u)) && Body(st, u)
    requires k.Frame? ==> k.e.at != NULL
    ensures Along(su, Touched(k, Height(u))) && Leads(su, Touched(k, Height(u)), Root(u))
  {
    hide Distinct, Bag, PathBag, Along, Body, SameOn;
    PathApart(k, u);
    RootInBag(u);
    BodyRootIn(st, u);
    if k.Frame? {
      NullApart(k, u);
      OnlySame(st, su, Root(u), k.e.at, PathBag(k.up));
      OnlySame(st, su, Root(u), k.e.at, Bag(k.s));
      NewHole(st, su, k, u);
    } else {
      TopAlong(su, Height(u));
    }
  }

  lemma TopAlong<V>(su: Store<V>, h: int)
    ensures Along(su, Touched(Top, h))
  {
  }

  lemma NullApart<V>(k: Path<V>, u: Tree<V>)
    requires k.Frame? && Distinct(PathBag(k) + Bag(u))
    ensures NULL !in PathBag(k.up) && NULL !in Bag(k.s)
  {
    hide Bag;
    var b := PathBag(k) + Bag(u);
    assert b[NULL] == PathBag(k.up)[NULL] + (if k.e.at == NULL then 1 else 0) + Bag(k.s)[NULL] + Bag(u)[NULL];
  }

  lemma ReplacedBody<V>(st: Store<V>, su: Store<V>, k: Path<V>, u: Tree<V>)
    requires Replaced(st, su, Root(u), Hole(k), if k.Frame? then k.d else Left) && Distinct(PathBag(k) + Bag(u))
             && Body(st, u)
    ensures Body(su, u) && Below(su, u, Hole(k))
  {
    hide Distinct, Bag, PathBag, Body;
    PathApart(k, u);
    BodyRootIn(st, u);
    if u.Bin? {
      NullBag(k, u);
      KidsSame(st, su, u);
      BodyRoot(st, su, u);
    } else {
      LeafBody(su, u);
    }
  }

  lemma LeafBody<V>(su: Store<V>, u: Tree<V>)
    requires u.Leaf?
    ensures Body(su, u)
  {
  }

  lemma NullBag<V>(k: Path<V>, u: Tree<V>)
    requires Distinct(PathBag(k) + Bag(u))
    ensures NULL !in Bag(u)
  {
    hide Bag, PathBag;
    assert (PathBag(k) + Bag(u))[NULL] == PathBag(k)[NULL] + Bag(u)[NULL];
  }

  /** `avl_tree_node_replace` puts another tree in the place of a node. */
  lemma ReplaceState<V>(st: Store<V>, k: Path<V>, p: Ptr, u: Tree<V>)
    requires InHole(st, k, p) && Body(st, u) && Distinct(PathBag(k) + Bag(u))
    ensures st.Placed(p) && (u.Bin? ==> u.e.at in st.mem) && st.mem[p].parent == Hole(k)
    ensures var su := st.Replace(p, Root(u));
            && Replaced(st, su, Root(u), Hole(k), if k.Frame? then k.d else Left)
            && State(su, Touched(k, Height(u)), u) && su.mem.Keys == st.mem.Keys
  {
    hide Distinct, Bag, PathBag, Along, Body, Store.Replace, Replaced;
    BodyRootIn(st, u);
    PathApart(k, u);
    if k.Frame? {
      HoleSide(st, k, p);
    }
    RootInBag(u);
    ReplaceCells(st, p, Root(u), if k.Frame? then k.d else Left);
    var su := st.Replace(p, Root(u));
    ReplacedHole(st, su, k, u);
    ReplacedBody(st, su, k, u);
    TouchedBag(k, Height(u));
    ReplacedKeys(st, su, Root(u), Hole(k), if k.Frame? then k.d else Left);
  }

  lemma ReplacedKeys<V>(st: Store<V>, su: Store<V>, n2: Ptr, q: Ptr, d: Side)
    requires Replaced(st, su, n2, q, d)
    ensures su.mem.Keys == st.mem.Keys
  {
  }

  // ---------------------------------------------------------------- rotations

  /** What `Spin` writes. */
  ghost predicate Spun<V>(st: Store<V>, su: Store<V>, x: Ptr, y: Ptr, d: Side)
    requires x in st.mem && y in st.mem
  {
    var c := st.Link(y, d);
    && su.mem.Keys == st.mem.Keys && su.root == st.root
    && (forall r | r in st.mem && r != x && r != y && r != c :: su.mem[r] == st.mem[r])
    && x in su.mem && y in su.mem
    && su.Link(x, d) == st.Link(x, d) && su.Link(x, Other(d)) == c && su.mem[x].parent == y
    && su.mem[x].key == st.mem[x].key && su.mem[x].val == st.mem[x].val
    && su.mem[x].height == Max(st.HeightAt(st.Link(x, d)), st.HeightAt(c)) + 1
    && su.Link(y, d) == x && su.Link(y, Other(d)) == st.Link(y, Other(d)) && su.mem[y].parent == st.mem[y].parent
    && su.mem[y].key == st.mem[y].key && su.mem[y].val == st.mem[y].val
    && su.mem[y].height == Max(st.HeightAt(x), st.HeightAt(st.Link(y, Other(d)))) + 1
    && (c != NULL ==> c in su.mem && c in st.mem && su.mem[c] == st.mem[c].(parent := x))
  }

  /** What `Hang` writes. */
  ghost predicate Hung<V>(st: Store<V>, su: Store<V>, x: Ptr, y: Ptr, d: Side)
    requires x in st.mem && y in st.mem
  {
    var c := st.Link(y, d);
    && su.mem.Keys == st.mem.Keys && su.root == st.root
    && (forall r | r in st.mem && r != x && r != y && r != c :: su.mem[r] == st.mem[r])
    && x in su.mem && y in su.mem
    && su.Link(x, d) == st.Link(x, d) && su.Link(x, Other(d)) == c && su.mem[x].parent == y
    && su.mem[x].key == st.mem[x].key && su.mem[x].val == st.mem[x].val && su.mem[x].height == st.mem[x].height
    && su.Link(y, d) == x && su.Link(y, Other(d)) == st.Link(y, Other(d)) && su.mem[y].parent == st.mem[y].parent
    && su.mem[y].key == st.mem[y].key && su.mem[y].val == st.mem[y].val
    && (c != NULL ==> c in su.mem && c in st.mem && su.mem[c] == st.mem[c].(parent := x))
  }

  lemma HangCells<V>(st: Store<V>, x: Ptr, y: Ptr, d: Side)
    requires x in st.mem && y in st.mem && x != y
    requires var c := st.Link(y, d); c != x && c != y && (c == NULL || c in st.mem)
    ensures Hung(st, st.Hang(x, y, d), x, y, d)
  {
    if d == Left {} else {}
  }

  lemma HeightKept<V>(st: Store<V>, su: Store<V>, x: Ptr, y: Ptr, d: Side, p: Ptr)
    requires x in st.mem && y in st.mem && Hung(st, su, x, y, d) && p != y && NULL !in st.mem
    ensures su.HeightAt(p) == st.HeightAt(p)
  {
  }

  lemma MeasureCells<V>(st: Store<V>, x: Ptr, y: Ptr)
    requires x in st.mem && y in st.mem && x != y
    requires st.mem[x].left != y && st.mem[x].right != y
    ensures var su := st.Measure(y).Measure(x);
            && su.mem.Keys == st.mem.Keys && su.root == st.root
            && (forall r | r in st.mem && r != x && r != y :: su.mem[r] == st.mem[r])
            && su.mem[y] == st.mem[y].(height := Max(st.HeightAt(st.mem[y].left), st.HeightAt(st.mem[y].right)) + 1)
            && su.mem[x] == st.mem[x].(height := Max(st.HeightAt(st.mem[x].left), st.HeightAt(st.mem[x].right)) + 1)
  {
  }

  lemma SpinCells<V>(st: Store<V>, x: Ptr, y: Ptr, d: Side)
    requires x in st.mem && y in st.mem && x != y && x != NULL && y != NULL && NULL !in st.mem
    requires var c := st.Link(y, d); c != x && c != y && (c == NULL || c in st.mem)
    requires st.Link(x, d) != x && st.Link(x, d) != y && st.Link(y, Other(d)) != x && st.Link(y, Other(d)) != y
    ensures Spun(st, st.Spin(x, y, d), x, y, d)
  {
    hide Store.Hang, Store.Measure, Store.HeightAt;
    HangCells(st, x, y, d);
    var su := st.Hang(x, y, d);
    HeightKept(st, su, x, y, d, st.Link(x, d));
    HeightKept(st, su, x, y, d, st.Link(y, d));
    HeightKept(st, su, x, y, d, x);
    HeightKept(st, su, x, y, d, st.Link(y, Other(d)));
    if d == Left {} else {}
    MeasureCells(su, x, y);
  }

  /** A node seen from either side. */
  lemma RootSides<V>(st: Store<V>, d: Side, e: Entry<V>, h: int, near: Tree<V>, far: Tree<V>)
    ensures RootCell(st, Make(d, e, h, near, far)) <==>
            && e.at in st.mem && e.at != NULL && st.mem[e.at].key == e.key && st.mem[e.at].val == e.val
               && st.mem[e.at].height == h
            && st.Link(e.at, d) == Root(near) && st.Link(e.at, Other(d)) == Root(far) && Below(st, near, e.at)
               && Below(st, far, e.at)
  {
  }

  lemma BagSides<V>(d: Side, e: Entry<V>, h: int, near: Tree<V>, far: Tree<V>)
    ensures Bag(Make(d, e, h, near, far)) == multiset{e.at} + Bag(near) + Bag(far)
  {
  }

  lemma KidSides<V>(t: Tree<V>, d: Side)
    requires t.Bin?
    ensures t == Make(d, t.e, t.h, Kid(t, d), Kid(t, Other(d)))
  {
  }

  lemma BodySides<V>(st: Store<V>, t: Tree<V>, d: Side)
    requires Body(st, t) && t.Bin?
    ensures t.e.at in st.mem && t.e.at != NULL && st.mem[t.e.at].key == t.e.key && st.mem[t.e.at].val == t.e.val
            && st.mem[t.e.at].height == t.h
    ensures st.Link(t.e.at, d) == Root(Kid(t, d)) && st.Link(t.e.at, Other(d)) == Root(Kid(t, Other(d)))
    ensures Below(st, Kid(t, d), t.e.at) && Below(st, Kid(t, Other(d)), t.e.at) && Body(st, Kid(t, d))
            && Body(st, Kid(t, Other(d)))
    ensures Bag(t) == multiset{t.e.at} + Bag(Kid(t, d)) + Bag(Kid(t, Other(d)))
  {
    hide Bag;
    BagKids(t);
  }

  lemma BodyJoin<V>(st: Store<V>, d: Side, e: Entry<V>, h: int, near: Tree<V>, far: Tree<V>)
    requires RootCell(st, Make(d, e, h, near, far)) && Body(st, near) && Body(st, far)
    ensures Body(st, Make(d, e, h, near, far))
  {
  }

  /** Three subtrees and two nodes, all apart. */
  lemma FiveApart<V>(b: multiset<Ptr>, x: Ptr, y: Ptr, a: Tree<V>, c: Tree<V>, e: Tree<V>)
    requires Distinct(b + (multiset{x} + Bag(a) + (multiset{y} + Bag(c) + Bag(e))))
    ensures x != y && x != NULL && y != NULL && x !in b && y !in b
    ensures x !in Bag(a) && x !in Bag(c) && x !in Bag(e) && y !in Bag(a) && y !in Bag(c) && y !in Bag(e)
    ensures forall p | p in Bag(c) :: p !in b && p !in Bag(a) && p !in Bag(e)
    ensures NULL !in Bag(a) && NULL !in Bag(c) && NULL !in Bag(e) && NULL !in b
    ensures Distinct(Bag(c))
  {
    hide Bag;
    var w := b + (multiset{x} + Bag(a) + (multiset{y} + Bag(c) + Bag(e)));
    forall p: Ptr ensures w[p] == b[p] + (if p == x then 1 else 0) + Bag(a)[p] + (if p == y then 1 else 0) + Bag(c)[p]
      + Bag(e)[p] {
    }
    assert x in w && y in w && w[NULL] == 0;
    forall p | p in Bag(c) ensures p in w && w[p] == 1 {
    }
  }

  lemma MakeKids<V>(d: Side, e: Entry<V>, h: int, near: Tree<V>, far: Tree<V>)
    ensures var t := Make(d, e, h, near, far);
            t.Bin? && t.e == e && t.h == h && Kid(t, d) == near && Kid(t, Other(d)) == far
  {
  }

  lemma RootsDiffer<V>(b: multiset<Ptr>, x: Ptr, y: Ptr, a: Tree<V>, c: Tree<V>, e: Tree<V>)
    requires Distinct(b + (multiset{x} + Bag(a) + (multiset{y} + Bag(c) + Bag(e))))
    ensures Root(a) != x && Root(a) != y && Root(c) != x && Root(c) != y && Root(e) != x && Root(e) != y
    ensures (Root(a) == NULL || Root(a) != Root(c)) && (Root(e) == NULL || Root(e) != Root(c))
  {
    hide Bag, Distinct;
    FiveApart(b, x, y, a, c, e);
    RootInBag(a);
    RootInBag(c);
    RootInBag(e);
  }

  lemma SpunSame<V>(st: Store<V>, su: Store<V>, x: Ptr, y: Ptr, d: Side, b: multiset<Ptr>)
    requires x in st.mem && y in st.mem && Spun(st, su, x, y, d) && x !in b && y !in b && st.Link(y, d) !in b
    ensures SameOn(st, su, b)
  {
  }

  /** The subtree that changes hands. */
  lemma SpunMiddle<V>(st: Store<V>, su: Store<V>, x: Ptr, y: Ptr, d: Side, c: Tree<V>)
    requires x in st.mem && y in st.mem && Spun(st, su, x, y, d) && Body(st, c) && st.Link(y, d) == Root(c)
    requires x !in Bag(c) && y !in Bag(c) && Distinct(Bag(c))
    ensures Body(su, c) && Below(su, c, x)
  {
    hide Bag, Body, Distinct;
    BodyRootIn(st, c);
    RootInBag(c);
    if c.Bin? {
      KidsSame(st, su, c);
      BodyRoot(st, su, c);
    } else {
      LeafBody(su, c);
    }
  }

  /** The two nodes after the rotation. */
  lemma SpunNodes<V>(st: Store<V>, su: Store<V>, x: Entry<V>, hx: int, y: Entry<V>, d: Side, a: Tree<V>, c: Tree<V>,
                     e: Tree<V>)
    requires x.at in st.mem && y.at in st.mem && Spun(st, su, x.at, y.at, d) && x.at != NULL && y.at != NULL
    requires st.mem[x.at].key == x.key && st.mem[x.at].val == x.val && st.mem[x.at].height == hx
    requires st.mem[y.at].key == y.key && st.mem[y.at].val == y.val
    requires st.Link(x.at, d) == Root(a) && st.Link(y.at, d) == Root(c) && st.Link(y.at, Other(d)) == Root(e)
    requires st.HeightAt(Root(a)) == Height(a) && st.HeightAt(Root(c)) == Height(c) && st.HeightAt(Root(e)) == Height(e)
    requires Below(su, a, x.at) && Below(su, c, x.at) && Below(su, e, y.at) && Body(su, a) && Body(su, c) && Body(su, e)
    ensures Body(su, Make(d, y, Max(hx, Height(e)) + 1, Make(d, x, Max(Height(a), Height(c)) + 1, a, c), e))
  {
    hide Body, RootCell;
    var x' := Make(d, x, Max(Height(a), Height(c)) + 1, a, c);
    RootSides(su, d, x, Max(Height(a), Height(c)) + 1, a, c);
    BodyJoin(su, d, x, Max(Height(a), Height(c)) + 1, a, c);
    MakeKids(d, x, Max(Height(a), Height(c)) + 1, a, c);
    RootSides(su, d, y, Max(hx, Height(e)) + 1, x', e);
    BodyJoin(su, d, y, Max(hx, Height(e)) + 1, x', e);
  }

  /** The second half of a rotation: y is in the hole already, x still holds what it held. */
  lemma SpinState<V>(st: Store<V>, k: Path<V>, x: Entry<V>, hx: int, y: Entry<V>, hy: int, d: Side, a: Tree<V>,
                     c: Tree<V>, e: Tree<V>)
    requires State(st, k, Make(d, y, hy, c, e))
             && Distinct(PathBag(k) + (multiset{x.at} + Bag(a) + (multiset{y.at} + Bag(c) + Bag(e))))
    requires x.at in st.mem && st.mem[x.at].key == x.key && st.mem[x.at].val == x.val && st.mem[x.at].height == hx
    requires st.Link(x.at, d) == Root(a) && Below(st, a, x.at) && Body(st, a)
    ensures y.at in st.mem && x.at != y.at && (st.Link(y.at, d) == NULL || st.Link(y.at, d) in st.mem)
    ensures State(st.Spin(x.at, y.at, d), k, Make(d, y, Max(hx, Height(e)) + 1,
            Make(d, x, Max(Height(a), Height(c)) + 1, a, c), e))
  {
    hide Distinct, Bag, PathBag, Along, Body, Store.Spin, SameOn, Spun, Below, RootCell;
    var t := Make(d, y, hy, c, e);
    StateOpen(st, k, t);
    MakeKids(d, y, hy, c, e);
    BodySides(st, t, d);
    FiveApart(PathBag(k), x.at, y.at, a, c, e);
    RootInBag(c);
    BodyRootIn(st, a);
    BodyRootIn(st, c);
    BodyRootIn(st, e);
    RootsDiffer(PathBag(k), x.at, y.at, a, c, e);
    SpinCells(st, x.at, y.at, d);
    var su := st.Spin(x.at, y.at, d);
    SpunSame(st, su, x.at, y.at, d, PathBag(k));
    SpunSame(st, su, x.at, y.at, d, Bag(a));
    SpunSame(st, su, x.at, y.at, d, Bag(e));
    SpunMiddle(st, su, x.at, y.at, d, c);
    BodyFrame(st, su, a);
    BodyFrame(st, su, e);
    BelowFrame(st, su, a, x.at);
    BelowFrame(st, su, e, y.at);
    SpunNodes(st, su, x, hx, y, d, a, c, e);
    SpunRest(st, su, x, hx, y, hy, d, k, a, c, e);
  }

  /** The path, and the addresses in use. */
  lemma SpunRest<V>(st: Store<V>, su: Store<V>, x: Entry<V>, hx: int, y: Entry<V>, hy: int, d: Side, k: Path<V>,
                    a: Tree<V>, c: Tree<V>, e: Tree<V>)
    requires State(st, k, Make(d, y, hy, c, e))
             && Distinct(PathBag(k) + (multiset{x.at} + Bag(a) + (multiset{y.at} + Bag(c) + Bag(e))))
    requires x.at in st.mem && y.at in st.mem && Spun(st, su, x.at, y.at, d) && SameOn(st, su, PathBag(k))
    requires var u := Make(d, y, Max(hx, Height(e)) + 1, Make(d, x, Max(Height(a), Height(c)) + 1, a, c), e);
             Body(su, u)
    ensures State(su, k, Make(d, y, Max(hx, Height(e)) + 1, Make(d, x, Max(Height(a), Height(c)) + 1, a, c), e))
  {
    hide Bag, PathBag, Along, Body, SameOn, RootCell, Distinct;
    var (x', t) := (Make(d, x, Max(Height(a), Height(c)) + 1, a, c), Make(d, y, hy, c, e));
    var u := Make(d, y, Max(hx, Height(e)) + 1, x', e);
    MakeKids(d, y, hy, c, e);
    MakeKids(d, y, Max(hx, Height(e)) + 1, x', e);
    StateOpen(st, k, t);
    AlongFrame(st, su, k);
    BagSides(d, x, Max(Height(a), Height(c)) + 1, a, c);
    BagSides(d, y, Max(hx, Height(e)) + 1, x', e);
    SpunBag(PathBag(k), multiset{x.at}, multiset{y.at}, Bag(a), Bag(c), Bag(e));
  }

  lemma SpunBag(b: multiset<Ptr>, x: multiset<Ptr>, y: multiset<Ptr>, a: multiset<Ptr>, c: multiset<Ptr>,
                e: multiset<Ptr>)
    ensures b + (x + a + (y + c + e)) == b + (y + (x + a + c) + e)
  {
  }

  /** `avl_tree_rotate` rotates the tree in the hole, stale height included, and measures the node above it. */
  lemma RotateState<V>(st: Store<V>, k: Path<V>, t: Tree<V>, d: Side)
    requires State(st, k, t) && t.Bin? && Kid(t, Other(d)).Bin?
    ensures st.CanRotate(t.e.at, d) && st.Link(t.e.at, Other(d)) == Kid(t, Other(d)).e.at
    ensures State(st.Rotate(t.e.at, d), Touched(k, Height(Kid(t, Other(d)))), Rotated(t, d))
  {
    hide Distinct, Bag, PathBag, Along, Body, Store.Spin, Store.Replace, SameOn, Spun, Below, RootCell, Replaced,
         State, InHole;
    var y := Kid(t, Other(d));
    var (a, c, e) := (Kid(t, d), Kid(y, d), Kid(y, Other(d)));
    StateOpen(st, k, t);
    BodySides(st, t, d);
    BodySides(st, y, d);
    KidSides(y, d);
    FiveApart(PathBag(k), t.e.at, y.e.at, a, c, e);
    RotateBags(PathBag(k), Bag(a), Bag(y), multiset{t.e.at});
    StateHole(st, k, t);
    ReplaceState(st, k, t.e.at, y);
    var (s1, k1) := (st.Replace(t.e.at, y.e.at), Touched(k, Height(y)));
    TouchedBag(k, Height(y));
    RootKept(st, s1, k, t, y, d);
    SpinState(s1, k1, t.e, t.h, y.e, y.h, d, a, c, e);
  }

  lemma RotateBags(b: multiset<Ptr>, a: multiset<Ptr>, y: multiset<Ptr>, x: multiset<Ptr>)
    requires Distinct(b + (x + a + y))
    ensures Distinct(b + y)
  {
    forall p | p in b + y ensures (b + y)[p] == 1 {
      assert p in b + (x + a + y) && (b + (x + a + y))[p] == (b + y)[p] + (x + a)[p];
    }
    assert (b + (x + a + y))[NULL] == (b + y)[NULL] + (x + a)[NULL];
  }

  /** The node that is taken down keeps its cell and its other kid. */
  lemma RootKept<V>(st: Store<V>, s1: Store<V>, k: Path<V>, t: Tree<V>, y: Tree<V>, d: Side)
    requires State(st, k, t) && t.Bin? && y.Bin? && Kid(t, Other(d)) == y
             && Replaced(st, s1, y.e.at, Hole(k), if k.Frame? then k.d else Left)
    ensures t.e.at in s1.mem && s1.mem[t.e.at] == st.mem[t.e.at]
    ensures Below(s1, Kid(t, d), t.e.at) && Body(s1, Kid(t, d)) && s1.Link(t.e.at, d) == Root(Kid(t, d))
            && s1.Link(t.e.at, Other(d)) == y.e.at
  {
    hide Distinct, Bag, PathBag, Along, Body, SameOn, RootCell;
    StateOpen(st, k, t);
    BodySides(st, t, d);
    BodySides(st, y, d);
    var a := Kid(t, d);
    FiveApart(PathBag(k), t.e.at, y.e.at, a, Kid(y, d), Kid(y, Other(d)));
    HoleIn(k);
    PathApart(k, t);
    assert Bag(a) <= Bag(t);
    OnlySame(st, s1, y.e.at, Hole(k), Bag(a));
    BodyFrame(st, s1, a);
    BelowFrame(st, s1, a, t.e.at);
  }

  lemma HoleIn<V>(k: Path<V>)
    ensures k.Frame? ==> Hole(k) in PathBag(k)
  {
  }
}
