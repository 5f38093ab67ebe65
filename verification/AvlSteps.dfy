/** Moving the focus in the cells of an AVL tree, and the single steps of insertion and removal. */
module AvlSteps {
  import opened AvlShape
  import opened AvlStore

  // ---------------------------------------------------------------- moving the focus

  lemma RaiseState<V>(st: Store<V>, k: Path<V>, t: Tree<V>)
    requires State(st, k, t) && k.Frame?
    ensures State(st, k.up, Make(k.d, k.e, k.h, t, k.s))
  {
    hide Body, Distinct, Bag, PathBag, RootCell;
    StateOpen(st, k, t);
    AlongOpen(st, k);
    var n := Make(k.d, k.e, k.h, t, k.s);
    MakeKids(k.d, k.e, k.h, t, k.s);
    RootSides(st, k.d, k.e, k.h, t, k.s);
    BodyJoin(st, k.d, k.e, k.h, t, k.s);
    RaiseBag(k, t);
  }

  lemma AlongOpen<V>(st: Store<V>, k: Path<V>)
    requires Along(st, k) && k.Frame?
    ensures k.e.at in st.mem && k.e.at != NULL && st.mem[k.e.at].key == k.e.key && st.mem[k.e.at].val == k.e.val
    ensures st.mem[k.e.at].height == k.h && st.mem[k.e.at].parent == Hole(k.up)
    ensures st.Link(k.e.at, Other(k.d)) == Root(k.s) && Body(st, k.s) && Below(st, k.s, k.e.at)
            && Leads(st, k.up, k.e.at) && Along(st, k.up)
  {
    hide Body;
  }

  lemma RaiseBag<V>(k: Path<V>, t: Tree<V>)
    requires k.Frame?
    ensures PathBag(k.up) + Bag(Make(k.d, k.e, k.h, t, k.s)) == PathBag(k) + Bag(t)
  {
    hide Bag;
    BagSides(k.d, k.e, k.h, t, k.s);
  }

  ghost function Down<V>(k: Path<V>, t: Tree<V>, d: Side): Path<V>
    requires t.Bin?
  {
    Frame(k, d, t.e, t.h, Kid(t, Other(d)))
  }

  lemma LowerState<V>(st: Store<V>, k: Path<V>, t: Tree<V>, d: Side)
    requires State(st, k, t) && t.Bin?
    ensures State(st, Down(k, t, d), Kid(t, d))
    ensures Plug(Down(k, t, d), Kid(t, d)) == Plug(k, t)
  {
    hide Body, Distinct, Bag, PathBag, RootCell;
    StateOpen(st, k, t);
    BodySides(st, t, d);
    KidSides(t, d);
    RaiseBag(Down(k, t, d), Kid(t, d));
  }

  lemma {:induction false} StateUp<V>(st: Store<V>, k: Path<V>, j: Path<V>, t: Tree<V>)
    requires State(st, Append(k, j), t)
    ensures State(st, k, Plug(j, t))
    decreases j
  {
    hide State;
    if j.Frame? {
      RaiseState(st, Append(k, j), t);
      StateUp(st, k, j.up, Make(j.d, j.e, j.h, t, j.s));
    }
  }

  lemma {:induction false} StateDown<V>(st: Store<V>, k: Path<V>, j: Path<V>, t: Tree<V>)
    requires State(st, k, Plug(j, t))
    ensures State(st, Append(k, j), t)
    decreases j
  {
    hide State;
    if j.Frame? {
      var n := Make(j.d, j.e, j.h, t, j.s);
      StateDown(st, k, j.up, n);
      MakeKids(j.d, j.e, j.h, t, j.s);
      LowerState(st, Append(k, j.up), n, j.d);
    }
  }

  lemma {:induction false} AppendTop<V>(k: Path<V>)
    ensures Append(Top, k) == k
  {
    if k.Frame? { AppendTop(k.up); }
  }

  /** Every node of a tree is at the end of a path. */
  lemma {:induction false} PathTo<V>(t: Tree<V>, p: Ptr) returns (k: Path<V>, u: Tree<V>)
    requires p in Bag(t)
    ensures Plug(k, u) == t && u.Bin? && u.e.at == p
  {
    hide Bag;
    if t.Bin? {
      BagKids(t);
      if t.e.at == p {
        k, u := Top, t;
      } else {
        var d := if p in Bag(t.l) then Left else Right;
        var j;
        j, u := PathTo(Kid(t, d), p);
        k := Append(Down(Top, t, d), j);
        AppendPlug(Down(Top, t, d), j, u);
        KidSides(t, d);
      }
    } else {
      LeafBag(t);
      k, u := Top, t;
    }
  }

  lemma LeafBag<V>(t: Tree<V>)
    requires t.Leaf?
    ensures Bag(t) == multiset{}
  {
  }

  /** Measuring the root of what is in the hole. */
  lemma MeasureState<V>(st: Store<V>, k: Path<V>, t: Tree<V>)
    requires State(st, k, t) && t.Bin?
    ensures t.e.at in st.mem && State(st.Measure(t.e.at), k, Measured(t))
  {
    hide Body, Distinct, Bag, PathBag, SameOn, Along;
    StateOpen(st, k, t);
    BodySides(st, t, Left);
    var su := st.Measure(t.e.at);
    BodyRootIn(st, t.l);
    BodyRootIn(st, t.r);
    PathApart(k, t);
    RootOnce(t);
    RootInBag(t);
    OtherCells(st, su, t.e.at, PathBag(k));
    OtherCells(st, su, t.e.at, Bag(t.l));
    OtherCells(st, su, t.e.at, Bag(t.r));
    AlongFrame(st, su, k);
    BodyFrame(st, su, t.l);
    BodyFrame(st, su, t.r);
    BelowFrame(st, su, t.l, t.e.at);
    BelowFrame(st, su, t.r, t.e.at);
    BodyMake(su, Measured(t));
    MeasuredBag(t);
  }

  lemma OtherCells<V>(st: Store<V>, su: Store<V>, p: Ptr, b: multiset<Ptr>)
    requires p !in b && forall r | r in st.mem && r != p :: r in su.mem && su.mem[r] == st.mem[r]
    ensures SameOn(st, su, b)
  {
  }

  lemma MeasuredBag<V>(t: Tree<V>)
    requires t.Bin?
    ensures Bag(Measured(t)) == Bag(t)
  {
  }

  // ---------------------------------------------------------------- paths that differ in entries and heights

  /** The same way through the same siblings. */
  ghost predicate Alike<V>(k: Path<V>, n: Path<V>) {
    if k.Top? then n.Top? else n.Frame? && n.d == k.d && n.s == k.s && Alike(k.up, n.up)
  }

  lemma {:induction false} AlikeAround<V>(k: Path<V>, n: Path<V>, g: int)
    requires Alike(k, n) && Around(k, g)
    ensures Around(n, g)
  {
    if k.Frame? { AlikeAround(k.up, n.up, Max(g, Height(k.s)) + 1); }
  }

  lemma {:induction false} AlikeSelf<V>(k: Path<V>)
    ensures Alike(k, k)
  {
    if k.Frame? { AlikeSelf(k.up); }
  }

  lemma {:induction false} AlikeAppend<V>(k: Path<V>, n: Path<V>, j: Path<V>, m: Path<V>)
    requires Alike(k, n) && Alike(j, m)
    ensures Alike(Append(k, j), Append(n, m))
    decreases j
  {
    if j.Frame? { AlikeAppend(k, n, j.up, m.up); }
  }

  /** The same way with the same entries: only heights differ. */
  ghost predicate SameWay<V>(k: Path<V>, n: Path<V>) {
    if k.Top? then n.Top? else n.Frame? && n.d == k.d && n.s == k.s && n.e == k.e && n.up == k.up
  }

  lemma SameWayTouched<V>(k: Path<V>, h: int)
    ensures SameWay(k, Touched(k, h))
  {
  }

  lemma SameWayFacts<V>(k: Path<V>, n: Path<V>, g: int)
    requires SameWay(k, n)
    ensures Before(n) == Before(k) && After(n) == After(k) && (Around(k, g) ==> Around(n, g)) && Hole(n) == Hole(k)
            && PathBag(n) == PathBag(k)
  {
  }

  // ---------------------------------------------------------------- a new node

  /** A new cell, and the link of its parent, or the root, to it. */
  function Plant<V>(st: Store<V>, n: Ptr, q: Ptr, d: Side, key: int, val: V): Store<V>
    requires q == NULL || q in st.mem
  {
    var su := st.(mem := st.mem[n := Cell(NULL, NULL, q, key, val, 1)]);
    if q == NULL then su.(root := n) else su.SetLink(q, d, n)
  }

  ghost function NewLeaf<V>(n: Ptr, key: int, val: V): Tree<V> {
    Bin(Leaf, Entry(n, key, val), 1, Leaf)
  }

  lemma PlantState<V>(st: Store<V>, k: Path<V>, n: Ptr, key: int, val: V)
    requires State(st, k, Leaf) && n != NULL && n !in st.mem && n !in PathBag(k)
    ensures Hole(k) == NULL || Hole(k) in st.mem
    ensures State(Plant(st, n, Hole(k), if k.Frame? then k.d else Left, key, val), k, NewLeaf(n, key, val))
  {
    hide Distinct, Bag, SameOn, PathBag;
    StateOpen(st, k, Leaf);
    var su := Plant(st, n, Hole(k), if k.Frame? then k.d else Left, key, val);
    PlantBag(k, n, key, val);
    PlantPath(st, su, k, n, key, val);
    LeafBody<V>(su, Leaf);
  }

  lemma PlantBag<V>(k: Path<V>, n: Ptr, key: int, val: V)
    requires Distinct(PathBag(k) + Bag<V>(Leaf)) && n !in PathBag(k) && n != NULL
    ensures Distinct(PathBag(k) + Bag(NewLeaf(n, key, val))) && Bag(NewLeaf(n, key, val)) == multiset{n}
  {
    hide PathBag;
    assert PathBag(k) + Bag<V>(Leaf) == PathBag(k);
    var b := PathBag(k) + Bag(NewLeaf(n, key, val));
    forall p | p in b ensures b[p] == 1 {
      if p != n { assert p in PathBag(k); }
    }
  }

  lemma PlantPath<V>(st: Store<V>, su: Store<V>, k: Path<V>, n: Ptr, key: int, val: V)
    requires Along(st, k) && Distinct(PathBag(k) + Bag<V>(Leaf)) && (k.Frame? ==> k.e.at in st.mem && k.e.at != NULL)
    requires n !in st.mem && n !in PathBag(k)
    requires su == Plant(st, n, Hole(k), if k.Frame? then k.d else Left, key, val)
    ensures Along(su, k) && Leads(su, k, n)
  {
    hide Distinct, Bag, SameOn, PathBag, Body;
    if k.Frame? {
      AlongOpen(st, k);
      PathApart(k, Leaf);
      PathParts(k);
      TwoCells(st, su, n, k.e.at, PathBag(k.up));
      TwoCells(st, su, n, k.e.at, Bag(k.s));
      AlongFrame(st, su, k.up);
      BodyFrame(st, su, k.s);
      BelowFrame(st, su, k.s, k.e.at);
    }
  }

  lemma TwoCells<V>(st: Store<V>, su: Store<V>, p: Ptr, q: Ptr, b: multiset<Ptr>)
    requires p !in st.mem && q !in b && forall r | r in st.mem && r != q :: r in su.mem && su.mem[r] == st.mem[r]
    ensures SameOn(st, su, b)
  {
  }

  /** Forgetting a cell that is not in use. */
  lemma FreeState<V>(st: Store<V>, k: Path<V>, t: Tree<V>, p: Ptr)
    requires State(st, k, t) && p !in PathBag(k) && p !in Bag(t)
    ensures State(st.(mem := st.mem - {p}), k, t)
  {
    hide Distinct, Bag, SameOn, PathBag, Body;
    var su := st.(mem := st.mem - {p});
    StateOpen(st, k, t);
    OtherCells(st, su, p, PathBag(k));
    OtherCells(st, su, p, Bag(t));
    AlongFrame(st, su, k);
    BodyFrame(st, su, t);
    BelowFrame(st, su, t, Hole(k));
  }

  // ---------------------------------------------------------------- another node in the place of one

  /** `avlTreeRemoveNode`: s takes over the kid of n on side d. */
  function TakeKid<V>(st: Store<V>, s: Ptr, n: Ptr, d: Side): (su: Store<V>)
    requires s in st.mem && n in st.mem && (st.Link(n, d) == NULL || st.Link(n, d) in st.mem)
    ensures su.mem.Keys == st.mem.Keys
  {
    var su := st.SetLink(s, d, st.Link(n, d));
    if su.Link(s, d) != NULL then su.SetParent(su.Link(s, d), s) else su
  }

  function TakeHeight<V>(st: Store<V>, s: Ptr, n: Ptr): (su: Store<V>)
    requires s in st.mem && n in st.mem
    ensures su.mem.Keys == st.mem.Keys
  {
    st.(mem := st.mem[s := st.mem[s].(height := st.mem[n].height)])
  }

  /** What s has after taking over both kids and the height. */
  ghost predicate Taken<V>(st: Store<V>, su: Store<V>, s: Ptr, n: Ptr)
    requires n in st.mem && s in st.mem
  {
    var (l, r) := (st.mem[n].left, st.mem[n].right);
    && su.mem.Keys == st.mem.Keys && su.root == st.root
    && (forall p | p in st.mem && p != s && p != l && p != r :: su.mem[p] == st.mem[p])
    && s in su.mem && su.mem[s] == Cell(l, r, st.mem[s].parent, st.mem[s].key, st.mem[s].val, st.mem[n].height)
    && (l != NULL ==> l in st.mem && l in su.mem && su.mem[l] == st.mem[l].(parent := s))
    && (r != NULL ==> r in st.mem && r in su.mem && su.mem[r] == st.mem[r].(parent := s))
  }

  lemma TakeCells<V>(st: Store<V>, s: Ptr, n: Ptr)
    requires s in st.mem && n in st.mem && s != n && s != NULL
    requires var (l, r) := (st.mem[n].left, st.mem[n].right);
             l != s && r != s && l != n && r != n && (l == NULL || l in st.mem) && (r == NULL || r in st.mem)
               && (l == NULL || l != r)
    ensures var a := TakeKid(st, s, n, Left);
            && n in a.mem && s in a.mem && (a.Link(n, Right) == NULL || a.Link(n, Right) in a.mem)
            && var b := TakeKid(a, s, n, Right);
               n in b.mem && s in b.mem && Taken(st, TakeHeight(b, s, n), s, n)
  {
  }

  /** The tree with another entry at its root. */
  lemma TakenBody<V>(st: Store<V>, su: Store<V>, k: Path<V>, n: Tree<V>, x: Entry<V>)
    requires State(st, k, n) && n.Bin? && x.at in st.mem && x.at != NULL && x.at !in Bag(n) && x.at !in PathBag(k)
    requires st.mem[x.at].key == x.key && st.mem[x.at].val == x.val
    requires n.e.at in st.mem && Taken(st, su, x.at, n.e.at)
    ensures Body(su, n.(e := x)) && InHole(su, k, n.e.at) && Distinct(PathBag(k) + Bag(n.(e := x)))
  {
    hide Distinct, Bag, SameOn, PathBag, Body, Along, RootCell, Taken;
    StateHole(st, k, n);
    StateOpen(st, k, n);
    BodySides(st, n, Left);
    PathApart(k, n);
    TakenKid(st, su, k, n, x, n.l, n.r);
    TakenKid(st, su, k, n, x, n.r, n.l);
    TakenPath(st, su, k, n, x);
    TakenRoot(st, su, n, x);
    BodyMake(su, n.(e := x));
    TakenBag(k, n, x);
  }

  lemma TakenKid<V>(st: Store<V>, su: Store<V>, k: Path<V>, n: Tree<V>, x: Entry<V>, t: Tree<V>, o: Tree<V>)
    requires n.Bin? && Distinct(PathBag(k) + Bag(n)) && x.at !in Bag(n)
             && ((t == n.l && o == n.r) || (t == n.r && o == n.l))
    requires n.e.at in st.mem && x.at in st.mem && Taken(st, su, x.at, n.e.at) && Body(st, t) && Body(st, o)
    requires st.mem[n.e.at].left == Root(n.l) && st.mem[n.e.at].right == Root(n.r)
    ensures Body(su, t) && Below(su, t, x.at)
  {
    hide Distinct, PathBag, Body, SameOn, Taken, Bag;
    KidsApart(k, n);
    RootInBag(t);
    RootInBag(o);
    BodyRootIn(st, t);
    if t.Bin? {
      TakenInside(st, su, x.at, n.e.at, Bag(t), Root(t), Root(o));
      TakenTop(st, su, x.at, n.e.at, Root(t));
      KidsSame(st, su, t);
      BodyRoot(st, su, t);
    } else {
      LeafBody(su, t);
    }
  }

  lemma TakenInside<V>(st: Store<V>, su: Store<V>, s: Ptr, n: Ptr, b: multiset<Ptr>, p: Ptr, q: Ptr)
    requires n in st.mem && s in st.mem && Taken(st, su, s, n) && s !in b && q !in b
    requires (st.mem[n].left == p && st.mem[n].right == q) || (st.mem[n].left == q && st.mem[n].right == p)
    ensures forall r | r in b && r != p && r in st.mem :: r in su.mem && su.mem[r] == st.mem[r]
  {
  }

  lemma TakenTop<V>(st: Store<V>, su: Store<V>, s: Ptr, n: Ptr, p: Ptr)
    requires n in st.mem && s in st.mem && Taken(st, su, s, n) && p != NULL
             && (st.mem[n].left == p || st.mem[n].right == p)
    ensures SameCell(st, su, p) && su.mem[p].parent == s
  {
  }

  lemma KidsApart<V>(k: Path<V>, n: Tree<V>)
    requires n.Bin? && Distinct(PathBag(k) + Bag(n))
    ensures Distinct(Bag(n.l)) && Distinct(Bag(n.r)) && n.e.at !in Bag(n.l) && n.e.at !in Bag(n.r)
    ensures (forall p | p in Bag(n.l) :: p !in Bag(n.r) && p in Bag(n))
            && (forall p | p in Bag(n.r) :: p !in Bag(n.l) && p in Bag(n))
    ensures NULL !in Bag(n)
  {
    hide PathBag;
    PathApart(k, n);
    RootOnce(n);
    NullBag(k, n);
    BagKids(n);
    hide Bag;
    forall p | p in Bag(n.l) || p in Bag(n.r) ensures p in Bag(n) && Bag(n)[p] == 1
      && Bag(n)[p] >= Bag(n.l)[p] + Bag(n.r)[p] {
    }
  }

  lemma TakenPath<V>(st: Store<V>, su: Store<V>, k: Path<V>, n: Tree<V>, x: Entry<V>)
    requires n.Bin? && InHole(st, k, n.e.at) && Distinct(PathBag(k) + Bag(n)) && x.at !in PathBag(k) && x.at !in Bag(n)
    requires x.at in st.mem && Taken(st, su, x.at, n.e.at) && Body(st, n)
    ensures InHole(su, k, n.e.at)
  {
    hide Distinct, PathBag, Along, SameOn, Bag;
    PathApart(k, n);
    KidsApart(k, n);
    RootInBag(n);
    RootInBag(n.l);
    RootInBag(n.r);
    BagKids(n);
    hide Body;
    BodySides(st, n, Left);
    PathNotNull(k, n);
    forall p | p in PathBag(k) && p in st.mem ensures p in su.mem && su.mem[p] == st.mem[p] {
    }
    TakenSame(st, su, PathBag(k));
    AlongFrame(st, su, k);
    HoleIn(k);
  }

  lemma PathNotNull<V>(k: Path<V>, n: Tree<V>)
    requires Distinct(PathBag(k) + Bag(n))
    ensures NULL !in PathBag(k)
  {
    hide PathBag, Bag;
    assert (PathBag(k) + Bag(n))[NULL] == PathBag(k)[NULL] + Bag(n)[NULL];
  }

  lemma TakenSame<V>(st: Store<V>, su: Store<V>, b: multiset<Ptr>)
    requires forall p | p in b && p in st.mem :: p in su.mem && su.mem[p] == st.mem[p]
    ensures SameOn(st, su, b)
  {
  }

  lemma TakenRoot<V>(st: Store<V>, su: Store<V>, n: Tree<V>, x: Entry<V>)
    requires n.Bin? && Body(st, n) && x.at in st.mem && x.at != NULL && st.mem[x.at].key == x.key
             && st.mem[x.at].val == x.val
    requires n.e.at in st.mem && Taken(st, su, x.at, n.e.at) && Below(su, n.l, x.at) && Below(su, n.r, x.at)
    ensures RootCell(su, n.(e := x))
  {
    hide Body;
    BodyKids(st, n);
  }

  lemma TakenBag<V>(k: Path<V>, n: Tree<V>, x: Entry<V>)
    requires n.Bin? && Distinct(PathBag(k) + Bag(n)) && x.at !in PathBag(k) && x.at !in Bag(n) && x.at != NULL
    ensures Distinct(PathBag(k) + Bag(n.(e := x))) && n.e.at !in PathBag(k) && n.e.at !in Bag(n.(e := x))
  {
    hide PathBag, Bag, Distinct;
    BagKids(n);
    BagKids(n.(e := x));
    Renamed(PathBag(k), n.e.at, x.at, Bag(n.l), Bag(n.r));
  }

  lemma Renamed(b: multiset<Ptr>, p: Ptr, x: Ptr, l: multiset<Ptr>, r: multiset<Ptr>)
    requires Distinct(b + (multiset{p} + l + r)) && x !in b && x !in multiset{p} + l + r && x != NULL
    ensures Distinct(b + (multiset{x} + l + r)) && p !in b && p !in multiset{x} + l + r
  {
    var (v, w) := (b + (multiset{p} + l + r), b + (multiset{x} + l + r));
    forall e: Ptr ensures v[e] == b[e] + (if e == p then 1 else 0) + l[e] + r[e]
      && w[e] == b[e] + (if e == x then 1 else 0) + l[e] + r[e] {
    }
    assert p in v && x !in l && x !in r;
    forall e | e in w ensures w[e] == 1 {
      if e != x { assert e in v; }
    }
  }

  // ---------------------------------------------------------------- the neighbour that takes the place

  /** A way that always goes to side d. */
  ghost predicate Always<V>(j: Path<V>, d: Side) {
    j.Frame? ==> j.d == d && Always(j.up, d)
  }

  lemma {:induction false} AlwaysEnds<V>(j: Path<V>, d: Side)
    requires Always(j, d)
    ensures if d == Right then After(j) == [] else Before(j) == []
  {
    if j.Frame? { AlwaysEnds(j.up, d); }
  }

  /** Heights after the neighbour was cut out: of the two parts of a path, the last node is measured. */
  ghost function Upper<V>(f: Path<V>, j: Path<V>, h: int): Path<V> {
    if j.Top? then Touched(f, h) else f
  }

  lemma TouchedAppend<V>(f: Path<V>, j: Path<V>, h: int)
    ensures Append(Upper(f, j, h), Touched(j, h)) == Touched(Append(f, j), h)
  {
  }

  /** The items around a node of which one side is taken, with f on the other side: e goes, the rest stays. */
  ghost predicate Drops<V>(t: seq<Entry<V>>, n: seq<Entry<V>>, e: Entry<V>, a: seq<Entry<V>>, b: seq<Entry<V>>) {
    t == a + [e] + b && n == a + b
  }

  lemma DropLeft<V>(x: seq<Entry<V>>, y: seq<Entry<V>>, c: seq<Entry<V>>, e: Entry<V>, r: Entry<V>, f: seq<Entry<V>>)
    ensures Drops(x + ((c + [r]) + [e] + f) + y, x + (c + [r] + f) + y, e, x + (c + [r]), f + y)
  {
  }

  lemma DropRight<V>(x: seq<Entry<V>>, y: seq<Entry<V>>, c: seq<Entry<V>>, e: Entry<V>, r: Entry<V>, f: seq<Entry<V>>)
    ensures Drops(x + (f + [e] + ([r] + c)) + y, x + (f + [r] + c) + y, e, x + f, ([r] + c) + y)
  {
  }

  /** The neighbour is the last, or first, of its side. */
  lemma Outermost<V>(d: Side, j: Path<V>, m: Path<V>, r: Tree<V>)
    requires Always(j, Other(d)) && Before(m) == Before(j) && After(m) == After(j) && r.Bin? && Kid(r, Other(d)).Leaf?
    ensures Inorder(Plug(j, r)) == if d == Left then Inorder(Plug(m, Kid(r, d))) + [r.e]
            else [r.e] + Inorder(Plug(m, Kid(r, d)))
  {
    hide Plug, Before, After;
    PlugInorder(j, r);
    PlugInorder(m, Kid(r, d));
    AlwaysEnds(j, Other(d));
    var c := Inorder(Kid(r, d));
    if d == Left {
      LastOf(Before(j), c, r.e);
    } else {
      FirstOf(After(j), c, r.e);
    }
  }

  lemma LastOf<V>(b: seq<Entry<V>>, c: seq<Entry<V>>, r: Entry<V>)
    ensures b + (c + [r] + []) + [] == b + c + [] + [r]
  {
  }

  lemma FirstOf<V>(a: seq<Entry<V>>, c: seq<Entry<V>>, r: Entry<V>)
    ensures [] + ([] + [r] + c) + a == [r] + ([] + c + a)
  {
  }

  /** A node whose neighbour r, at the end of j below its side d, took its place. */
  lemma SwapInorder<V>(k: Path<V>, d: Side, e: Entry<V>, h: int, j: Path<V>, m: Path<V>, r: Tree<V>, far: Tree<V>,
                       h1: int) returns (b: seq<Entry<V>>)
    requires Always(j, Other(d)) && Before(m) == Before(j) && After(m) == After(j) && r.Bin? && Kid(r, Other(d)).Leaf?
    ensures Drops(Inorder(Plug(k, Make(d, e, h, Plug(j, r), far))),
            Inorder(Plug(k, Make(d, r.e, h1, Plug(m, Kid(r, d)), far))), e,
                              Before(k) + (if d == Left then Inorder(Plug(j, r)) else Inorder(far)), b)
  {
    hide Plug, Before, After, Drops;
    PlugInorder(k, Make(d, e, h, Plug(j, r), far));
    PlugInorder(k, Make(d, r.e, h1, Plug(m, Kid(r, d)), far));
    Outermost(d, j, m, r);
    var c := Inorder(Plug(m, Kid(r, d)));
    if d == Left {
      b := Inorder(far) + After(k);
      DropLeft(Before(k), After(k), c, e, r.e, Inorder(far));
    } else {
      b := ([r.e] + c) + After(k);
      DropRight(Before(k), After(k), c, e, r.e, Inorder(far));
    }
  }

  /** The addresses of items are those of the nodes. */
  lemma {:induction false} ItemsIn<V>(t: Tree<V>)
    ensures forall y | y in Inorder(t) :: y.at in Bag(t)
  {
    if t.Bin? {
      ItemsIn(t.l);
      ItemsIn(t.r);
    }
  }

  lemma {:induction false} BeforeIn<V>(k: Path<V>)
    ensures forall y | y in Before(k) :: y.at in PathBag(k)
  {
    if k.Frame? {
      BeforeIn(k.up);
      ItemsIn(k.s);
    }
  }

  /** Some entry is at this address. */
  ghost predicate HasAt<V>(items: seq<Entry<V>>, p: Ptr) {
    exists y :: y in items && y.at == p
  }

  /** Exactly the nodes of the items are allocated. */
  ghost predicate Owns<V>(st: Store<V>, items: seq<Entry<V>>) {
    forall p :: p in st.mem <==> HasAt(items, p)
  }

  lemma {:induction false} ItemsOut<V>(t: Tree<V>, p: Ptr)
    requires p in Bag(t)
    ensures HasAt(Inorder(t), p)
  {
    if t.Bin? {
      BagKids(t);
      if p == t.e.at {
        assert t.e in Inorder(t);
      } else if p in Bag(t.l) {
        ItemsOut(t.l, p);
        var y :| y in Inorder(t.l) && y.at == p;
        assert y in Inorder(t);
      } else {
        ItemsOut(t.r, p);
        var y :| y in Inorder(t.r) && y.at == p;
        assert y in Inorder(t);
      }
    }
  }

  lemma BagItems<V>(t: Tree<V>, p: Ptr)
    ensures p in Bag(t) <==> HasAt(Inorder(t), p)
  {
    ItemsIn(t);
    if p in Bag(t) { ItemsOut(t, p); }
  }

  lemma {:induction false} PlugBag<V>(k: Path<V>, t: Tree<V>)
    ensures Bag(Plug(k, t)) == PathBag(k) + Bag(t)
  {
    hide Bag;
    if k.Frame? {
      PlugBag(k.up, Make(k.d, k.e, k.h, t, k.s));
      RaiseBag(k, t);
    }
  }

  /** The nodes that are not below the hole. */
  lemma OwnedPath<V>(st: Store<V>, k: Path<V>, t: Tree<V>, p: Ptr)
    requires Owns(st, Inorder(Plug(k, t)))
    ensures (p in PathBag(k) || p in Bag(t)) <==> p in st.mem
  {
    BagItems(Plug(k, t), p);
    PlugBag(k, t);
  }

  // ---------------------------------------------------------------- balancing one node

  /** The heavy kid of a node, in the cells. */
  lemma HeavyCells<V>(st: Store<V>, k: Path<V>, t: Tree<V>, d: Side)
    requires State(st, k, t) && t.Bin? && Kid(t, d).Bin?
    ensures t.e.at in st.mem && st.Link(t.e.at, d) == Kid(t, d).e.at && Kid(t, d).e.at in st.mem
    ensures st.HeightAt(st.Link(Kid(t, d).e.at, d)) == Height(Kid(Kid(t, d), d))
    ensures st.HeightAt(st.Link(Kid(t, d).e.at, Other(d))) == Height(Kid(Kid(t, d), Other(d)))
  {
    hide Bag, PathBag, Distinct, Along, Body;
    StateOpen(st, k, t);
    BodySides(st, t, d);
    BodySides(st, Kid(t, d), d);
    BodyRootIn(st, Kid(Kid(t, d), d));
    BodyRootIn(st, Kid(Kid(t, d), Other(d)));
  }

  lemma RootHeights<V>(st: Store<V>, k: Path<V>, t: Tree<V>)
    requires State(st, k, t) && t.Bin?
    ensures t.e.at in st.mem && st.HeightAt(st.mem[t.e.at].left) == Height(t.l)
            && st.HeightAt(st.mem[t.e.at].right) == Height(t.r)
    ensures st.mem[t.e.at].left == Root(t.l) && st.mem[t.e.at].right == Root(t.r) && st.mem[t.e.at].parent == Hole(k)
    ensures st.mem[t.e.at].key == t.e.key && st.mem[t.e.at].val == t.e.val
  {
    hide Bag, PathBag, Distinct, Along, Body;
    StateOpen(st, k, t);
    BodySides(st, t, Left);
    BodyRootIn(st, t.l);
    BodyRootIn(st, t.r);
  }

  /** The rotation of the heavy kid, seen from the node above it. */
  lemma StraightState<V>(st: Store<V>, k: Path<V>, t: Tree<V>, d: Side)
    requires State(st, k, t) && t.Bin? && Kid(t, d).Bin? && Kid(Kid(t, d), Other(d)).Bin?
    ensures var y := Kid(t, d).e.at; st.CanRotate(y, d) && State(st.Rotate(y, d), k, Straight(t, d))
  {
    hide State, Store.Rotate, Store.CanRotate, Rotated;
    LowerState(st, k, t, d);
    var f := Down(k, t, d);
    RotateState(st, f, Kid(t, d), d);
    var g := Touched(f, Height(Kid(Kid(t, d), Other(d))));
    RaiseState(st.Rotate(Kid(t, d).e.at, d), g, Rotated(Kid(t, d), d));
  }
}
