/** The steps of insertion and removal in a radix tree: what each does to the keys, to the rules for
    nodes, and to the number of nodes. */
module RaxEdits {
  import opened Bytes
  import opened Options
  import opened RaxNodes

  // ---------------------------------------------------------------- counting

  ghost function CtxCount<V>(k: Ctx<V>): nat {
    if k.Top? then 0 else 1 + CountAll(k.left) + CountAll(k.right) + CtxCount(k.up)
  }

  lemma {:induction false} CountJoin<V>(a: seq<Node<V>>, b: seq<Node<V>>)
    ensures CountAll(a + b) == CountAll(a) + CountAll(b)
  {
    if a == [] {
      assert a + b == b;
    } else {
      assert (a + b)[1..] == a[1..] + b;
      CountJoin(a[1..], b);
    }
  }

  lemma CountOne<V>(n: Node<V>)
    ensures CountAll([n]) == Count(n)
  {
    assert [n][1..] == [];
  }

  lemma FillCount<V>(k: Ctx<V>, n: Node<V>)
    requires k.Down?
    ensures Count(Fill(k, n)) == 1 + CountAll(k.left) + CountAll(k.right) + Count(n)
  {
    CountJoin(k.left + [n], k.right);
    CountJoin(k.left, [n]);
    CountOne(n);
  }

  lemma {:induction false} PlugCount<V>(k: Ctx<V>, n: Node<V>)
    ensures Count(Plug(k, n)) == CtxCount(k) + Count(n)
  {
    hide Count, Fill;
    if k.Down? {
      FillCount(k, n);
      PlugCount(k.up, Fill(k, n));
    }
  }

  // ---------------------------------------------------------------- the rules along a path

  /** The rules for the parents on a path and for the children beside it. */
  ghost predicate PathShape<V>(k: Ctx<V>) {
    k.Down? ==>
      && (if k.compr then |k.data| >= 2 && |k.left| == |k.right| == 0
          else |k.data| == |k.left| + 1 + |k.right| && Ascending(k.data))
      && (forall m | m in k.left :: Shape(m)) && (forall m | m in k.right :: Shape(m))
      && PathShape(k.up)
  }

  /** The rules for what fills the hole. */
  ghost predicate HoleShape<V>(k: Ctx<V>, n: Node<V>) {
    if k.Top? then RootShape(n) else Shape(n)
  }

  lemma {:induction false} ShapeIsForm<V>(n: Node<V>)
    requires RootShape(n)
    ensures Form(n)
    decreases n
  {
    forall m | m in n.kids ensures Form(m) { ShapeIsForm(m); }
  }

  lemma HoleIsForm<V>(k: Ctx<V>, n: Node<V>)
    requires HoleShape(k, n)
    ensures Form(n) && Formed(n) && forall m | m in n.kids :: Shape(m)
  {
    ShapeIsForm(n);
  }

  lemma {:induction false} PathIsForm<V>(k: Ctx<V>)
    requires PathShape(k)
    ensures PathForm(k)
  {
    if k.Down? {
      PathIsForm(k.up);
      forall m | m in k.left ensures Form(m) { ShapeIsForm(m); }
      forall m | m in k.right ensures Form(m) { ShapeIsForm(m); }
    }
  }

  lemma FillShape<V>(k: Ctx<V>, n: Node<V>)
    requires k.Down? && PathShape(k) && Shape(n)
    ensures Shape(Fill(k, n))
  {
    forall m | m in Fill(k, n).kids ensures Shape(m) {
      assert m in k.left || m == n || m in k.right;
    }
  }

  lemma {:induction false} PlugShape<V>(k: Ctx<V>, n: Node<V>)
    requires PathShape(k) && HoleShape(k, n)
    ensures RootShape(Plug(k, n))
  {
    hide Shape;
    if k.Down? {
      FillShape(k, n);
      ShapeIsRoot(Fill(k, n));
      PlugShape(k.up, Fill(k, n));
    }
  }

  lemma ShapeIsRoot<V>(n: Node<V>)
    requires Shape(n)
    ensures RootShape(n)
  {
  }

  /** One step down. */
  function Child<V>(k: Ctx<V>, n: Node<V>, i: nat): Ctx<V>
    requires i < |n.kids|
  {
    Down(k, n.val, n.compr, n.data, n.kids[..i], n.kids[i + 1..])
  }

  lemma ChildStep<V>(k: Ctx<V>, n: Node<V>, i: nat)
    requires i < |n.kids| && PathShape(k) && HoleShape(k, n)
    ensures PathShape(Child(k, n, i)) && Shape(n.kids[i]) && Plug(Child(k, n, i), n.kids[i]) == Plug(k, n)
    ensures PathForm(Child(k, n, i)) && PathForm(k)
    ensures Route(Child(k, n, i)) == Route(k) + (if n.compr then n.data else [n.data[i]])
  {
    HoleIsForm(k, n);
    var c := Child(k, n, i);
    assert n.kids == n.kids[..i] + [n.kids[i]] + n.kids[i + 1..];
    forall m | m in c.left ensures Shape(m) { }
    forall m | m in c.right ensures Shape(m) { }
    PathIsForm(c);
  }

  // ---------------------------------------------------------------- steps of an insertion

  /** A step that moves the hole to `n'` at the end of `k'` without changing the keys. */
  ghost predicate Step<V(!new)>(k: Ctx<V>, n: Node<V>, k': Ctx<V>, n': Node<V>, bytes: Str, nodes: nat) {
    && PathShape(k') && RootShape(n') && PathForm(k) && PathForm(k') && Same(Plug(k', n'), Plug(k, n))
    && Route(k') == Route(k) + bytes && Count(Plug(k', n')) == Count(Plug(k, n)) + nodes
  }

  lemma StepsJoin<V(!new)>(k: Ctx<V>, n: Node<V>, k1: Ctx<V>, n1: Node<V>, k2: Ctx<V>, n2: Node<V>, a: Str, b: Str,
                    x: nat, y: nat)
    requires Step(k, n, k1, n1, a, x) && Step(k1, n1, k2, n2, b, y)
    ensures Step(k, n, k2, n2, a + b, x + y)
  {
    hide PathShape, RootShape, Route, Plug, Count, PathForm, Same;
    SameChain(Plug(k2, n2), Plug(k1, n1), Plug(k, n));
    assert Route(k) + a + b == Route(k) + (a + b);
  }

  lemma NoStep<V(!new)>(k: Ctx<V>, n: Node<V>)
    requires PathShape(k) && RootShape(n)
    ensures Step(k, n, k, n, [], 0)
  {
    hide Plug, Count;
    PathIsForm(k);
    ShapeIsForm(n);
    PlugForm(k, n);
    assert Route(k) + [] == Route(k);
  }

  /** A node whose filling by `n'` is the same as `n` makes a step. */
  lemma StepDown<V(!new)>(k: Ctx<V>, n: Node<V>, k': Ctx<V>, n': Node<V>, nodes: nat)
    requires PathShape(k') && k'.Down? && k'.up == k && RootShape(n')
    requires Same(Fill(k', n'), n) && Count(Fill(k', n')) == Count(n) + nodes
    ensures PathForm(k') && Step(k, n, k', n', LastStep(k'), nodes)
  {
    hide Fill, Count, PathForm;
    PathIsForm(k');
    PathIsForm(k);
    SamePlug(k, Fill(k', n'), n);
    PlugCount(k, n);
    PlugCount(k, Fill(k', n'));
    UnfoldRoute(k');
  }

  lemma UnfoldRoute<V>(k: Ctx<V>)
    requires PathForm(k) && k.Down?
    ensures PathForm(k.up) && Route(k) == Route(k.up) + LastStep(k)
  {
  }

  lemma Singleton(c: Byte)
    ensures Ascending([c])
  {
  }

  /** The compressed node keeps its first `j` bytes, 0 < j; what is left is a chain under the hole. */
  lemma Trim<V(!new)>(k: Ctx<V>, h: Node<V>, j: nat)
    requires PathShape(k) && HoleShape(k, h) && h.compr && 0 < j < |h.data|
    ensures |h.kids| == 1
    ensures var k' := Down(k, h.val, j > 1, h.data[..j], [], []);
            && PathForm(k') && LastStep(k') == h.data[..j]
            && Step(k, h, k', Chain(None, h.data[j..], h.kids[0]), h.data[..j], 1)
  {
    HoleIsForm(k, h);
    var (a, b, c) := (h.data[..j], h.data[j..], h.kids[0]);
    var k' := Down(k, h.val, j > 1, a, [], []);
    var n' := Chain(None, b, c);
    assert c in h.kids;
    ShapeIsForm(c);
    ChainShape(b, c);
    assert h == Chain(h.val, a + b, c) by { assert a + b == h.data && h.kids == [c]; }
    ChainSplit(h.val, a, b, c);
    assert Fill(k', n') == Chain(h.val, a, n') by { assert [] + [n'] + [] == [n']; }
    ChainCount(h.val, a, n');
    ChainCount(None, b, c);
    ChainCount(h.val, a + b, c);
    TrimPath(k, h, j);
    StepDown(k, h, k', n', 1);
  }

  lemma TrimPath<V>(k: Ctx<V>, h: Node<V>, j: nat)
    requires PathShape(k) && 0 < j < |h.data|
    ensures var k' := Down(k, h.val, j > 1, h.data[..j], [], []);
            PathShape(k') && PathForm(k') && LastStep(k') == h.data[..j]
  {
    var k' := Down(k, h.val, j > 1, h.data[..j], [], []);
    if j == 1 { Singleton(h.data[0]); assert h.data[..1] == [h.data[0]]; }
    PathIsForm(k');
  }

  lemma ChainShape<V>(b: Str, c: Node<V>)
    requires b != [] && Shape(c)
    ensures RootShape(Chain(None, b, c)) && Shape(Chain(None, b, c))
  {
    if |b| == 1 { Singleton(b[0]); assert b == [b[0]]; }
    var n := Chain(None, b, c);
    assert Formed(n);
    assert n.kids == [c] && n.kids != [];
  }

  lemma ChainCount<V>(val: Option<V>, a: Str, c: Node<V>)
    ensures Count(Chain(val, a, c)) == 1 + Count(c)
  {
    CountOne(c);
  }

  /** A chain of several bytes becomes a node with one edge above the rest of the chain. */
  lemma FirstByte<V(!new)>(k: Ctx<V>, val: Option<V>, a: Str, c: Node<V>)
    requires PathShape(k) && |a| > 1 && Shape(c)
    ensures Step(k, Chain(val, a, c), k, Chain(val, a[..1], Chain(None, a[1..], c)), [], 1)
  {
    var n := Chain(val, a[..1], Chain(None, a[1..], c));
    ShapeIsForm(c);
    PathIsForm(k);
    ChainShape(a[1..], c);
    Singleton(a[0]);
    assert a[..1] == [a[0]] && a[..1] + a[1..] == a;
    assert RootShape(n);
    ChainSplit(val, a[..1], a[1..], c);
    SamePlug(k, n, Chain(val, a, c));
    ChainCount(val, a, c);
    ChainCount(val, a[..1], Chain(None, a[1..], c));
    ChainCount(None, a[1..], c);
    PlugCount(k, n);
    PlugCount(k, Chain(val, a, c));
    assert Route(k) + [] == Route(k);
  }

  /** Where a new edge goes among the others. */
  function EdgePlace(data: Str, c: Byte): (i: nat)
    ensures i <= |data| && (forall j | 0 <= j < i :: data[j] <= c) && (i < |data| ==> c < data[i])
  {
    if data == [] || c < data[0] then 0 else 1 + EdgePlace(data[1..], c)
  }

  /** A new edge, in order, with an empty child under the hole. */
  function NewEdge<V>(k: Ctx<V>, n: Node<V>, c: Byte): Ctx<V>
    requires |n.data| == |n.kids|
  {
    var p := EdgePlace(n.data, c);
    Down(k, n.val, false, n.data[..p] + [c] + n.data[p..], n.kids[..p], n.kids[p..])
  }

  lemma EmptyNode<V>()
    ensures RootShape(Empty<V>()) && Form(Empty<V>()) && Count(Empty<V>()) == 1
    ensures forall s :: Get(Empty<V>(), s) == None
  {
  }

  function With<T>(s: seq<T>, p: nat, x: T): (t: seq<T>)
    requires p <= |s|
    ensures |t| == |s| + 1 && t[p] == x
    ensures forall j | 0 <= j < p :: t[j] == s[j]
    ensures forall j | p < j <= |s| :: t[j] == s[j - 1]
  {
    s[..p] + [x] + s[p..]
  }

  lemma WithAt<T>(s: seq<T>, p: nat, x: T, i: nat)
    requires p <= |s| && i < |s|
    ensures With(s, p, x)[if i < p then i else i + 1] == s[i]
  {
  }

  lemma WithEdge(data: Str, p: nat, c: Byte, x: Byte)
    requires c !in data && p <= |data|
    ensures var (i, d) := (Edge(data, x), With(data, p, c));
            Edge(d, x) == if x == c then p else if i == |data| then |d| else if i < p then i else i + 1
  {
    hide Edge, With;
    var (i, d) := (Edge(data, x), With(data, p, c));
    NotAnEdge(data, x);
    NotAnEdge(d, x);
    if x == c {
      assert c !in d[..p] by { assert forall q | 0 <= q < p :: d[q] == data[q] && data[q] in data; }
      EdgeIs(d, p);
    } else if i < |data| {
      var j := if i < p then i else i + 1;
      WithAt(data, p, c, i);
      forall q | 0 <= q < j ensures d[q] != x {
        if q < p { assert d[q] == data[q]; } else if q > p { assert d[q] == data[q - 1]; }
      }
      assert x !in d[..j];
      EdgeIs(d, j);
    } else {
      forall q | 0 <= q < |d| ensures d[q] != x {
        if q < p { assert d[q] == data[q]; } else if q > p { assert d[q] == data[q - 1]; }
      }
    }
  }

  lemma NewEdgeGet<V>(k: Ctx<V>, n: Node<V>, c: Byte, s: Str)
    requires Form(n) && !n.compr && Ascending(n.data) && c !in n.data
    requires Form(Fill(NewEdge(k, n, c), Empty()))
    ensures Get(Fill(NewEdge(k, n, c), Empty()), s) == Get(n, s)
  {
    hide Edge;
    var (p, m) := (EdgePlace(n.data, c), Fill(NewEdge(k, n, c), Empty()));
    assert m.data == With(n.data, p, c);
    assert m.kids == With(n.kids, p, Empty());
    if s != [] {
      var i := Edge(n.data, s[0]);
      WithEdge(n.data, p, c, s[0]);
      NotAnEdge(n.data, s[0]);
      if s[0] == c {
        assert m.kids[p] == Empty<V>();
      } else if i < |n.data| {
        WithAt(n.kids, p, Empty(), i);
      }
    }
  }

  lemma NotAnEdge(data: Str, c: Byte)
    ensures Edge(data, c) == |data| <==> c !in data
  {
    var i := Edge(data, c);
    if i < |data| { assert data[i] in data; } else { assert data[..i] == data; }
  }

  lemma NewEdgePath<V>(k: Ctx<V>, n: Node<V>, c: Byte)
    requires PathShape(k) && RootShape(n) && !n.compr && c !in n.data
    ensures PathShape(NewEdge(k, n, c)) && PathForm(NewEdge(k, n, c)) && LastStep(NewEdge(k, n, c)) == [c]
  {
    var k' := NewEdge(k, n, c);
    var (p, d) := (EdgePlace(n.data, c), k'.data);
    forall i, j | 0 <= i < j < |d| ensures d[i] < d[j] {
      var (a, b) := (if i < p then i else i - 1, if j < p then j else j - 1);
      if i != p { assert d[i] == n.data[a]; assert n.data[a] in n.data; }
      if j != p { assert d[j] == n.data[b]; assert n.data[b] in n.data; }
      if i == p && j != p { assert n.data[p] <= n.data[b]; }
    }
    PathIsForm(k');
  }

  lemma AddEdge<V(!new)>(k: Ctx<V>, n: Node<V>, c: Byte)
    requires PathShape(k) && RootShape(n) && !n.compr && c !in n.data
    ensures Step(k, n, NewEdge(k, n, c), Empty(), [c], 1)
  {
    var k' := NewEdge(k, n, c);
    NewEdgePath(k, n, c);
    ShapeIsForm(n);
    EmptyNode<V>();
    FillForm(k', Empty());
    forall s ensures Get(Fill(k', Empty()), s) == Get(n, s) { NewEdgeGet(k, n, c, s); }
    FillCount(k', Empty<V>());
    assert n.kids[..EdgePlace(n.data, c)] + n.kids[EdgePlace(n.data, c)..] == n.kids;
    CountJoin(n.kids[..EdgePlace(n.data, c)], n.kids[EdgePlace(n.data, c)..]);
    StepDown(k, n, k', Empty(), 1);
  }

  /** A node without children becomes a compressed one. */
  lemma Compress<V(!new)>(k: Ctx<V>, n: Node<V>, bytes: Str)
    requires PathShape(k) && RootShape(n) && n.kids == [] && |bytes| >= 2
    ensures Step(k, n, Down(k, n.val, true, bytes, [], []), Empty(), bytes, 1)
  {
    var k' := Down(k, n.val, true, bytes, [], []);
    PathIsForm(k');
    ShapeIsForm(n);
    EmptyNode<V>();
    FillForm(k', Empty());
    assert Fill(k', Empty()) == Chain(n.val, bytes, Empty()) by { assert [] + [Empty<V>()] + [] == [Empty<V>()]; }
    forall s ensures Get(Fill(k', Empty()), s) == Get(n, s) {
      ChainGet(n.val, bytes, Empty(), s);
    }
    ChainCount(n.val, bytes, Empty());
    StepDown(k, n, k', Empty(), 1);
  }

  // ---------------------------------------------------------------- steps of a removal

  /** No key is left in the subtree. */
  ghost predicate Dead<V(!new)>(n: Node<V>) {
    Form(n) && forall s :: Get(n, s) == None
  }

  lemma LeafDead<V(!new)>(n: Node<V>)
    requires Formed(n) && n.data == [] && n.val == None
    ensures Dead(n) && Count(n) == 1
  {
  }

  /** A parent that holds no key and has a dead child only is dead. */
  lemma DeadParent<V(!new)>(k: Ctx<V>, n: Node<V>)
    requires k.Down? && PathShape(k) && Dead(n) && k.val == None && (k.compr || |k.data| == 1)
    ensures Dead(Fill(k, n)) && Count(Fill(k, n)) == 1 + Count(n)
  {
    PathIsForm(k);
    FillForm(k, n);
    FillCount(k, n);
    var f := Fill(k, n);
    assert f == Chain(None, k.data, n) by { assert [] + [n] + [] == [n]; }
    forall s ensures Get(f, s) == None { ChainGet(None, k.data, n, s); }
  }

  function Without<T>(s: seq<T>, i: nat): (t: seq<T>)
    requires i < |s|
    ensures |t| == |s| - 1
  {
    s[..i] + s[i + 1..]
  }

  /** A node without its child at `i`. */
  function DropChild<V>(n: Node<V>, i: nat): Node<V>
    requires i < |n.kids| && (!n.compr ==> |n.data| == |n.kids|)
  {
    if n.compr then Node(n.val, false, [], []) else Node(n.val, false, Without(n.data, i), Without(n.kids, i))
  }

  lemma WithoutAt(data: Str, p: nat, q: nat)
    requires p < |data| && q < |data| - 1
    ensures Without(data, p)[q] == data[if q < p then q else q + 1]
  {
  }

  /** A byte is an edge of the rest exactly when it is another edge of the whole. */
  lemma WithoutHas(data: Str, p: nat, c: Byte)
    requires Ascending(data) && p < |data|
    ensures c in Without(data, p) <==> c in data && c != data[p]
  {
    hide Without;
    var e := Without(data, p);
    if c in e {
      var q :| 0 <= q < |e| && e[q] == c;
      WithoutAt(data, p, q);
    } else if c in data {
      var q :| 0 <= q < |data| && data[q] == c;
      if q < p { WithoutAt(data, p, q); } else if q > p { WithoutAt(data, p, q - 1); }
    }
  }

  lemma WithoutEdge(data: Str, p: nat, c: Byte)
    requires Ascending(data) && p < |data|
    ensures var (i, e) := (Edge(data, c), Without(data, p));
            Edge(e, c) == if i == |data| || i == p then |e| else if i < p then i else i - 1
  {
    hide Without, Edge;
    var (i, e) := (Edge(data, c), Without(data, p));
    WithoutHas(data, p, c);
    NotAnEdge(data, c);
    NotAnEdge(e, c);
    if i < |data| && i != p {
      var j := if i < p then i else i - 1;
      WithoutAt(data, p, j);
      forall q | 0 <= q < j ensures e[q] != c {
        WithoutAt(data, p, q);
      }
      assert c !in e[..j];
      EdgeIs(e, j);
    }
  }

  lemma DropForm<V>(k: Ctx<V>, c: Node<V>)
    requires k.Down? && PathShape(k) && Form(c)
    ensures Form(Fill(k, c)) && (!k.compr ==> |k.data| == |Fill(k, c).kids|) && Form(DropChild(Fill(k, c), |k.left|))
  {
    PathIsForm(k);
    FillForm(k, c);
    var (n, p) := (Fill(k, c), |k.left|);
    forall m | m in DropChild(n, p).kids ensures Form(m) { assert m in n.kids; }
  }

  lemma DropGet<V(!new)>(k: Ctx<V>, c: Node<V>, s: Str)
    requires k.Down? && PathShape(k) && Dead(c)
    ensures Form(Fill(k, c)) && (!k.compr ==> |k.data| == |Fill(k, c).kids|) && Form(DropChild(Fill(k, c), |k.left|))
    ensures Get(DropChild(Fill(k, c), |k.left|), s) == Get(Fill(k, c), s)
  {
    hide Edge;
    DropForm(k, c);
    var (n, p) := (Fill(k, c), |k.left|);
    if s != [] {
      if k.compr {
        assert n == Chain(k.val, k.data, c) by { assert [] + [c] + [] == [c]; }
        ChainGet(k.val, k.data, c, s);
      } else {
        var i := Edge(k.data, s[0]);
        WithoutEdge(k.data, p, s[0]);
        if i < |k.data| && i != p {
          assert DropChild(n, p).kids[if i < p then i else i - 1] == n.kids[i];
        } else if i == p {
          assert n.kids[p] == c;
        }
      }
    }
  }

  lemma WithoutAscends(data: Str, p: nat)
    requires Ascending(data) && p < |data|
    ensures Ascending(Without(data, p))
  {
    hide Without;
    var e := Without(data, p);
    forall i, j | 0 <= i < j < |e| ensures e[i] < e[j] {
      WithoutAt(data, p, i);
      WithoutAt(data, p, j);
    }
  }

  lemma DropCount<V>(k: Ctx<V>, c: Node<V>)
    requires k.Down? && PathShape(k)
    ensures !k.compr ==> |k.data| == |Fill(k, c).kids|
    ensures Count(Fill(k, c)) == Count(DropChild(Fill(k, c), |k.left|)) + Count(c)
  {
    hide Shape, Ascending;
    FillCount(k, c);
    if !k.compr {
      assert DropChild(Fill(k, c), |k.left|).kids == k.left + k.right;
      CountJoin(k.left, k.right);
    } else {
      assert CountAll(k.left) == 0 && CountAll(k.right) == 0;
    }
  }

  lemma DropShape<V>(k: Ctx<V>, c: Node<V>)
    requires k.Down? && PathShape(k)
    ensures !k.compr ==> |k.data| == |Fill(k, c).kids|
    ensures RootShape(DropChild(Fill(k, c), |k.left|))
    ensures k.val.Some? || (!k.compr && |k.data| != 1) ==> Shape(DropChild(Fill(k, c), |k.left|))
    ensures Count(Fill(k, c)) == Count(DropChild(Fill(k, c), |k.left|)) + Count(c)
  {
    hide Count, Ascending;
    DropCount(k, c);
    if !k.compr {
      WithoutAscends(k.data, |k.left|);
      assert DropChild(Fill(k, c), |k.left|).kids == k.left + k.right;
    } else {
      assert Ascending([]) by { EmptyAscends(); }
    }
  }

  lemma EmptyAscends()
    ensures Ascending([])
  {
  }

  /** A node that merges with its child: it holds no key and has one child. */
  predicate IsLink<V>(n: Node<V>) {
    n.val.None? && (n.compr || |n.data| == 1)
  }

  lemma LinkIsChain<V>(n: Node<V>)
    requires Formed(n) && (n.compr || |n.data| == 1)
    ensures |n.kids| == 1 && n.data != [] && n == Chain(n.val, n.data, n.kids[0])
  {
  }

  /** One node more in the chain. */
  lemma ChainLonger<V(!new)>(start: Node<V>, bytes: Str, c: Node<V>, nodes: nat)
    requires bytes != [] && Shape(c) && IsLink(c) && Same(start, Chain(None, bytes, c))
             && Count(start) == nodes + Count(c)
    ensures |c.kids| == 1 && Shape(c.kids[0]) && Same(start, Chain(None, bytes + c.data, c.kids[0]))
    ensures Count(start) == nodes + 1 + Count(c.kids[0])
  {
    LinkIsChain(c);
    var d := c.kids[0];
    assert d in c.kids;
    ShapeIsForm(d);
    ChainSplit(None, bytes, c.data, d);
    SameChain(Chain(None, bytes + c.data, d), Chain(None, bytes, c), start);
    ChainCount(c.val, c.data, d);
  }

  /** Below every node of a tree in shape there is a key, and below a link one at least as long as it. */
  lemma {:induction false} SomeKey<V>(n: Node<V>) returns (s: Str)
    requires Shape(n)
    ensures Form(n) && Get(n, s).Some? && (n.val == None ==> s != []) && (IsLink(n) ==> |s| >= |n.data|)
    decreases n
  {
    ShapeIsForm(n);
    if n.val.Some? {
      s := [];
    } else {
      var c := n.kids[0];
      assert c in n.kids;
      var t := SomeKey(c);
      if n.compr {
        s := n.data + t;
        assert s[|n.data|..] == t;
      } else {
        s := [n.data[0]] + t;
        assert s[1..] == t;
      }
    }
  }
}
