/** Links of a radix tree that could be merged, and exactly when removal and insertion leave such links
    behind; src/tree/rax.c:817-923 and 1189-1357. */
module RaxTight {
  import opened Bytes
  import opened Options
  import opened RaxNodes
  import opened RaxEdits

  /** Nothing is left to merge: no node that is no key and has one child has a child of the same kind. */
  ghost predicate Tight<V>(n: Node<V>) {
    !(IsLink(n) && n.kids != [] && IsLink(n.kids[0])) && forall m | m in n.kids :: Tight(m)
  }

  ghost predicate AllTight<V>(s: seq<Node<V>>) {
    forall m | m in s :: Tight(m)
  }

  ghost predicate LinkAbove<V>(k: Ctx<V>) {
    k.Down? && k.val.None? && (k.compr || |k.data| == 1)
  }

  ghost predicate TightPath<V>(k: Ctx<V>) {
    k.Down? ==> AllTight(k.left) && AllTight(k.right) && !(LinkAbove(k) && LinkAbove(k.up)) && TightPath(k.up)
  }

  lemma FillTight<V>(k: Ctx<V>, h: Node<V>)
    requires PathShape(k) && k.Down?
    ensures IsLink(Fill(k, h)) == LinkAbove(k)
    ensures Tight(Fill(k, h)) <==> AllTight(k.left) && AllTight(k.right) && Tight(h) && !(LinkAbove(k) && IsLink(h))
  {
    var n := Fill(k, h);
    assert forall m :: m in n.kids <==> m in k.left || m == h || m in k.right;
    if LinkAbove(k) { assert n.kids == [h]; }
  }

  lemma {:induction false} PlugTight<V>(k: Ctx<V>, h: Node<V>)
    requires PathShape(k)
    ensures Tight(Plug(k, h)) <==> TightPath(k) && Tight(h) && !(LinkAbove(k) && IsLink(h))
  {
    hide Tight, AllTight, Fill;
    if k.Down? {
      FillTight(k, h);
      PlugTight(k.up, Fill(k, h));
    }
  }

  // ---------------------------------------------------------------- where a walk stops

  /** Where the walk for a key stops: whether the parent is a link, the node, and the rest of the key. */
  ghost function Stop<V>(n: Node<V>, above: bool, s: Str): (r: (bool, Node<V>, Str))
    requires Form(n)
    ensures Form(r.1)
  {
    if s == [] then (above, n, s)
    else if n.compr then
      if n.data <= s then Stop(n.kids[0], IsLink(n), s[|n.data|..]) else (above, n, s)
    else
      var i := Edge(n.data, s[0]);
      if i < |n.data| then Stop(n.kids[i], IsLink(n), s[1..]) else (above, n, s)
  }

  /** The key belongs to a node of several bytes, and its parent or its child is a link. */
  ghost predicate StrandedByRemoval<V>(head: Node<V>, s: Str)
    requires Form(head)
  {
    var (above, n, rest) := Stop(head, false, s);
    rest == [] && n.val.Some? && n.compr && (above || IsLink(n.kids[0]))
  }

  /** The key leaves a node of several bytes, itself a key, before the last byte; its child is a link. */
  ghost predicate StrandedBySplit<V>(head: Node<V>, s: Str)
    requires Form(head)
  {
    var (_, n, rest) := Stop(head, false, s);
    n.compr && n.val.Some? && IsLink(n.kids[0]) && !(rest <= n.data) && !(n.data[..|n.data| - 1] <= rest)
  }

  lemma FillStop<V>(k: Ctx<V>, n: Node<V>, above: bool, s: Str)
    requires PathForm(k) && k.Down? && Form(n) && LastStep(k) <= s
    ensures Form(Fill(k, n)) && Stop(Fill(k, n), above, s) == Stop(n, LinkAbove(k), s[|LastStep(k)|..])
  {
    FillForm(k, n);
    if !k.compr {
      assert s[0] == k.data[|k.left|];
      EdgeIs(k.data, |k.left|);
    }
  }

  lemma {:induction false} RouteStop<V>(k: Ctx<V>, n: Node<V>, s: Str)
    requires PathForm(k) && Form(n) && Route(k) <= s
    ensures Form(Plug(k, n)) && Stop(Plug(k, n), false, s) == Stop(n, LinkAbove(k), s[|Route(k)|..])
  {
    hide Stop, Fill;
    PlugForm(k, n);
    if k.Down? {
      FillForm(k, n);
      RouteStop(k.up, Fill(k, n), s);
      var t := s[|Route(k.up)|..];
      assert LastStep(k) <= t;
      FillStop(k, n, LinkAbove(k.up), t);
      assert t[|LastStep(k)|..] == s[|Route(k)|..];
    } else {
      assert s[0..] == s;
    }
  }

  /** The walk stops in this node: the rest of the key is used up, or does not go on along its edges. */
  lemma StopsAt<V>(k: Ctx<V>, h: Node<V>, s: Str, sp: nat)
    requires PathForm(k) && Form(h) && Route(k) <= s && |Route(k)| + sp <= |s|
             && (if h.compr then sp < |h.data| else sp == 0)
    requires var t := s[|Route(k)|..];
             h.data[..sp] == t[..sp] && (sp < |t| ==> if h.compr then t[sp] != h.data[sp] else t[sp] !in h.data)
    ensures Form(Plug(k, h)) && Stop(Plug(k, h), false, s) == (LinkAbove(k), h, s[|Route(k)|..])
  {
    RouteStop(k, h, s);
    var t := s[|Route(k)|..];
    if t != [] && !h.compr { NotAnEdge(h.data, t[0]); }
  }

  // ---------------------------------------------------------------- removal

  /** What hangs below a chain of links is tight. */
  ghost predicate TightEnd<V>(n: Node<V>) {
    if IsLink(n) && n.kids != [] then TightEnd(n.kids[0]) else Tight(n)
  }

  lemma {:induction false} EndOfTight<V>(n: Node<V>)
    requires Tight(n)
    ensures TightEnd(n)
    decreases n
  {
    if IsLink(n) && n.kids != [] {
      assert n.kids[0] in n.kids;
      EndOfTight(n.kids[0]);
    }
  }

  /** The parent of a chain, if it is a link, belongs to the chain. */
  lemma EndAbove<V>(k: Ctx<V>, h: Node<V>)
    requires PathShape(k) && LinkAbove(k)
    ensures TightEnd(Fill(k, h)) == TightEnd(h)
  {
    assert k.left + [h] + k.right == [h];
  }

  /** One node above what is no link. */
  lemma MergedTight<V>(k: Ctx<V>, h: Node<V>)
    requires PathShape(k) && TightPath(k) && !LinkAbove(k) && |h.kids| == 1 && TightEnd(h.kids[0]) && !IsLink(h.kids[0])
    ensures Tight(Plug(k, h))
  {
    assert Tight(h);
    PlugTight(k, h);
  }

  /** A key cleared in a tight tree: what is tight besides the node. */
  lemma KeyTight<V>(k: Ctx<V>, h: Node<V>)
    requires PathShape(k) && h.val.Some?
    ensures Tight(Plug(k, h)) <==> TightPath(k) && AllTight(h.kids)
  {
    PlugTight(k, h);
  }

  /** Removing the key of a node with children that is not merged with others afterwards. */
  lemma ClearedTight<V>(k: Ctx<V>, h: Node<V>)
    requires PathShape(k) && TightPath(k) && AllTight(h.kids) && Formed(h) && h.val.None? && |h.data| >= 2
    ensures Tight(Plug(k, h)) <==> !(h.compr && (LinkAbove(k) || IsLink(h.kids[0])))
  {
    PlugTight(k, h);
  }

  /** A parent that has lost a child. */
  lemma DroppedTight<V>(k: Ctx<V>, f: Ctx<V>, c: Node<V>)
    requires f.Down? && PathShape(f) && f.up == k && TightPath(f)
    ensures !f.compr ==> |f.data| == |Fill(f, c).kids|
    ensures TightPath(k) && AllTight(DropChild(Fill(f, c), |f.left|).kids)
  {
    if !f.compr { assert DropChild(Fill(f, c), |f.left|).kids == f.left + f.right; }
  }

  // ---------------------------------------------------------------- insertion

  /** A node cut behind some of its bytes: the first part keeps its value. */
  lemma CutTight<V>(k: Ctx<V>, h: Node<V>, j: nat)
    requires PathShape(k) && Tight(Plug(k, h)) && Formed(h) && h.compr && 0 < j < |h.data|
    ensures TightPath(Down(k, h.val, j > 1, h.data[..j], [], [])) && TightPath(k) && AllTight(h.kids)
  {
    PlugTight(k, h);
  }

  /** The rest of a node behind a split. */
  lemma RestTight<V>(k: Ctx<V>, h: Node<V>, j: nat)
    requires PathShape(k) && Tight(Plug(k, h)) && Formed(h) && h.compr && j + 1 < |h.data|
    ensures Tight(Node(None, |h.data| - j - 1 > 1, h.data[j + 1..], [h.kids[0]]))
            <==> !(h.val.Some? && IsLink(h.kids[0]))
  {
    PlugTight(k, h);
    assert h.kids[0] in h.kids;
  }

  /** The parent frame of a new child. */
  lemma EdgeTight<V>(k: Ctx<V>, n: Node<V>, c: Byte)
    requires !n.compr && |n.data| == |n.kids| && TightPath(k) && (n.data == [] && n.val.None? ==> !LinkAbove(k))
    ensures TightPath(NewEdge(k, n, c)) <==> AllTight(n.kids)
    ensures n.data != [] ==> !LinkAbove(NewEdge(k, n, c))
  {
    var p := EdgePlace(n.data, c);
    assert n.kids == n.kids[..p] + n.kids[p..];
  }

  // ---------------------------------------------------------------- inputs that leave links behind

  const FOO: Str := [102, 111, 111]
  const BAR: Str := [98, 97, 114]

  /** The tree of "foo" and "foobar". */
  ghost function FooBar<V>(v: V, w: V): Node<V> {
    Node(None, true, FOO, [Node(Some(v), true, BAR, [Node(Some(w), false, [], [])])])
  }

  /** It is tight, and removing "foo" leaves "foo" and "bar" as two nodes. */
  lemma FooBarStrands<V>(v: V, w: V)
    ensures RootShape(FooBar(v, w)) && Form(FooBar(v, w)) && Tight(FooBar(v, w)) && StrandedByRemoval(FooBar(v, w), FOO)
  {
    var leaf := Node(Some(w), false, [], []);
    var bar := Node(Some(v), true, BAR, [leaf]);
    var foo := Node(None, true, FOO, [bar]);
    assert Shape(leaf) && Tight(leaf);
    assert Shape(bar) && Tight(bar);
    assert RootShape(foo) && Tight(foo);
    ShapeIsForm(foo);
    assert FOO[|FOO|..] == [];
    assert Stop(bar, true, []) == (true, bar, []);
    assert Stop(foo, false, FOO) == (true, bar, []);
    assert FooBar(v, w) == foo;
  }

  /** The tree of "foo", "foobar" and "foobarq" after the removal of "foobar". */
  ghost function FooBarQ<V>(v: V, w: V): Node<V> {
    Node(None, true, FOO, [Node(Some(v), true, BAR, [Node(None, false, [113], [Node(Some(w), false, [], [])])])])
  }

  /** It is tight, and inserting "foox" leaves "ar" and "q" as two nodes. */
  lemma FooBarQStrands<V>(v: V, w: V)
    ensures RootShape(FooBarQ(v, w)) && Form(FooBarQ(v, w)) && Tight(FooBarQ(v, w))
            && StrandedBySplit(FooBarQ(v, w), FOO + [120])
  {
    var leaf := Node(Some(w), false, [], []);
    var q := Node(None, false, [113], [leaf]);
    var bar := Node(Some(v), true, BAR, [q]);
    var foo := Node(None, true, FOO, [bar]);
    assert Shape(leaf) && Tight(leaf);
    assert Shape(q) && Tight(q);
    assert Shape(bar) && Tight(bar);
    assert RootShape(foo) && Tight(foo);
    ShapeIsForm(foo);
    assert (FOO + [120])[|FOO|..] == [120];
    assert Stop(bar, true, [120]) == (true, bar, [120]);
    assert Stop(foo, false, FOO + [120]) == (true, bar, [120]);
    assert FooBarQ(v, w) == foo && IsLink(q);
    assert BAR[0] != 120 && |BAR[..|BAR| - 1]| == 2;
  }
}
