/** Nodes of a compressed radix tree and paths into it, as values; src/tree/rax.c. */
module RaxNodes {
  import opened Bytes
  import opened Options

  type Str = seq<Byte>

  /** A compressed node has one child behind all of its bytes, any other node one child per byte. */
  datatype Node<V> = Node(val: Option<V>, compr: bool, data: Str, kids: seq<Node<V>>)

  function Empty<V>(): Node<V> {
    Node(None, false, [], [])
  }

  /** The place of a byte among the edges, or the number of edges. */
  function Edge(data: Str, c: Byte): (i: nat)
    ensures i <= |data| && (i < |data| ==> data[i] == c) && c !in data[..i]
  {
    if data == [] || data[0] == c then 0 else 1 + Edge(data[1..], c)
  }

  ghost predicate Ascending(s: Str) {
    forall i, j | 0 <= i < j < |s| :: s[i] < s[j]
  }

  /** The rules for one node. */
  ghost predicate Formed<V>(n: Node<V>) {
    if n.compr then |n.data| >= 2 && |n.kids| == 1 else |n.data| == |n.kids| && Ascending(n.data)
  }

  /** The rules for a node and all nodes below it; every node without children holds a key. */
  ghost predicate Shape<V>(n: Node<V>) {
    Formed(n) && (n.kids == [] ==> n.val.Some?) && forall m | m in n.kids :: Shape(m)
  }

  /** The rules for the whole tree: the head may be empty. */
  ghost predicate RootShape<V>(n: Node<V>) {
    Formed(n) && forall m | m in n.kids :: Shape(m)
  }

  /** The value under a key. */
  ghost function Get<V>(n: Node<V>, s: Str): Option<V>
    requires Form(n)
  {
    if s == [] then n.val
    else if n.compr then
      if n.data <= s then Get(n.kids[0], s[|n.data|..]) else None
    else
      var i := Edge(n.data, s[0]);
      if i < |n.data| then Get(n.kids[i], s[1..]) else None
  }

  /** As far as lookups need it: the numbers of bytes and children match. */
  ghost predicate Form<V>(n: Node<V>) {
    (if n.compr then n.data != [] && |n.kids| == 1 else |n.data| == |n.kids|) && forall m | m in n.kids :: Form(m)
  }

  ghost function Count<V>(n: Node<V>): nat {
    1 + CountAll(n.kids)
  }

  ghost function CountAll<V>(s: seq<Node<V>>): nat {
    if s == [] then 0 else Count(s[0]) + CountAll(s[1..])
  }

  // ---------------------------------------------------------------- paths

  /** A tree with a hole: the parents on the way down, each with the children beside the path. */
  datatype Ctx<V> = Top | Down(up: Ctx<V>, val: Option<V>, compr: bool, data: Str, left: seq<Node<V>>,
    right: seq<Node<V>>)

  function Fill<V>(k: Ctx<V>, n: Node<V>): Node<V>
    requires k.Down?
  {
    Node(k.val, k.compr, k.data, k.left + [n] + k.right)
  }

  function Plug<V>(k: Ctx<V>, n: Node<V>): Node<V> {
    if k.Top? then n else Plug(k.up, Fill(k, n))
  }

  /** The numbers of bytes and children match along the path. */
  ghost predicate PathForm<V>(k: Ctx<V>) {
    k.Down? ==>
      && (if k.compr then k.data != [] && k.left == k.right == [] else |k.data| == |k.left| + 1 + |k.right|)
      && (!k.compr ==> k.data[|k.left|] !in k.data[..|k.left|])
      && (forall m | m in k.left :: Form(m)) && (forall m | m in k.right :: Form(m))
      && PathForm(k.up)
  }

  ghost function LastStep<V>(k: Ctx<V>): Str
    requires PathForm(k) && k.Down?
  {
    if k.compr then k.data else [k.data[|k.left|]]
  }

  /** The bytes of a path. */
  ghost function Route<V>(k: Ctx<V>): Str
    requires PathForm(k)
  {
    if k.Top? then [] else Route(k.up) + LastStep(k)
  }

  lemma FillForm<V>(k: Ctx<V>, n: Node<V>)
    requires PathForm(k) && k.Down? && Form(n)
    ensures Form(Fill(k, n))
  {
    forall m | m in Fill(k, n).kids ensures Form(m) {
      assert m in k.left || m == n || m in k.right;
    }
  }

  lemma {:induction false} PlugForm<V>(k: Ctx<V>, n: Node<V>)
    requires PathForm(k) && Form(n)
    ensures Form(Plug(k, n))
  {
    if k.Down? {
      FillForm(k, n);
      PlugForm(k.up, Fill(k, n));
    }
  }

  /** Looking through one parent. */
  lemma FillGet<V>(k: Ctx<V>, n: Node<V>, s: Str)
    requires PathForm(k) && k.Down? && Form(n)
    ensures Form(Fill(k, n))
    ensures LastStep(k) <= s ==> Get(Fill(k, n), s) == Get(n, s[|LastStep(k)|..])
  {
    FillForm(k, n);
    if LastStep(k) <= s && !k.compr {
      var i := Edge(k.data, s[0]);
      assert s[0] == k.data[|k.left|];
      assert i == |k.left| by { EdgeIs(k.data, |k.left|); }
    }
  }

  lemma {:induction false} EdgeIs(data: Str, i: nat)
    requires i < |data| && data[i] !in data[..i]
    ensures Edge(data, data[i]) == i
  {
    if i > 0 {
      assert data[0] in data[..i];
      assert data[1..][..i - 1] == data[..i][1..];
      EdgeIs(data[1..], i - 1);
    }
  }

  /** Keys off the path do not see what fills the hole. */
  lemma FillOther<V>(k: Ctx<V>, n: Node<V>, m: Node<V>, s: Str)
    requires PathForm(k) && k.Down? && Form(n) && Form(m) && !(LastStep(k) <= s)
    ensures Form(Fill(k, n)) && Form(Fill(k, m)) && Get(Fill(k, n), s) == Get(Fill(k, m), s)
  {
    FillForm(k, n);
    FillForm(k, m);
    if s != [] && !k.compr {
      var i := Edge(k.data, s[0]);
      if i < |k.data| {
        assert i != |k.left|;
        assert Fill(k, n).kids[i] == Fill(k, m).kids[i];
      }
    }
  }

  /** Keys through the hole are looked up in what fills it. */
  lemma {:induction false} RouteGet<V>(k: Ctx<V>, n: Node<V>, s: Str)
    requires PathForm(k) && Form(n) && Route(k) <= s
    ensures Form(Plug(k, n)) && Get(Plug(k, n), s) == Get(n, s[|Route(k)|..])
  {
    hide Get, Fill;
    PlugForm(k, n);
    if k.Down? {
      FillForm(k, n);
      RouteGet(k.up, Fill(k, n), s);
      var t := s[|Route(k.up)|..];
      assert LastStep(k) <= t;
      FillGet(k, n, t);
      assert t[|LastStep(k)|..] == s[|Route(k)|..];
    } else {
      assert s[0..] == s;
    }
  }

  /** Other keys do not see it. */
  lemma {:induction false} OffRoute<V>(k: Ctx<V>, n: Node<V>, m: Node<V>, s: Str)
    requires PathForm(k) && Form(n) && Form(m) && !(Route(k) <= s)
    ensures Form(Plug(k, n)) && Form(Plug(k, m)) && Get(Plug(k, n), s) == Get(Plug(k, m), s)
  {
    hide Get, Fill;
    PlugForm(k, n);
    PlugForm(k, m);
    if k.Down? {
      FillForm(k, n);
      FillForm(k, m);
      if Route(k.up) <= s {
        var t := s[|Route(k.up)|..];
        assert s == Route(k.up) + t;
        RouteGet(k.up, Fill(k, n), s);
        RouteGet(k.up, Fill(k, m), s);
        FillOther(k, n, m, t);
      } else {
        OffRoute(k.up, Fill(k, n), Fill(k, m), s);
      }
    }
  }

  /** Two trees hold the same keys and values. */
  ghost predicate Same<V(!new)>(n: Node<V>, m: Node<V>) {
    Form(n) && Form(m) && forall s :: Get(n, s) == Get(m, s)
  }

  lemma SamePlug<V(!new)>(k: Ctx<V>, n: Node<V>, m: Node<V>)
    requires PathForm(k) && Same(n, m)
    ensures Same(Plug(k, n), Plug(k, m))
  {
    PlugForm(k, n);
    PlugForm(k, m);
    forall s ensures Get(Plug(k, n), s) == Get(Plug(k, m), s) {
      if Route(k) <= s {
        RouteGet(k, n, s);
        RouteGet(k, m, s);
      } else {
        OffRoute(k, n, m, s);
      }
    }
  }

  lemma SameChain<V(!new)>(a: Node<V>, b: Node<V>, c: Node<V>)
    requires Same(a, b) && Same(b, c)
    ensures Same(a, c) && Same(c, a)
  {
  }

  /** A value set at the end of a path changes that key only. */
  lemma SetGet<V(!new)>(k: Ctx<V>, n: Node<V>, v: Option<V>, s: Str)
    requires PathForm(k) && Form(n)
    ensures Form(n.(val := v)) && Form(Plug(k, n)) && Form(Plug(k, n.(val := v)))
    ensures Get(Plug(k, n.(val := v)), s) == if s == Route(k) then v else Get(Plug(k, n), s)
  {
    hide Plug, Route, PathForm;
    assert Form(n.(val := v));
    PlugForm(k, n);
    PlugForm(k, n.(val := v));
    if Route(k) <= s {
      RouteGet(k, n, s);
      RouteGet(k, n.(val := v), s);
      assert s == Route(k) + s[|Route(k)|..];
    } else {
      OffRoute(k, n, n.(val := v), s);
    }
  }

  // ---------------------------------------------------------------- chains

  /** A node with one child behind a string of bytes; it is compressed when there are several. */
  function Chain<V>(val: Option<V>, a: Str, c: Node<V>): Node<V> {
    Node(val, |a| > 1, a, [c])
  }

  lemma ChainGet<V>(val: Option<V>, a: Str, c: Node<V>, s: Str)
    requires Form(c) && a != []
    ensures Form(Chain(val, a, c))
    ensures Get(Chain(val, a, c), s) == if s == [] then val else if a <= s then Get(c, s[|a|..]) else None
  {
    var n := Chain(val, a, c);
    if s != [] && |a| == 1 {
      if a <= s { EdgeIs(a, 0); assert a[0] == s[0]; } else { assert a[0] != s[0]; }
    }
  }

  lemma PrefixSplit(a: Str, b: Str, s: Str)
    ensures a + b <= s <==> a <= s && b <= s[|a|..]
    ensures a + b <= s ==> s[|a + b|..] == s[|a|..][|b|..]
  {
    if a + b <= s {
      assert s[..|a|] == a && s[|a|..][..|b|] == b;
    }
  }

  lemma ChainSplitAt<V>(val: Option<V>, a: Str, b: Str, c: Node<V>, s: Str)
    requires Form(c) && a != [] && b != []
    ensures Form(Chain(val, a + b, c)) && Form(Chain(None, b, c)) && Form(Chain(val, a, Chain(None, b, c)))
    ensures Get(Chain(val, a + b, c), s) == Get(Chain(val, a, Chain(None, b, c)), s)
  {
    hide Get, Chain, Form;
    ChainGet(val, a + b, c, s);
    ChainGet(None, b, c, []);
    ChainGet(val, a, Chain(None, b, c), s);
    PrefixSplit(a, b, s);
    if a <= s {
      ChainGet(None, b, c, s[|a|..]);
    }
  }

  /** A chain cut in two. */
  lemma ChainSplit<V(!new)>(val: Option<V>, a: Str, b: Str, c: Node<V>)
    requires Form(c) && a != [] && b != []
    ensures Same(Chain(val, a + b, c), Chain(val, a, Chain(None, b, c)))
  {
    hide Get, Chain, Form;
    ChainSplitAt(val, a, b, c, []);
    forall s ensures Get(Chain(val, a + b, c), s) == Get(Chain(val, a, Chain(None, b, c)), s) {
      ChainSplitAt(val, a, b, c, s);
    }
  }
}
