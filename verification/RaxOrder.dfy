/** Lexicographic order in a radix tree: which keys lie before and after a place in it. */
module RaxOrder {
  import opened Bytes
  import opened Options
  import opened RaxNodes
  import opened RaxEdits

  /** Lexicographic order; a prefix comes first. */
  predicate Lt(a: Str, b: Str) {
    b != [] && (a == [] || a[0] < b[0] || (a[0] == b[0] && Lt(a[1..], b[1..])))
  }

  lemma {:induction false} LtCommon(r: Str, a: Str, b: Str)
    ensures Lt(r + a, r + b) <==> Lt(a, b)
  {
    if r == [] {
      assert r + a == a && r + b == b;
    } else {
      assert (r + a)[1..] == r[1..] + a && (r + b)[1..] == r[1..] + b;
      LtCommon(r[1..], a, b);
    }
  }

  lemma {:induction false} LtTotal(a: Str, b: Str)
    ensures Lt(a, b) || Lt(b, a) || a == b
    ensures !(Lt(a, b) && Lt(b, a)) && !Lt(a, a)
  {
    if a != [] {
      LtTotal(a[1..], if b != [] then b[1..] else []);
      if b != [] && a[0] == b[0] && a[1..] == b[1..] {
        assert a == [a[0]] + a[1..] && b == [b[0]] + b[1..];
      }
    }
  }

  lemma {:induction false} LtTrans(a: Str, b: Str, c: Str)
    requires Lt(a, b) && Lt(b, c)
    ensures Lt(a, c)
  {
    if a != [] && a[0] == b[0] == c[0] { LtTrans(a[1..], b[1..], c[1..]); }
  }

  /** Below a common prefix the next byte decides. */
  lemma LtByte(r: Str, a: Str, b: Str)
    requires r < a && r < b && a[|r|] < b[|r|]
    ensures Lt(a, b)
  {
    assert a == r + a[|r|..] && b == r + b[|r|..];
    LtCommon(r, a[|r|..], b[|r|..]);
  }

  lemma LtPrefix(r: Str, a: Str)
    requires r < a
    ensures Lt(r, a)
  {
    assert a == r + a[|r|..] && r == r + [];
    LtCommon(r, [], a[|r|..]);
  }

  ghost predicate IsKey<V>(head: Node<V>, t: Str)
    requires Form(head)
  {
    Get(head, t).Some?
  }

  /** The key leaves the path at a branch with a larger byte. */
  ghost predicate Later<V>(k: Ctx<V>, t: Str)
    requires PathForm(k)
  {
    k.Down? && (Later(k.up, t) || (!k.compr && Route(k.up) < t && t[|Route(k.up)|] > k.data[|k.left|]))
  }

  /** The key ends on the path, or leaves it at a branch with a smaller byte. */
  ghost predicate Earlier<V>(k: Ctx<V>, t: Str)
    requires PathForm(k)
  {
    k.Down? &&
      (Earlier(k.up, t) || t == Route(k.up) || (!k.compr && Route(k.up) < t && t[|Route(k.up)|] < k.data[|k.left|]))
  }

  lemma RouteGrows<V>(k: Ctx<V>)
    requires PathForm(k) && k.Down?
    ensures Route(k) == Route(k.up) + LastStep(k) && Route(k.up) < Route(k)
    ensures !k.compr ==> Route(k)[|Route(k.up)|] == k.data[|k.left|]
  {
  }

  lemma {:induction false} LaterIsGreater<V>(k: Ctx<V>, t: Str, s: Str)
    requires PathForm(k) && Later(k, t) && Route(k) <= s
    ensures Lt(s, t)
  {
    RouteGrows(k);
    if Later(k.up, t) {
      LaterIsGreater(k.up, t, s);
    } else {
      assert s[|Route(k.up)|] == Route(k)[|Route(k.up)|];
      LtByte(Route(k.up), s, t);
    }
  }

  lemma {:induction false} EarlierIsSmaller<V>(k: Ctx<V>, t: Str, s: Str)
    requires PathForm(k) && Earlier(k, t) && Route(k) <= s
    ensures Lt(t, s)
  {
    RouteGrows(k);
    if Earlier(k.up, t) {
      EarlierIsSmaller(k.up, t, s);
    } else if t == Route(k.up) {
      LtPrefix(t, s);
    } else {
      assert s[|Route(k.up)|] == Route(k)[|Route(k.up)|];
      LtByte(Route(k.up), t, s);
    }
  }

  /** Every key of the tree runs through the hole, or lies before it, or after it. */
  lemma {:induction false} ThreeWays<V>(k: Ctx<V>, n: Node<V>, t: Str)
    requires PathForm(k) && Form(n) && Form(Plug(k, n)) && IsKey(Plug(k, n), t)
    ensures Route(k) <= t || Later(k, t) || Earlier(k, t)
  {
    hide Get;
    if k.Down? {
      FillForm(k, n);
      ThreeWays(k.up, Fill(k, n), t);
      RouteGrows(k);
      if Route(k.up) <= t && t != Route(k.up) && !(Route(k) <= t) {
        RouteGet(k.up, Fill(k, n), t);
        OffStep(k, n, t[|Route(k.up)|..]);
        assert t == Route(k.up) + t[|Route(k.up)|..];
      }
    }
  }

  /** A key that enters a node and leaves it beside the hole goes through another edge of a branch. */
  lemma OffStep<V>(k: Ctx<V>, n: Node<V>, u: Str)
    requires PathForm(k) && k.Down? && Form(n) && Form(Fill(k, n)) && u != [] && Get(Fill(k, n), u).Some?
             && !(LastStep(k) <= u)
    ensures !k.compr && u[0] != k.data[|k.left|]
  {
  }

  // ---------------------------------------------------------------- the keys that are still to come

  /** A place in the tree. */
  ghost predicate At<V>(head: Node<V>, k: Ctx<V>, n: Node<V>) {
    PathShape(k) && HoleShape(k, n) && PathForm(k) && Form(n) && Plug(k, n) == head && Form(head)
  }

  lemma AtIs<V>(k: Ctx<V>, n: Node<V>)
    requires PathShape(k) && HoleShape(k, n)
    ensures At(Plug(k, n), k, n) && Formed(n)
  {
    HoleIsForm(k, n);
    PathIsForm(k);
    PlugForm(k, n);
  }

  lemma AtChild<V>(head: Node<V>, k: Ctx<V>, n: Node<V>, i: nat)
    requires At(head, k, n) && i < |n.kids|
    ensures At(head, Child(k, n, i), n.kids[i]) && Shape(n.kids[i]) && Formed(n)
    ensures Route(Child(k, n, i)) == Route(k) + (if n.compr then n.data else [n.data[i]])
  {
    ChildStep(k, n, i);
    ShapeIsRoot(n.kids[i]);
    AtIs(Child(k, n, i), n.kids[i]);
  }

  lemma AtUp<V>(head: Node<V>, k: Ctx<V>, n: Node<V>)
    requires At(head, k, n) && k.Down?
    ensures At(head, k.up, Fill(k, n))
  {
    FillShape(k, n);
    ShapeIsRoot(Fill(k, n));
    AtIs(k.up, Fill(k, n));
  }

  /** The wanted keys are those below the place and those after it. */
  ghost predicate Below<V(!new)>(head: Node<V>, k: Ctx<V>, want: Str -> bool)
    requires PathForm(k) && Form(head)
  {
    forall t | IsKey(head, t) :: want(t) <==> Route(k) < t || Later(k, t)
  }

  /** The wanted keys are those from the place on, itself included. */
  ghost predicate From<V(!new)>(head: Node<V>, k: Ctx<V>, want: Str -> bool)
    requires PathForm(k) && Form(head)
  {
    forall t | IsKey(head, t) :: want(t) <==> Route(k) <= t || Later(k, t)
  }

  /** The wanted keys are those through the edges of `n` beyond byte `c`, and those after the place. */
  ghost predicate Beyond<V(!new)>(head: Node<V>, k: Ctx<V>, n: Node<V>, c: int, want: Str -> bool)
    requires PathForm(k) && Form(head)
  {
    forall t | IsKey(head, t) :: want(t) <==> Later(k, t) || (!n.compr && Route(k) < t && t[|Route(k)|] > c)
  }

  ghost predicate Over<V(!new)>(head: Node<V>, k: Ctx<V>, want: Str -> bool)
    requires PathForm(k) && Form(head)
  {
    forall t | IsKey(head, t) :: want(t) <==> Later(k, t)
  }

  /** The first wanted key. */
  ghost predicate First<V(!new)>(head: Node<V>, want: Str -> bool, r: Str)
    requires Form(head)
  {
    IsKey(head, r) && want(r) && forall t | IsKey(head, t) && want(t) :: t == r || Lt(r, t)
  }

  ghost predicate Nothing<V(!new)>(head: Node<V>, want: Str -> bool)
    requires Form(head)
  {
    forall t | IsKey(head, t) :: !want(t)
  }

  /** A key that goes on below a node takes one of its edges, or all of its bytes. */
  lemma KeyBelow<V>(head: Node<V>, k: Ctx<V>, n: Node<V>, t: Str)
    requires At(head, k, n) && IsKey(head, t) && Route(k) < t
    ensures n.kids != [] && if n.compr then Route(k) + n.data <= t else t[|Route(k)|] in n.data
  {
    HoleIsForm(k, n);
    RouteGet(k, n, t);
    var u := t[|Route(k)|..];
    assert t == Route(k) + u && u != [];
    if n.compr {
      assert n.data <= u;
      assert t[..|Route(k) + n.data|] == Route(k) + u[..|n.data|];
    } else {
      NotAnEdge(n.data, u[0]);
    }
  }

  /** Entering a child whose edge is the first wanted one. */
  lemma EnterFirst<V(!new)>(head: Node<V>, k: Ctx<V>, n: Node<V>, i: nat, c: int, want: Str -> bool)
    requires At(head, k, n) && i < |n.kids|
    requires if n.compr then Below(head, k, want)
             else Beyond(head, k, n, c, want) && (forall j | 0 <= j < |n.data| :: n.data[j] > c <==> i <= j)
    ensures At(head, Child(k, n, i), n.kids[i]) && From(head, Child(k, n, i), want)
  {
    hide Get, Plug;
    AtChild(head, k, n, i);
    var k' := Child(k, n, i);
    forall t | IsKey(head, t) ensures want(t) <==> Route(k') <= t || Later(k', t) {
      if Route(k) < t {
        KeyBelow(head, k, n, t);
        if n.compr {
          assert Route(k') <= t;
        } else {
          EdgeOrder(n.data, i, t[|Route(k)|]);
          OneByte(Route(k), n.data[i], t);
        }
      } else if Later(k, t) {
      } else if Route(k') <= t {
        RouteGrows(k');
        assert false;
      }
    }
  }

  lemma OneByte(r: Str, c: Byte, t: Str)
    requires r < t
    ensures r + [c] <= t <==> t[|r|] == c
  {
    if t[|r|] == c { assert t[..|r| + 1] == r + [c]; }
  }

  lemma EdgeOrder(data: Str, i: nat, b: Byte)
    requires Ascending(data) && i < |data| && b in data
    ensures exists j :: 0 <= j < |data| && data[j] == b && (i <= j <==> b >= data[i])
  {
    var j :| 0 <= j < |data| && data[j] == b;
    assert i < j ==> data[i] < data[j];
    assert j < i ==> data[j] < data[i];
  }

  /** The key of a node comes before those below it and after it. */
  lemma FoundFirst<V(!new)>(head: Node<V>, k: Ctx<V>, n: Node<V>, want: Str -> bool)
    requires At(head, k, n) && From(head, k, want)
    ensures n.val.Some? ==> First(head, want, Route(k))
    ensures n.val == None ==> Below(head, k, want)
  {
    hide Plug;
    RouteGet(k, n, Route(k));
    assert Route(k)[|Route(k)|..] == [];
    if n.val.Some? {
      forall t | IsKey(head, t) && want(t) ensures t == Route(k) || Lt(Route(k), t) {
        if Later(k, t) { LaterIsGreater(k, t, Route(k)); } else if t != Route(k) { LtPrefix(Route(k), t); }
      }
    } else {
      forall t | IsKey(head, t) ensures want(t) <==> Route(k) < t || Later(k, t) {
        assert t != Route(k);
      }
    }
  }

  /** Nothing is left below a node without further edges. */
  lemma NoMoreEdges<V(!new)>(head: Node<V>, k: Ctx<V>, n: Node<V>, c: int, want: Str -> bool)
    requires At(head, k, n) && Beyond(head, k, n, c, want)
             && (n.compr || forall j | 0 <= j < |n.data| :: n.data[j] <= c)
    ensures Over(head, k, want)
  {
    hide Get, Plug;
    forall t | IsKey(head, t) ensures want(t) <==> Later(k, t) {
      if !n.compr && Route(k) < t { KeyBelow(head, k, n, t); }
    }
  }

  lemma LeafBelow<V(!new)>(head: Node<V>, k: Ctx<V>, n: Node<V>, want: Str -> bool)
    requires At(head, k, n) && Below(head, k, want) && n.kids == []
    ensures Over(head, k, want)
  {
    forall t | IsKey(head, t) ensures want(t) <==> Later(k, t) {
      if Route(k) < t { KeyBelow(head, k, n, t); }
    }
  }

  /** Going up: what was after the place is now behind its edge. */
  lemma OverUp<V(!new)>(head: Node<V>, k: Ctx<V>, n: Node<V>, want: Str -> bool)
    requires At(head, k, n) && Over(head, k, want) && k.Down?
    ensures At(head, k.up, Fill(k, n))
    ensures Beyond(head, k.up, Fill(k, n), if k.compr then 0 else k.data[|k.left|], want)
  {
    AtUp(head, k, n);
  }

  lemma OverTop<V(!new)>(head: Node<V>, k: Ctx<V>, want: Str -> bool)
    requires Form(head) && k.Top? && Over(head, k, want)
    ensures Nothing(head, want)
  {
  }

  // ---------------------------------------------------------------- backwards

  /** The wanted keys are those before the place. */
  ghost predicate Before<V(!new)>(head: Node<V>, k: Ctx<V>, want: Str -> bool)
    requires PathForm(k) && Form(head)
  {
    forall t | IsKey(head, t) :: want(t) <==> Earlier(k, t)
  }

  /** The wanted keys are those through the edges of `n` before byte `c`, its own, and those before the place. */
  ghost predicate Short<V(!new)>(head: Node<V>, k: Ctx<V>, n: Node<V>, c: int, want: Str -> bool)
    requires PathForm(k) && Form(head)
  {
    forall t | IsKey(head, t) ::
      want(t) <==> Earlier(k, t) || t == Route(k) || (!n.compr && Route(k) < t && t[|Route(k)|] < c)
  }

  /** The wanted keys are those up to and below the place. */
  ghost predicate UpTo<V(!new)>(head: Node<V>, k: Ctx<V>, want: Str -> bool)
    requires PathForm(k) && Form(head)
  {
    forall t | IsKey(head, t) :: want(t) <==> Earlier(k, t) || Route(k) <= t
  }

  /** The last wanted key. */
  ghost predicate Final<V(!new)>(head: Node<V>, want: Str -> bool, r: Str)
    requires Form(head)
  {
    IsKey(head, r) && want(r) && forall t | IsKey(head, t) && want(t) :: t == r || Lt(t, r)
  }

  lemma BeforeUp<V(!new)>(head: Node<V>, k: Ctx<V>, n: Node<V>, want: Str -> bool)
    requires At(head, k, n) && Before(head, k, want) && k.Down?
    ensures At(head, k.up, Fill(k, n))
    ensures Short(head, k.up, Fill(k, n), if k.compr then 0 else k.data[|k.left|], want)
  {
    AtUp(head, k, n);
  }

  lemma BeforeTop<V(!new)>(head: Node<V>, k: Ctx<V>, want: Str -> bool)
    requires Form(head) && k.Top? && Before(head, k, want)
    ensures Nothing(head, want)
  {
  }

  /** Entering a child whose edge is the last wanted one. */
  lemma EnterLast<V(!new)>(head: Node<V>, k: Ctx<V>, n: Node<V>, i: nat, c: int, want: Str -> bool)
    requires At(head, k, n) && i < |n.kids|
    requires if n.compr then UpTo(head, k, want)
             else Short(head, k, n, c, want) && (forall j | 0 <= j < |n.data| :: n.data[j] < c <==> j <= i)
    ensures At(head, Child(k, n, i), n.kids[i]) && UpTo(head, Child(k, n, i), want)
  {
    hide Get, Plug;
    AtChild(head, k, n, i);
    var k' := Child(k, n, i);
    forall t | IsKey(head, t) ensures want(t) <==> Earlier(k', t) || Route(k') <= t {
      if Route(k) < t {
        KeyBelow(head, k, n, t);
        if n.compr {
          assert Route(k') <= t;
        } else {
          EdgeOrder(n.data, i, t[|Route(k)|]);
          EdgeOrderDown(n.data, i, t[|Route(k)|]);
          OneByte(Route(k), n.data[i], t);
        }
      } else if !Earlier(k, t) && t != Route(k) && Route(k') <= t {
        RouteGrows(k');
        assert false;
      }
    }
  }

  lemma EdgeOrderDown(data: Str, i: nat, b: Byte)
    requires Ascending(data) && i < |data| && b in data
    ensures exists j :: 0 <= j < |data| && data[j] == b && (j <= i <==> b <= data[i])
  {
    var j :| 0 <= j < |data| && data[j] == b;
    assert i < j ==> data[i] < data[j];
    assert j < i ==> data[j] < data[i];
  }

  /** From a node with children the last key is below its last child. */
  lemma LastChild<V(!new)>(head: Node<V>, k: Ctx<V>, n: Node<V>, want: Str -> bool)
    requires At(head, k, n) && UpTo(head, k, want) && n.kids != []
    ensures var i := |n.kids| - 1; At(head, Child(k, n, i), n.kids[i]) && UpTo(head, Child(k, n, i), want)
  {
    hide Get, Plug;
    HoleIsForm(k, n);
    var i := |n.kids| - 1;
    if !n.compr {
      forall t | IsKey(head, t)
        ensures want(t) <==> Earlier(k, t) || t == Route(k) || (!n.compr && Route(k) < t && t[|Route(k)|] < 256)
      {
      }
      assert Short(head, k, n, 256, want);
    }
    EnterLast(head, k, n, i, 256, want);
  }

  lemma LeafFinal<V(!new)>(head: Node<V>, k: Ctx<V>, n: Node<V>, want: Str -> bool)
    requires At(head, k, n) && UpTo(head, k, want) && n.kids == [] && n.val.Some?
    ensures Final(head, want, Route(k))
  {
    hide Plug;
    RouteGet(k, n, Route(k));
    assert Route(k)[|Route(k)|..] == [];
    forall t | IsKey(head, t) && want(t) ensures t == Route(k) || Lt(t, Route(k)) {
      if Earlier(k, t) { EarlierIsSmaller(k, t, Route(k)); } else if t != Route(k) { KeyBelow(head, k, n, t); }
    }
  }

  /** No edge before `c`: the key of the node is the last one, or the search goes on upwards. */
  lemma NoEdgeBefore<V(!new)>(head: Node<V>, k: Ctx<V>, n: Node<V>, c: int, want: Str -> bool)
    requires At(head, k, n) && Short(head, k, n, c, want) && (n.compr || forall j | 0 <= j < |n.data| :: n.data[j] >= c)
    ensures n.val.Some? ==> Final(head, want, Route(k))
    ensures n.val == None ==> Before(head, k, want)
  {
    hide Plug;
    RouteGet(k, n, Route(k));
    assert Route(k)[|Route(k)|..] == [];
    forall t | IsKey(head, t) ensures want(t) <==> Earlier(k, t) || t == Route(k) {
      if !n.compr && Route(k) < t { KeyBelow(head, k, n, t); }
    }
    if n.val.Some? {
      forall t | IsKey(head, t) && want(t) ensures t == Route(k) || Lt(t, Route(k)) {
        if Earlier(k, t) { EarlierIsSmaller(k, t, Route(k)); }
      }
    } else {
      forall t | IsKey(head, t) ensures want(t) <==> Earlier(k, t) {
        assert t != Route(k);
      }
    }
  }
}
