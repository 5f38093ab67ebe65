/** The iterative red-black tree of src/tree/rbtree.c.

    Insertion and deletion walk down with an explicit stack of nodes and directions (`pa`, `da`)
    and repair the tree on the way back.  The bottom of the stack is the pseudo-node `HDR`, whose
    link is the root pointer.  The ghost field `tree` is the tree in the cells. */
module RbTree {
  import opened Options
  import opened Words
  import opened SortedItems
  import opened RedBlack
  import opened RbStore
  import opened RbRepairs
  import opened RbUnlink
  import opened RbSteps

  class RbTable<V> {
    var store: Store<V>
    var count: nat
    ghost var tree: Tree<V>

    ghost predicate Valid()
      reads this
    {
      && State(store, Top, tree) && Owns(store, Bag(tree))
      && Balanced(tree) && Sorted(Inorder(tree))
      && count == |Inorder(tree)|
    }

    ghost function Items(): seq<Item<V>>
      reads this
    {
      Inorder(tree)
    }

    /** A stack of `n` entries fits the source's arrays. */
    ghost predicate Fits(n: nat)
      reads this`count
    {
      count < LONG_MAX ==> n <= RB_MAX_HEIGHT
    }

    constructor ()
      ensures Valid() && Items() == []
    {
      store := Store(NULL, map[]);
      count := 0;
      tree := Leaf;
      assert Rb<V>(Leaf, 0) && Bag<V>(Leaf) == multiset{};
    }

    /** `y`, in direction `d` of `x`, rises over it and hangs in direction `e` of `q`. */
    method Lift(x: Ptr, y: Ptr, d: Dir, q: Ptr, e: Dir)
      requires x in store.mem && y in store.mem && store.Has(q)
      requires x != y && q != x && q != y && x != HDR && y != HDR && x != NULL && y != NULL
      modifies this`store
      ensures Lifted(old(store), store, x, y, d, q, e)
    {
      hide Store.SetLink, Store.Link, Wrote, Is, SameData, Lifted;
      ghost var st := store;
      LinkWritten(st, x, d, store.Link(y, Other(d)));
      store := store.SetLink(x, d, store.Link(y, Other(d)));
      ghost var s1 := store;
      LinkWritten(s1, y, Other(d), x);
      store := store.SetLink(y, Other(d), x);
      ghost var s2 := store;
      LinkWritten(s2, q, e, y);
      store := store.SetLink(q, e, y);
      ThreeLinks(st, s1, s2, store, x, y, d, q, e);
    }

    /** Straighten a bent pair of red nodes, src/tree/rbtree.c:141-149 and 170-178: `x` is the
        upper node, in direction `e` of `q`, and its child away from `e` rises over it. */
    method StraightenPair(x: Ptr, q: Ptr, e: Dir, ghost k: Ctx<V>, ghost t: Tree<V>) returns (y: Ptr)
      requires State(store, k, t) && k.Frame? && k.up.Frame? && t.Bin? && k.d == Other(e)
      requires x == k.p && q == Hole(k.up) && e == HoleDir(k.up)
      modifies this`store
      ensures y == t.p && var (n, u) := Straighten(k, t); State(store, n, u)
      ensures SameData(old(store), store)
    {
      hide State, Rep, RepCtx, Bag, CtxBag, Make, Kid, Wrote;
      ghost var st := store;
      ChildPieces(st, k, t, e);
      y := store.Link(x, Other(e));
      Lift(x, y, Other(e), q, e);
      StraightenDone(st, store, k, t);
    }

    /** The rotation that ends an insertion repair, src/tree/rbtree.c:151-157 and 180-186. */
    method RotateUp(x: Ptr, y: Ptr, d: Dir, q: Ptr, e: Dir, ghost k: Ctx<V>, ghost t: Tree<V>)
      requires State(store, k, t) && k.Frame? && k.up.Frame? && k.d == k.up.d == d
      requires y == k.p && x == k.up.p && q == Hole(k.up.up) && e == HoleDir(k.up.up)
      modifies this`store
      ensures State(store, k.up.up, RotateOuter(k, t))
      ensures SameData(old(store), store)
    {
      hide State, Rep, RepCtx, Bag, CtxBag, Make, Kid;
      ghost var st := store;
      StepUp(st, k, t);
      Unfold(st, k, t);
      Unfold(st, k.up, Make(k.d, k.p, k.c, k.x, t, k.s));
      MakeRoot(k.d, k.p, k.c, k.x, t, k.s);
      Pieces(st, k, t);
      store := store.SetColor(x, Red);
      store := store.SetColor(y, Black);
      Lift(x, y, d, q, e);
      OuterDone(st, store, k, t);
    }

    /** Recolouring below a red uncle `u`, src/tree/rbtree.c:134-137 and 163-166. */
    method RecolorPair(y: Ptr, u: Ptr, x: Ptr, ghost k: Ctx<V>, ghost t: Tree<V>)
      requires State(store, k, t) && k.Frame? && k.up.Frame? && k.up.s.Bin?
      requires y == k.p && x == k.up.p && u == k.up.s.p
      modifies this`store
      ensures State(store, k.up.up, Recolor(k, t))
      ensures SameData(old(store), store)
    {
      hide State, Rep, RepCtx, Bag, CtxBag, Make, Kid, Coloured, SameData, Recolor;
      ghost var st := store;
      UncleCells(st, k, t);
      Colour(y, Black);
      ghost var s1 := store;
      ColouredHas(st, s1, {y}, u);
      Colour(u, Black);
      ghost var s2 := store;
      ColouredTwice(st, s1, s2, {y}, {u});
      ColouredHas(st, s2, {y} + {u}, x);
      Colour(x, Red);
      ColouredTwice(st, s2, store, {y} + {u}, {x});
      ColouredData(st, store, {y} + {u} + {x});
      RecolorWrites(st, s1, s2, store, k, t);
    }

    /** The two shapes under a black uncle. */
    method RotateLast(pa: seq<Ptr>, da: seq<Dir>, ghost k: Ctx<V>, ghost t: Tree<V>, ghost h: nat)
      returns (ghost t': Tree<V>)
      requires State(store, k, t) && Stack(pa, da, k) && k.Frame? && k.up.Frame?
      requires RedPair(k, t, h) && IsBlack(k.up.s)
      modifies this`store
      ensures State(store, k.up.up, t') && CtxRb(k.up.up, h + 1) && Rb(t', h + 1) && t'.Bin? && t'.c == Black
      ensures Inorder(Plug(k.up.up, t')) == Inorder(Plug(k, t)) && SameData(old(store), store)
      ensures All(k.up.up, t') == All(k, t)
    {
      hide State, Rep, CtxRb, Rb, Plug, Inorder, Recolor, RotateOuter, RotateInner, Straighten, All;
      StackTop(k);
      StackTop(k.up);
      StackTop(k.up.up);
      var n := |pa|;
      var x, d := pa[n - 2], da[n - 2];
      if da[n - 1] == d {
        RotateUp(x, pa[n - 1], d, pa[n - 3], da[n - 3], k, t);
        RotateOuterKeeps(k, t, h);
        RotateOuterAll(k, t);
        t' := RotateOuter(k, t);
      } else {
        StraightenThenRotate(k, t);
        StraightenShape(k, t);
        var y := StraightenPair(pa[n - 1], x, d, k, t);
        ghost var s := Straighten(k, t);
        RotateUp(x, y, d, pa[n - 3], da[n - 3], s.0, s.1);
        RotateInnerKeeps(k, t, h);
        StraightenAll(k, t);
        RotateOuterAll(s.0, s.1);
        t' := RotateInner(k, t);
      }
    }

    /** The loop that restores the rules after an insertion, src/tree/rbtree.c:130-192. */
    method RepairInsertion(pa0: seq<Ptr>, da0: seq<Dir>, ghost k0: Ctx<V>, ghost t0: Tree<V>, ghost h0: nat)
      returns (ghost tree': Tree<V>)
      requires State(store, k0, t0) && Stack(pa0, da0, k0) && CtxRb(k0, h0)
      requires Rb(t0, h0) && t0.Bin? && t0.c == Red
      modifies this`store
      ensures State(store, Top, tree') && Balanced(tree') && Inorder(tree') == Inorder(Plug(k0, t0))
      ensures SameData(old(store), store) && Bag(tree') == All(k0, t0)
    {
      hide State, Rep, CtxRb, Rb, Plug, Balanced, Inorder, Bag, All, Stack, SameData, Recolor, RotateOuter, RotateInner;
      var pa, da := pa0, da0;
      ghost var k, t, h := k0, t0, h0;
      SameAgain(store);
      StackOf(pa, da, k);
      DepthOf(pa, da, k);
      BlackAbove(k, h);
      if k.Frame? { LastColour(store, k, t); }
      while |pa| >= 3 && store.IsRed(pa[|pa| - 1])
        invariant State(store, k, t) && Stack(pa, da, k) && CtxRb(k, h) && Rb(t, h) && t.Bin?
        invariant t.c == Red && |pa| == |da| == Depth(k) + 1
        invariant Inorder(Plug(k, t)) == Inorder(Plug(k0, t0)) && All(k, t) == All(k0, t0)
        invariant SameData(old(store), store)
        invariant k.Frame? ==> pa[|pa| - 1] == k.p && (store.IsRed(k.p) <==> k.c == Red)
        invariant |pa| < 3 ==> IsBlackFrame(k)
        decreases |pa|
      {
        var n := |pa|;
        StackTwo(pa, da, k);
        ghost var st := store;
        TopColours(store, k, t);
        var x, d := pa[n - 2], da[n - 2];
        var y := store.Link(x, Other(d));
        if store.IsRed(y) {
          RecolorPair(pa[n - 1], y, x, k, t);
          RecolorKeeps(k, t, h);
          RecolorAll(k, t);
          t, h := Recolor(k, t), h + 1;
          pa, da := pa[..n - 2], da[..n - 2];
          k := k.up.up;
          BlackAbove(k, h);
          if k.Frame? { LastColour(store, k, t); }
          SameChain(old(store), st, store);
          DepthOf(pa, da, k);
        } else {
          t := RotateLast(pa, da, k, t, h);
          SameChain(old(store), st, store);
          k, h := k.up.up, h + 1;
          break;
        }
      }
      ghost var st := store;
      tree' := PaintRoot(k, t, h);
      SameChain(old(store), st, store);
    }

    /** `tree->rb_root->rb_color = RB_BLACK` */
    method PaintRoot(ghost k: Ctx<V>, ghost t: Tree<V>, ghost h: nat) returns (ghost tree': Tree<V>)
      requires State(store, k, t) && CtxRb(k, h) && Rb(t, h) && t.Bin? && (IsBlack(t) || IsBlackFrame(k))
      modifies this`store
      ensures State(store, Top, tree') && Balanced(tree') && Inorder(tree') == Inorder(Plug(k, t))
      ensures SameData(old(store), store) && Bag(tree') == All(k, t)
    {
      hide Rep, Rb, CtxRb, Balanced, Inorder, Bag, CtxBag, RepCtx, All;
      Climb(store, k, t);
      PlugAll(k, t);
      BlackBag(Plug(k, t));
      ghost var g := PlugRb(k, t, h);
      PlugIsBin(k, t);
      RepRoot(store, store.root, Plug(k, t));
      PaintBlack(Plug(k, t), g);
      RootPainted(store, store.SetColor(store.root, Black), Plug(k, t));
      tree' := Paint(Plug(k, t), Black);
      store := store.SetColor(store.root, Black);
    }

    /** Every descent starts at the root. */
    lemma StartDescent(key: int) returns (h: nat)
      requires Valid()
      ensures Descending(store, [HDR], [Left], Top, tree, h, tree, key) && store.root == Root(tree)
    {
      hide Rep, Bag, Inorder;
      h :| Rb(tree, h);
      RepRoot(store, store.root, tree);
    }

    /** Insert the item, or find the one with its key.  `node` is the address the allocator would
        return.  The result is the address of the node that holds the key. */
    method Probe(item: Item<V>, node: Ptr) returns (n: Ptr)
      requires Valid() && node !in store.mem && node != NULL && node != HDR
      modifies this
      ensures Valid() && Items() == Insert(old(Items()), item)
      ensures n in store.mem && Seek(Items(), item.key) == Some(store.mem[n].data)
      ensures Seek(old(Items()), item.key).None? ==>
                n == node && store.mem.Keys == old(store.mem.Keys) + {node} && Stay(old(store), store, {node})
      ensures Seek(old(Items()), item.key).Some? ==> store == old(store) && count == old(count)
    {
      hide State, Rep, CtxRb, Rb, Plug, Balanced, PaOf, DaOf, Inorder, Insert, Seek, Bag, All, Owns;
      var pa, da := [HDR], [Left];
      ghost var k: Ctx<V>, t := Top, tree;
      ghost var h := StartDescent(item.key);
      var p := store.root;
      while p != NULL
        invariant Valid() && tree == old(tree) && store == old(store) && count == old(count)
        invariant Descending(store, pa, da, k, t, h, tree, item.key) && p == Root(t) && Fits(|pa|)
        decreases t
      {
        CellBelow(store, k, t);
        if item.key == store.mem[p].data.key {
          Present(tree, k, t, item);
          return p;
        }
        var d := if item.key > store.mem[p].data.key then Right else Left;
        StackFits(tree, pa, da, k, t);
        h := StepTowards(store, pa, da, k, t, h, tree, item.key, d);
        pa, da := pa + [p], da + [d];
        k, t := Frame(k, d, t.p, t.c, t.x, Kid(t, Other(d))), Kid(t, d);
        p := store.Link(p, d);
        LinkBelow(store, k, t);
      }
      NoneBelow(store, k, t);
      RedLeaf(node, item, h);
      Absent(tree, k, item, node);
      ghost var st, t0 := store, tree;
      Plant(pa, da, item, node, k);
      ghost var s1 := store;
      tree := RepairInsertion(pa, da, k, Bin(node, Red, Leaf, item, Leaf), h);
      PlantedStay(st, s1, store, node);
      OwnsPlanted(st, s1, store, t0, tree, k, node, item);
      count := count + 1;
      return node;
    }

    /** Link a new red node into the empty hole found. */
    method Plant(pa: seq<Ptr>, da: seq<Dir>, item: Item<V>, node: Ptr, ghost k: Ctx<V>)
      requires State(store, k, Leaf) && Stack(pa, da, k)
      requires node !in store.mem && node != NULL && node != HDR
      modifies this`store
      ensures State(store, k, Bin(node, Red, Leaf, item, Leaf))
      ensures node in store.mem && store.mem[node].data == item
      ensures Stay(old(store), store, {node})
      ensures store.mem.Keys == old(store.mem.Keys) + {node}
    {
      hide Rep, RepCtx, Bag, CtxBag, Plug;
      StackTop(k);
      ghost var st := store;
      HoleInStore(st, k, Leaf);
      store := store.(mem := store.mem[node := RbNode(NULL, NULL, item, Red)]);
      store := store.SetLink(pa[|pa| - 1], da[|da| - 1], node);
      Planted(st, store, k, node, item);
    }

    /** Look the key up, src/tree/rbtree.c:392-408. */
    method Find(key: int) returns (r: Option<Item<V>>)
      requires Valid()
      ensures r == Seek(Items(), key)
    {
      hide State, Rep, CtxRb, Rb, Plug, Balanced, PaOf, DaOf, Inorder, Seek, Bag, Owns, Sorted;
      ghost var pa, da := [HDR], [Left];
      ghost var k: Ctx<V>, t := Top, tree;
      ghost var h := StartDescent(key);
      var p := store.root;
      while p != NULL
        invariant Descending(store, pa, da, k, t, h, tree, key) && p == Root(t)
        decreases t
      {
        CellBelow(store, k, t);
        if key == store.mem[p].data.key {
          Present(tree, k, t, t.x);
          return Some(store.mem[p].data);
        }
        var d := if key < store.mem[p].data.key then Left else Right;
        h := StepTowards(store, pa, da, k, t, h, tree, key, d);
        pa, da := pa + [p], da + [d];
        k, t := Frame(k, d, t.p, t.c, t.x, Kid(t, Other(d))), Kid(t, d);
        p := store.Link(p, d);
        LinkBelow(store, k, t);
      }
      NoneBelow(store, k, t);
      AbsentKey(tree, k, key);
      return None;
    }

    // -------------------------------------------------------------- deletion

    /** Paint one node. */
    method Colour(p: Ptr, c: Color)
      requires p in store.mem
      modifies this`store
      ensures Coloured(old(store), store, {p}) && store.mem[p].color == c
    {
      ColourWritten(store, p, c);
      store := store.SetColor(p, c);
    }

    /** The red sibling rises over the parent, src/tree/rbtree.c:299-310 and 340-351. */
    method RaiseRed(x: Ptr, w: Ptr, d: Dir, q: Ptr, e: Dir, ghost k: Ctx<V>, ghost t: Tree<V>)
      requires State(store, k, t) && k.Frame? && k.s.Bin? && k.d == d
      requires x == k.p && w == k.s.p && q == Hole(k.up) && e == HoleDir(k.up)
      modifies this`store
      ensures State(store, RaiseSibling(k), t) && SameData(old(store), store)
    {
      hide State, Rep, RepCtx, Bag, CtxBag, Make, Kid, Wrote, Lifted, SameData;
      ghost var st := store;
      SiblingPieces(st, k, t);
      Colour(w, Black);
      ghost var s1 := store;
      Colour(x, Red);
      ColouredTwice(st, s1, store, {w}, {x});
      ghost var s2 := store;
      Lift(x, w, Other(d), q, e);
      ColouredThenLifted(st, s2, store, {w} + {x}, x, w, Other(d), q, e);
      assert {w} + {x} == {k.p, k.s.p} && Other(Other(d)) == d;
      RaiseDone(st, store, k, t);
    }

    /** The sibling's red child rises over it, src/tree/rbtree.c:319-326 and 360-367. */
    method Turn(x: Ptr, w: Ptr, d: Dir, ghost k: Ctx<V>, ghost t: Tree<V>) returns (y: Ptr)
      requires State(store, k, t) && k.Frame? && k.s.Bin? && Kid(k.s, k.d).Bin? && k.d == d
      requires x == k.p && w == k.s.p
      modifies this`store
      ensures y == Kid(k.s, d).p && State(store, k.(s := TurnSibling(k)), t) && SameData(old(store), store)
    {
      hide State, Rep, RepCtx, Bag, CtxBag, Make, Kid, Lifted, SameData, Wrote;
      ghost var st := store;
      SiblingPieces(st, k, t);
      NephewApart(st, k, t, d);
      y := store.Link(w, d);
      Colour(y, Black);
      ghost var s1 := store;
      Colour(w, Red);
      ColouredTwice(st, s1, store, {y}, {w});
      ghost var s2 := store;
      Lift(w, y, d, x, Other(d));
      ColouredThenLifted(st, s2, store, {y} + {w}, w, y, d, x, Other(d));
      WroteBelow(st, store, x, k.c, k.x, d, w, y, Hole(k.up), HoleDir(k.up), Root(t));
      TurnDone(st, store, k, t);
    }

    /** The sibling takes the parent's place, src/tree/rbtree.c:328-334 and 369-375. */
    method SettleDown(x: Ptr, w: Ptr, d: Dir, q: Ptr, e: Dir, ghost k: Ctx<V>, ghost t: Tree<V>)
      requires State(store, k, t) && k.Frame? && k.s.Bin? && Kid(k.s, Other(k.d)).Bin? && k.d == d
      requires x == k.p && w == k.s.p && q == Hole(k.up) && e == HoleDir(k.up)
      modifies this`store
      ensures State(store, k.up, Settle(k, t)) && SameData(old(store), store)
    {
      hide State, Rep, RepCtx, Bag, CtxBag, Make, Kid, Wrote, Lifted, SameData;
      ghost var st := store;
      ghost var z := Kid(k.s, Other(d)).p;
      SiblingPieces(st, k, t);
      NephewApart(st, k, t, Other(d));
      Colour(w, store.mem[x].color);
      ghost var s1 := store;
      Colour(x, Black);
      ColouredTwice(st, s1, store, {w}, {x});
      ghost var s2 := store;
      ColouredLink(st, s2, {w} + {x}, w, Other(d));
      Colour(store.Link(w, Other(d)), Black);
      ColouredTwice(st, s2, store, {w} + {x}, {z});
      ghost var s3 := store;
      ghost var ps := {w} + {x} + {z};
      Lift(x, w, Other(d), q, e);
      ColouredThenLifted(st, s3, store, ps, x, w, Other(d), q, e);
      assert ps == {k.p, k.s.p, z} && Other(Other(d)) == d;
      SettleDone(st, store, k, t);
    }

    method Relink(p: Ptr, d: Dir, q: Ptr)
      requires store.Has(p)
      modifies this`store
      ensures Relinked(old(store), store, p, d, q)
    {
      LinkWritten(store, p, d, q);
      store := store.SetLink(p, d, q);
    }

    /** A node without a right child is bypassed, src/tree/rbtree.c:245-246. */
    method Bypass(p: Ptr, pa: seq<Ptr>, da: seq<Dir>, ghost k: Ctx<V>, ghost t: Tree<V>, ghost h: nat)
      returns (ghost g: nat)
      requires State(store, k, t) && Stack(pa, da, k) && t.Bin? && t.r == Leaf && p == t.p
      requires CtxRb(k, h) && Rb(t, h) && Sorted(Inorder(Plug(k, t)))
      modifies this`store
      ensures Cut(store, k, t.l, g, p, All(k, t), Remove(Inorder(Plug(k, t)), t.x.key))
      ensures SameData(old(store), store)
    {
      hide State, Rep, RepCtx, Bag, CtxBag, Plug, Rb, CtxRb, Short, Sorted, Inorder, All, SameData;
      ghost var st := store;
      StackTop(k);
      HoleInStore(st, k, t);
      LinkBelow(st, k, t);
      DeletedCell(st, k, t);
      Relink(pa[|pa| - 1], da[|da| - 1], store.Link(p, Left));
      RelinkedData(st, store, pa[|pa| - 1], da[|da| - 1], st.Link(p, Left));
      BypassDone(st, store, k, t);
      CutRb(k, t, t.l, h);
      BypassContents(k, t);
      g := if t.c == Black then h - 1 else h;
    }

    /** The right child `r` of the deleted node has no left child: it moves up, with the colours
        swapped, src/tree/rbtree.c:251-258. */
    method TakeDirect(p: Ptr, r: Ptr, pa0: seq<Ptr>, da0: seq<Dir>, ghost base: Ctx<V>, ghost s: Tree<V>, ghost h: nat)
      returns (pa: seq<Ptr>, da: seq<Dir>, ghost g: nat)
      requires Succeeding(store, pa0 + [p], da0 + [Right], base, base, s, h) && s.l == Leaf
      requires p == base.p && r == s.p && Stack(pa0, da0, base.up) && Sorted(Inorder(Plug(base, s)))
      modifies this`store
      ensures Stack(pa, da, TakeOver(base, s)) && |pa| <= Height(Plug(base, s)) + 1
      ensures Cut(store, TakeOver(base, s), s.r, g, p, All(base, s), Remove(Inorder(Plug(base, s)), base.x.key))
      ensures SameData(old(store), store)
    {
      hide State, Rep, RepCtx, Bag, CtxBag, Plug, Rb, CtxRb, Short, Sorted, Inorder, All, Wrote, Coloured, Relinked,
           SameData;
      ghost var st := store;
      StackTop(base.up);
      StackBelow(pa0 + [p], da0 + [Right], base, s);
      ChildPieces(st, base, s, Left);
      DirectCells(st, base, s);
      Relink(r, Left, store.Link(p, Left));
      ghost var s1 := store;
      RelinkedData(st, s1, r, Left, st.Link(p, Left));
      SwapColours(r, p);
      ghost var s2 := store;
      ColouredData(s1, s2, {r} + {p});
      SameChain(st, s1, s2);
      LinkedHas(st, s1, s2, r, p, pa0[|pa0| - 1]);
      Relink(pa0[|pa0| - 1], da0[|da0| - 1], r);
      RelinkedData(s2, store, pa0[|pa0| - 1], da0[|da0| - 1], r);
      SameChain(st, s2, store);
      DirectWrites(st, s1, s2, store, p, r, st.Link(p, Left), pa0[|pa0| - 1], da0[|da0| - 1]);
      pa, da := pa0 + [r], da0 + [Right];
      DirectDone(st, store, base, s);
      SuccessorContents(base, base, s);
      g := TakenRb(base, base, s, h);
    }

    /** Swap the colours of two nodes. */
    method SwapColours(a: Ptr, b: Ptr)
      requires a in store.mem && b in store.mem && a != b
      modifies this`store
      ensures Coloured(old(store), store, {a} + {b})
      ensures store.mem[a].color == old(store.mem[b].color) && store.mem[b].color == old(store.mem[a].color)
    {
      ghost var st := store;
      var t := store.mem[a].color;
      Colour(a, store.mem[b].color);
      ghost var s1 := store;
      Colour(b, t);
      ColouredTwice(st, s1, store, {a}, {b});
    }

    /** The successor lies deeper: walk left to it, leaving its stack slot for later, and let it
        take over, src/tree/rbtree.c:259-283.  The source leaves the slot unset during the walk;
        here it holds the deleted node. */
    method TakeSuccessor(p: Ptr, r0: Ptr, pa0: seq<Ptr>, da0: seq<Dir>, ghost base: Ctx<V>, ghost s0: Tree<V>,
                         ghost h0: nat)
      returns (pa: seq<Ptr>, da: seq<Dir>, ghost k': Ctx<V>, ghost t': Tree<V>, ghost g: nat)
      requires base.Frame? && Succeeding(store, pa0 + [p], da0 + [Right], base, base, s0, h0) && s0.l.Bin?
      requires p == base.p && r0 == s0.p && Stack(pa0, da0, base.up) && Sorted(Inorder(Plug(base, s0)))
      modifies this`store
      ensures Stack(pa, da, k') && |pa| <= Height(Plug(base, s0)) + 1
      ensures Cut(store, k', t', g, p, All(base, s0), Remove(Inorder(Plug(base, s0)), base.x.key))
      ensures SameData(old(store), store)
    {
      hide Rep, RepCtx, State, Bag, CtxBag, Plug, Rb, CtxRb, Short, Sorted, Inorder, All, Succeeding, SameData;
      ghost var st := store;
      StackTop(base.up);
      pa, da := pa0 + [p], da0 + [Right];
      ghost var k, s, h := base, s0, h0;
      var r, x := r0, NULL;
      LeftOfSucceeding(st, pa, da, k, base, s, h);
      while true
        invariant store == st && Succeeding(st, pa, da, k, base, s, h) && s.Bin? && r == s.p && s.l.Bin?
        invariant Plug(k, s) == Plug(base, s0) && All(k, s) == All(base, s0)
        invariant st.Has(r) && |pa| > |pa0|
        decreases s
      {
        h := StepLeft(st, pa, da, k, base, s, h);
        pa, da := pa + [r], da + [Left];
        k, s := Frame(k, Left, s.p, s.c, s.x, s.r), s.l;
        x := store.Link(r, Left);
        LeftOfSucceeding(st, pa, da, k, base, s, h);
        if store.Link(x, Left) == NULL {
          break;
        }
        r := x;
      }
      Arrived(st, pa, da, k, base, s, h, pa0);
      k', t', g := TakeOverWrites(p, x, r, pa0, da0, k, base, s, h);
      PathOfSucceeding(pa, da, k, base, s, pa0);
      StackBelow(pa, da, k, s);
      pa, da := pa[|pa0| := x], da[|da0| := Right];
    }

    /** The writes around the successor `s` and its parent `r`, src/tree/rbtree.c:272-282. */
    method TakeOverWrites(p: Ptr, x: Ptr, r: Ptr, pa0: seq<Ptr>, da0: seq<Dir>,
                          ghost k: Ctx<V>, ghost base: Ctx<V>, ghost s: Tree<V>, ghost h: nat)
      returns (ghost k': Ctx<V>, ghost t': Tree<V>, ghost g: nat)
      requires State(store, k, s) && AtSuccessor(k, base, s) && k != base && CtxRb(k, h) && Rb(s, h)
      requires p == base.p && x == s.p && r == k.p && Stack(pa0, da0, base.up) && Sorted(Inorder(Plug(k, s)))
      modifies this`store
      ensures k' == Rebase(k, base, TakeOver(base, s)) && t' == s.r
      ensures Cut(store, k', t', g, p, All(k, s), Remove(Inorder(Plug(k, s)), base.x.key))
      ensures SameData(old(store), store)
    {
      hide Rep, RepCtx, State, Bag, CtxBag, Plug, Rb, CtxRb, Short, Sorted, Inorder, All;
      hide Coloured, Relinked, Step, Wrote, Store.Link, SameData;
      ghost var st := store;
      StackTop(base.up);
      SuccessorCells(st, k, base, s);
      var q, e := pa0[|pa0| - 1], da0[|da0| - 1];
      Relink(q, e, x);
      ghost var s1 := store;
      OtherLink(st, s1, q, e, x, p, Left);
      OtherLink(st, s1, q, e, x, p, Right);
      OtherLink(st, s1, q, e, x, x, Right);
      Relink(x, Left, store.Link(p, Left));
      ghost var s2 := store;
      OtherLink(s1, s2, x, Left, st.Link(p, Left), x, Right);
      OtherLink(s1, s2, x, Left, st.Link(p, Left), p, Right);
      Relink(r, Left, store.Link(x, Right));
      ghost var s3 := store;
      OtherLink(s2, s3, r, Left, st.Link(x, Right), p, Right);
      Relink(x, Right, store.Link(p, Right));
      ghost var s4 := store;
      SwapColours(x, p);
      TakeOverDone(st, s1, s2, s3, s4, store, k, base, s);
      FiveData(st, s1, s2, s3, s4, store, base.p, x, r, q, e);
      g := TakenRb(k, base, s, h);
      SuccessorContents(k, base, s);
      k', t' := Rebase(k, base, TakeOver(base, s)), s.r;
    }

    /** Cut the node `p` out of the tree, src/tree/rbtree.c:245-284. */
    method Unlink(p: Ptr, pa0: seq<Ptr>, da0: seq<Dir>, ghost k: Ctx<V>, ghost t: Tree<V>, ghost h: nat)
      returns (pa: seq<Ptr>, da: seq<Dir>, ghost k': Ctx<V>, ghost t': Tree<V>, ghost g: nat)
      requires State(store, k, t) && Stack(pa0, da0, k) && t.Bin? && p == t.p
      requires CtxRb(k, h) && Rb(t, h) && (IsBlack(t) || (k.Frame? && k.c == Black)) && Sorted(Inorder(Plug(k, t)))
      modifies this`store
      ensures Stack(pa, da, k') && |pa| <= Height(Plug(k, t)) + 1
      ensures Cut(store, k', t', g, p, All(k, t), Remove(Inorder(Plug(k, t)), t.x.key))
      ensures SameData(old(store), store)
    {
      hide Rep, RepCtx, State, Bag, CtxBag, Plug, Rb, CtxRb, Short, Sorted, Inorder, All, Stack, Height, SameData;
      StackBelow(pa0, da0, k, t);
      LeftOf(store, k, t);
      if store.Link(p, Right) == NULL {
        g := Bypass(p, pa0, da0, k, t, h);
        pa, da, k', t' := pa0, da0, k, t.l;
      } else {
        ghost var base := Frame(k, Right, t.p, t.c, t.x, t.l);
        ghost var h1 := StepRight(store, pa0, da0, k, t, h);
        LeftOfSucceeding(store, pa0 + [p], da0 + [Right], base, base, t.r, h1);
        var r := store.Link(p, Right);
        if store.Link(r, Left) == NULL {
          pa, da, g := TakeDirect(p, r, pa0, da0, base, t.r, h1);
          k', t' := TakeOver(base, t.r), t.r.r;
        } else {
          pa, da, k', t', g := TakeSuccessor(p, r, pa0, da0, base, t.r, h1);
        }
      }
    }

    /** A red sibling is raised first, so that the sibling is black, src/tree/rbtree.c:299-313. */
    method RaiseIfRed(pa0: seq<Ptr>, da0: seq<Dir>, ghost k0: Ctx<V>, ghost t: Tree<V>, ghost h: nat)
      returns (pa: seq<Ptr>, da: seq<Dir>, w: Ptr, ghost k: Ctx<V>)
      requires State(store, k0, t) && Stack(pa0, da0, k0) && Short(k0, t, h) && k0.Frame? && IsBlack(t)
      requires Fits(|pa0| + 1)
      modifies this`store
      ensures State(store, k, t) && Stack(pa, da, k) && Short(k, t, h) && k.Frame?
      ensures k.s.Bin? && k.s.c == Black && w == k.s.p
      ensures Inorder(Plug(k, t)) == Inorder(Plug(k0, t)) && All(k, t) == All(k0, t)
      ensures SameData(old(store), store)
      ensures |pa| == |pa0| || (|pa| == |pa0| + 1 && k.c == Red)
      ensures Fits(|pa|)
    {
      hide State, Rep, CtxRb, Rb, Plug, Short, Inorder, All, SameData;
      pa, da, k := pa0, da0, k0;
      SameAgain(store);
      StackOf(pa, da, k);
      ShortPath(k, t, h);
      SiblingCells(store, k, t);
      var n := |pa|;
      var p, d := pa[n - 1], da[n - 1];
      w := store.Link(p, Other(d));
      if store.IsRed(w) {
        RaiseRed(p, w, d, pa[n - 2], da[n - 2], k, t);
        RaiseSiblingKeeps(k, t, h);
        RaiseAll(k, t);
        RaiseStack(pa, da, k);
        k := RaiseSibling(k);
        pa, da := pa[..n - 1] + [w] + [p], da[..n - 1] + [d] + [d];
        SiblingCells(store, k, t);
        w := store.Link(p, Other(d));
      }
    }

    /** The sibling `w` is black: pass the problem up or settle it, src/tree/rbtree.c:312-336. */
    method MendUnderBlack(pa: seq<Ptr>, da: seq<Dir>, w0: Ptr, ghost k0: Ctx<V>, ghost t0: Tree<V>, ghost h0: nat)
      returns (done: bool, ghost t: Tree<V>, ghost h: nat)
      requires State(store, k0, t0) && Stack(pa, da, k0) && Short(k0, t0, h0) && k0.Frame? && IsBlack(t0)
      requires k0.s.Bin? && k0.s.c == Black && w0 == k0.s.p
      modifies this`store
      ensures State(store, k0.up, t) && t.Bin? && t.c == k0.c
      ensures !done ==> Short(k0.up, t, h)
      ensures done ==> CtxRb(k0.up, h) && Rb(t, h) && (k0.c == Black || (k0.up.Frame? && k0.up.c == Black))
      ensures Inorder(Plug(k0.up, t)) == Inorder(Plug(k0, t0)) && All(k0.up, t) == All(k0, t0)
      ensures SameData(old(store), store)
    {
      hide State, Rep, CtxRb, Rb, Plug, Short, Inorder, All, SameData;
      hide PassUp, TurnSibling, Settle;
      ghost var st, k := store, k0;
      ShortPath(k, t0, h0);
      StackOf(pa, da, k);
      SiblingCells(store, k, t0);
      var n, w := |pa|, w0;
      var p, d := pa[n - 1], da[n - 1];
      if !store.IsRed(store.Link(w, Left)) && !store.IsRed(store.Link(w, Right)) {
        PassUpBy(w, k, t0);
        PassUpKeeps(k, t0, h0);
        PassUpAll(k, t0);
        done, t, h := false, PassUp(k, t0), if k.c == Black then h0 + 1 else h0;
      } else {
        SameAgain(store);
        if !store.IsRed(store.Link(w, Other(d))) {
          w := Turn(p, w, d, k, t0);
          TurnSiblingKeeps(k, t0, h0);
          TurnAll(k, t0);
          TurnRoot(k);
          k := k.(s := TurnSibling(k));
        }
        ghost var s1 := store;
        SettleDown(p, w, d, pa[n - 2], da[n - 2], k, t0);
        SettleKeeps(k, t0, h0);
        SettleAll(k, t0);
        SameChain(st, s1, store);
        SettleRoot(k, t0);
        done, t, h := true, Settle(k, t0), if k.c == Black then h0 + 2 else h0 + 1;
      }
    }

    /** `w->rb_color = RB_RED` */
    method PassUpBy(w: Ptr, ghost k: Ctx<V>, ghost t: Tree<V>)
      requires State(store, k, t) && k.Frame? && k.s.Bin? && w == k.s.p
      modifies this`store
      ensures State(store, k.up, PassUp(k, t)) && PassUp(k, t).Bin? && SameData(old(store), store)
    {
      hide State, Kid, SameData;
      ghost var st := store;
      SiblingCells(st, k, t);
      ColourWritten(st, w, Red);
      store := store.SetColor(w, Red);
      ColouredData(st, store, {w});
      PassUpDone(st, store, k, t);
    }

    /** The loop that restores the rules after a deletion, src/tree/rbtree.c:286-382: the subtree
        under the hole is one black node short. */
    method RepairDeletion(pa0: seq<Ptr>, da0: seq<Dir>, ghost k0: Ctx<V>, ghost t0: Tree<V>, ghost h0: nat)
      returns (ghost k: Ctx<V>, ghost t: Tree<V>, ghost h: nat)
      requires State(store, k0, t0) && Stack(pa0, da0, k0) && Short(k0, t0, h0) && Fits(|pa0| + 1)
      modifies this`store
      ensures State(store, k, t) && CtxRb(k, h) && Rb(t, h) && (IsBlack(t) || (k.Frame? && k.c == Black))
      ensures Inorder(Plug(k, t)) == Inorder(Plug(k0, t0)) && All(k, t) == All(k0, t0)
      ensures SameData(old(store), store)
    {
      hide State, Rep, CtxRb, Rb, Plug, Short, Inorder, All, SameData, Stack;
      hide PassUp, RaiseSibling, TurnSibling, Settle;
      var pa, da := pa0, da0;
      k, t, h := k0, t0, h0;
      SameAgain(store);
      while true
        invariant State(store, k, t) && Stack(pa, da, k) && Short(k, t, h)
        invariant Inorder(Plug(k, t)) == Inorder(Plug(k0, t0)) && All(k, t) == All(k0, t0)
        invariant SameData(old(store), store) && |pa| <= |pa0|
        decreases |pa|, IsBlack(t)
      {
        StackOf(pa, da, k);
        var n := |pa|;
        HoleLink(store, k, t);
        var x := store.Link(pa[n - 1], da[n - 1]);
        if store.IsRed(x) {
          ghost var st := store;
          Colour(x, Black);
          ShortPainted(st, store, k, t, h);
          ColouredData(st, store, {x});
          SameChain(old(store), st, store);
          t, h := Paint(t, Black), h + 1;
          break;
        }
        if n < 2 {
          TopShort(t, h);
          break;
        }
        ghost var s1 := store;
        ghost var k1;
        var pa1, da1, w;
        pa1, da1, w, k1 := RaiseIfRed(pa, da, k, t, h);
        SameChain(old(store), s1, store);
        s1 := store;
        StackOf(pa1, da1, k1);
        var ended;
        ended, t, h := MendUnderBlack(pa1, da1, w, k1, t, h);
        SameChain(old(store), s1, store);
        pa, da, k := pa1[..|pa1| - 1], da1[..|pa1| - 1], k1.up;
        if ended {
          break;
        }
      }
    }

    /** Delete the item with this key and return it, src/tree/rbtree.c:222-388. */
    method Delete(key: int) returns (r: Option<Item<V>>)
      requires Valid()
      modifies this
      ensures Valid() && Items() == Remove(old(Items()), key) && r == Seek(old(Items()), key)
      ensures r == None ==> store == old(store) && count == old(count)
      ensures r.Some? ==> Stay(old(store), store, {})
      ensures r.Some? ==> count == old(count) - 1
    {
      hide State, Rep, CtxRb, Rb, Plug, Balanced, PaOf, DaOf, Inorder, Remove, Seek, Bag, All, Owns, Short, Sorted,
           Stay;
      var pa, da := [HDR], [Left];
      ghost var k: Ctx<V>, t := Top, tree;
      ghost var h := StartDescent(key);
      var p := store.root;
      if p != NULL { CellBelow(store, k, t); }
      while p != NULL && store.mem[p].data.key != key
        invariant Valid() && tree == old(tree) && store == old(store) && count == old(count)
        invariant Descending(store, pa, da, k, t, h, tree, key) && p == Root(t) && Fits(|pa|)
        invariant p != NULL ==> t.Bin? && p in store.mem && store.mem[p].data == t.x
        decreases t
      {
        var d := if key > store.mem[p].data.key then Right else Left;
        StackFits(tree, pa, da, k, t);
        h := StepTowards(store, pa, da, k, t, h, tree, key, d);
        pa, da := pa + [p], da + [d];
        k, t := Frame(k, d, t.p, t.c, t.x, Kid(t, Other(d))), Kid(t, d);
        p := store.Link(p, d);
        LinkBelow(store, k, t);
        if p != NULL { CellBelow(store, k, t); }
      }
      if p == NULL {
        NoneBelow(store, k, t);
        AbsentKey(tree, k, key);
        return None;
      }
      r := Some(store.mem[p].data);
      Present(tree, k, t, t.x);
      DeleteAt(p, pa, da, k, t, h);
    }

    /** The second half of the deletion: unlink, repair, free. */
    method DeleteAt(p: Ptr, pa0: seq<Ptr>, da0: seq<Dir>, ghost k0: Ctx<V>, ghost t0: Tree<V>, ghost h0: nat)
      requires Valid() && State(store, k0, t0) && Stack(pa0, da0, k0) && Plug(k0, t0) == tree && t0.Bin? && p == t0.p
      requires CtxRb(k0, h0) && Rb(t0, h0) && (IsBlack(t0) || (k0.Frame? && k0.c == Black))
      modifies this
      ensures Valid() && Items() == Remove(old(Items()), t0.x.key) && count == old(count) - 1
      ensures store.mem.Keys == old(store.mem.Keys) - {p} && Stay(old(store), store, {})
    {
      hide State, Rep, CtxRb, Rb, Plug, Balanced, Inorder, Remove, Bag, All, Owns, Short, Sorted, Stack, SameData, Stay;
      var pa, da;
      ghost var k, t, h;
      ghost var st := store;
      RemoveSorted(Inorder(tree), t0.x.key);
      RemoveLength(Inorder(tree), t0.x.key);
      Present(tree, k0, t0, t0.x);
      pa, da, k, t, h := Unlink(p, pa0, da0, k0, t0, h0);
      ghost var s1 := store;
      SameAgain(store);
      HeightFits(tree);
      if store.mem[p].color == Black {
        k, t, h := RepairDeletion(pa, da, k, t, h);
      }
      SameChain(st, s1, store);
      SameKeys(st, store);
      FreedStay(st, store, p);
      tree := FreedTree(st, store, k, t, h, p, k0, t0);
      store := store.(mem := store.mem - {p});
      count := count - 1;
    }
  }
}
