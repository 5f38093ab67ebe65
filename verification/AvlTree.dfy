/** The AVL tree of src/tree/avltree.c: nodes with links to kids and to parents.  Insertion and removal
    change links and leave stored heights out of date, which are put right, with rotations, on the walk
    from there up to the root.  The ghost field `tree` is the tree in the cells. */
module AvlTree {
  import opened Options
  import opened AvlShape
  import opened AvlStore
  import opened AvlSteps

  class AVLTree<V> {
    var store: Store<V>
    var numNodes: nat
    ghost var tree: Tree<V>

    ghost predicate Valid()
      reads this
    {
      && State(store, Top, tree) && Avl(tree) && Sorted(Inorder(tree)) && Owns(store, Inorder(tree))
      && numNodes == |Inorder(tree)|
    }

    /** The entries in order. */
    ghost function Items(): seq<Entry<V>>
      reads this
    {
      Inorder(tree)
    }

    constructor ()
      ensures Valid() && Items() == []
    {
      store := Store(NULL, map[]);
      numNodes := 0;
      tree := Leaf;
      assert Bag<V>(Leaf) == multiset{} && PathBag<V>(Top) == multiset{};
    }

    /** Replace node1 with node2 at its parent: whatever tree node2 is the root of then stands in the
        place of node1, and every other link is as it should be. */
    method NodeReplace(node1: Ptr, node2: Ptr)
      requires store.Placed(node1) && (node2 == NULL || node2 in store.mem)
      modifies this`store
      ensures store == old(store).Replace(node1, node2)
      ensures forall k: Path<V>, u: Tree<V> | InHole(old(store), k, node1) && Body(old(store), u)
              && Distinct(PathBag(k) + Bag(u)) && Root(u) == node2 ::
                State(store, Touched(k, Height(u)), u)
    {
      hide InHole, Body, Distinct, State, Touched, Height;
      if node2 != NULL {
        store := store.SetParent(node2, store.mem[node1].parent);
      }
      var q := store.mem[node1].parent;
      if q == NULL {
        store := store.(root := node2);
      } else {
        var side := store.SideOf(node1);
        store := store.SetLink(q, side, node2);
        store := store.Measure(q);
      }
      forall k: Path<V>, u: Tree<V> | InHole(old(store), k, node1) && Body(old(store), u)
        && Distinct(PathBag(k) + Bag(u)) && Root(u) == node2
        ensures State(store, Touched(k, Height(u)), u)
      {
        ReplaceState(old(store), k, node1, u);
      }
    }

    /** Hang a node below its kid, which hands over a kid of its own. */
    method Hang(node: Ptr, newRoot: Ptr, d: Side)
      requires node in store.mem && newRoot in store.mem && node != newRoot
      requires store.Link(newRoot, d) == NULL || store.Link(newRoot, d) in store.mem
      modifies this`store
      ensures store == old(store).Hang(node, newRoot, d)
    {
      store := store.SetLink(node, Other(d), store.Link(newRoot, d));
      store := store.SetLink(newRoot, d, node);
      store := store.SetParent(node, newRoot);
      if store.Link(node, Other(d)) != NULL {
        store := store.SetParent(store.Link(node, Other(d)), node);
      }
    }

    /** Rotate in direction d; the kid on the other side rises.  In the place of the tree below the node
        then stands the rotated tree, under a path whose last node is measured anew. */
    method Rotate(node: Ptr, d: Side) returns (newRoot: Ptr)
      requires store.CanRotate(node, d)
      modifies this`store
      ensures store == old(store).Rotate(node, d) && newRoot == old(store).Link(node, Other(d))
      ensures store.mem.Keys == old(store).mem.Keys
      ensures forall k: Path<V>, t: Tree<V> | State(old(store), k, t) && t.Bin? && Kid(t, Other(d)).Bin?
              && t.e.at == node ::
                State(store, Touched(k, Height(Kid(t, Other(d)))), Rotated(t, d)) && Root(Rotated(t, d)) == newRoot
    {
      hide State, InHole, Body, Distinct, Touched, Height;
      newRoot := store.Link(node, Other(d));
      NodeReplace(node, newRoot);
      Hang(node, newRoot, d);
      store := store.Measure(newRoot);
      store := store.Measure(node);
      forall k: Path<V>, t: Tree<V> | State(old(store), k, t) && t.Bin? && Kid(t, Other(d)).Bin? && t.e.at == node
        ensures State(store, Touched(k, Height(Kid(t, Other(d)))), Rotated(t, d)) && Root(Rotated(t, d)) == newRoot
      {
        RotateState(old(store), k, t, d);
      }
    }

    /** Rotate a node that is too high on side d, its kid there first if that leans inwards. */
    method Turn(node: Ptr, d: Side, ghost k: Path<V>, ghost t: Tree<V>) returns (r: Ptr, ghost n: Path<V>)
      requires State(store, k, t) && Tilted(t) && Unbalanced(t) && d == Heavy(t) && node == t.e.at
      modifies this`store
      ensures State(store, n, Turned(t)) && SameWay(k, n) && Turned(t).Bin? && r == Turned(t).e.at
      ensures store.mem.Keys == old(store).mem.Keys
    {
      hide State, Store.Rotate, Store.CanRotate, Rotated, Straight, Avl;
      HeavyKid(t);
      HeavyCells(store, k, t, d);
      var child := store.Link(node, d);
      ghost var u := t;
      if store.HeightAt(store.Link(child, d)) < store.HeightAt(store.Link(child, Other(d))) {
        LeaningKid(t);
        StraightState(store, k, t, d);
        var _ := Rotate(child, d);
        u := Straight(t, d);
        StraightKid(t, d);
      }
      RotateState(store, k, u, Other(d));
      r := Rotate(node, Other(d));
      n := Touched(k, Height(Kid(u, d)));
      RotatedRoot(u, Other(d));
    }

    /** Balance one node; the root of the result, and the path above it with its last node measured anew. */
    method NodeBalance(node: Ptr, ghost k: Path<V>, ghost t: Tree<V>) returns (r: Ptr, ghost n: Path<V>)
      requires State(store, k, t) && Tilted(t) && node == t.e.at
      modifies this`store
      ensures State(store, n, Balanced(t)) && SameWay(k, n) && r == Balanced(t).e.at
      ensures store.mem.Keys == old(store).mem.Keys
    {
      hide State, Avl;
      RootHeights(store, k, t);
      var leftSubtree := store.mem[node].left;
      var rightSubtree := store.mem[node].right;
      var diff := store.HeightAt(rightSubtree) - store.HeightAt(leftSubtree);
      r, n := node, k;
      if diff >= 2 {
        r, n := Turn(node, Right, k, t);
      } else if diff <= -2 {
        r, n := Turn(node, Left, k, t);
      }
      MeasureState(store, n, Turned(t));
      store := store.Measure(r);
    }

    /** Balance the nodes from one up to the root; nothing is left to do when there is none. */
    method BalanceToRoot(node: Ptr, ghost k0: Path<V>, ghost t0: Tree<V>, ghost g0: int) returns (ghost u: Tree<V>)
      requires State(store, k0, t0) && Pending(k0, t0, g0, node)
      modifies this`store
      ensures State(store, Top, u) && Avl(u) && Inorder(u) == Inorder(Plug(k0, t0))
      ensures store.mem.Keys == old(store).mem.Keys
    {
      hide State, Avl, Plug, Around, Balanced, Tilted;
      var rover := node;
      ghost var k, t, g := k0, t0, g0;
      while rover != NULL
        invariant State(store, k, t) && Pending(k, t, g, rover) && Inorder(Plug(k, t)) == Inorder(Plug(k0, t0))
        invariant store.mem.Keys == old(store).mem.Keys
        decreases if rover == NULL then 0 else 1 + Depth(k)
      {
        ghost var n;
        BalancedStep(k, t);
        RootNotNull(store, k, t);
        rover, n := NodeBalance(rover, k, t);
        SameItems(k, n, t);
        ghost var b := Balanced(t);
        RootNotNull(store, n, b);
        rover := store.mem[rover].parent;
        SameWayFacts(k, n, g);
        if n.Frame? {
          StepUp(n, b, g);
          RaiseState(store, n, b);
          RaisePlug(n, b);
          k, t, g := n.up, Make(n.d, n.e, n.h, b, n.s), Max(g, Height(n.s)) + 1;
          RootNotNull(store, k, t);
          MakeKids(n.d, n.e, n.h, b, n.s);
        } else {
          k, t := n, b;
        }
      }
      TopPlug(t);
      u := t;
    }

    /** Walk down to the hole where an entry with this key belongs. */
    method FindPlace(key: int) returns (previousNode: Ptr, side: Side, ghost k: Path<V>)
      requires Valid()
      ensures State(store, k, Leaf) && Plug(k, Leaf) == tree && Hole(k) == previousNode
              && (k.Frame? ==> k.d == side && k.e.at != NULL)
      ensures UpTo(Before(k), key) && Beyond(After(k), key)
    {
      hide State, Avl, Sorted, Inorder, Plug, Before, After, UpTo, Beyond, Owns;
      var rover := store.root;
      previousNode, side, k := NULL, Left, Top;
      ghost var t := tree;
      WalkStart(store, tree, key);
      while rover != NULL
        invariant State(store, k, t) && Plug(k, t) == tree && Root(t) == rover && Hole(k) == previousNode
        invariant k.Frame? ==> k.d == side && k.e.at != NULL
        invariant UpTo(Before(k), key) && Beyond(After(k), key)
        decreases t
      {
        previousNode := rover;
        RootHeights(store, k, t);
        WalkStep(store, tree, k, t, key);
        if key < store.mem[rover].key {
          rover, side := store.mem[rover].left, Left;
        } else {
          rover, side := store.mem[rover].right, Right;
        }
        LowerState(store, k, t, side);
        KidSmaller(t, side);
        k, t := Down(k, t, side), Kid(t, side);
      }
      RootNull(store, k, t);
    }

    /** Insert an entry behind all with the same or smaller keys; n is the address of the new node. */
    method Insert(n: Ptr, key: int, value: V)
      requires Valid() && n != NULL && n !in store.mem
      modifies this
      ensures Valid() && Items() == Placed(old(Items()), Entry(n, key, value))
    {
      hide State, Avl, Sorted, Inorder, Plug, Before, After, UpTo, Beyond, Placed, Owns, Pending;
      var previousNode, side;
      ghost var k;
      previousNode, side, k := FindPlace(key);
      ghost var st := store;
      OwnedPath(st, k, Leaf, n);
      PlantState(st, k, n, key, value);
      PlantSame(st, k, n, key, value, side);
      store := store.(mem := store.mem[n := Cell(NULL, NULL, previousNode, key, value, 1)]);
      if previousNode == NULL {
        store := store.(root := n);
      } else {
        store := store.SetLink(previousNode, side, n);
      }
      ghost var m, u, g := AfterPlant(store, tree, k, n, key, value);
      ghost var w := BalanceToRoot(previousNode, m, u, g);
      numNodes := numNodes + 1;
      PlacedItems(st, store, tree, w, n, key, value);
      tree := w;
    }

    /** Find a node with this key. */
    method LookupNode(key: int) returns (node: Ptr)
      requires Valid()
      ensures if node == NULL then forall y | y in Items() :: y.key != key
              else exists y :: y in Items() && y.at == node && y.key == key
    {
      hide State, Avl, Sorted, Inorder, Plug, Before, After, Owns;
      node := store.root;
      ghost var k, t := Top, tree;
      WalkStart(store, tree, key);
      NoKeyAtTop<V>(key);
      while node != NULL
        invariant State(store, k, t) && Plug(k, t) == tree && Root(t) == node
        invariant NoKey(Before(k), key) && NoKey(After(k), key)
        decreases t
      {
        RootHeights(store, k, t);
        SeekStep(tree, k, t, key);
        if key == store.mem[node].key {
          return;
        }
        var side := if key < store.mem[node].key then Left else Right;
        node := store.Link(node, side);
        LowerState(store, k, t, side);
        KidSmaller(t, side);
        k, t := Down(k, t, side), Kid(t, side);
      }
      RootNull(store, k, t);
      NoKeyAnywhere(tree, k, key);
    }

    /** Cut out the neighbour of a node on its higher side. */
    method GetReplacement(node: Ptr, ghost k: Path<V>, ghost t: Tree<V>)
      returns (result: Ptr, ghost d: Side, ghost j: Path<V>, ghost r: Tree<V>)
      requires State(store, k, t) && t.Bin? && node == t.e.at && Avl(t)
      modifies this`store
      ensures store.mem.Keys == old(store).mem.Keys
      ensures result == NULL ==> store == old(store) && t.l.Leaf? && t.r.Leaf?
      ensures result != NULL ==>
                && Neighbour(t, d, j, r) && r.Bin? && r.e.at == result && result in store.mem
                && State(store, Touched(Append(Down(k, t, d), j), Height(Kid(r, d))), Kid(r, d))
                && store.mem[result].key == r.e.key && store.mem[result].val == r.e.val
                && store.mem[result].parent == Hole(Append(Down(k, t, d), j))
    {
      hide State, Avl, Plug, Always, Store.Replace, Replaced;
      d, j, r := Left, Top, t;
      RootHeights(store, k, t);
      var leftSubtree, rightSubtree := store.mem[node].left, store.mem[node].right;
      KidsNull(store, k, t);
      if leftSubtree == NULL && rightSubtree == NULL {
        return NULL, d, j, r;
      }
      var leftHeight, rightHeight := store.HeightAt(leftSubtree), store.HeightAt(rightSubtree);
      var side := if leftHeight < rightHeight then Right else Left;
      HigherSide(t, side);
      d := side;
      LowerState(store, k, t, side);
      ghost var f := Down(k, t, d);
      result, r := store.Link(node, side), Kid(t, d);
      SideStart(store, k, t, d);
      while store.Link(result, Other(side)) != NULL
        invariant State(store, Append(f, j), r) && r.Bin? && r.e.at == result && result in store.mem && result != NULL
        invariant Plug(j, r) == Kid(t, d) && Always(j, Other(d))
        invariant store == old(store)
        decreases r
      {
        SideStep(store, f, t, d, j, r);
        result := store.Link(result, Other(side));
        j, r := Down(j, r, Other(d)), Kid(r, Other(d));
      }
      SideEnd(store, f, j, r, d);
      var child := store.Link(result, side);
      ghost var st := store;
      CutState(st, f, j, r, d);
      NodeReplace(result, child);
      MeasureAgain(store, Append(f, j), Kid(r, d));
      store := store.Measure(store.mem[result].parent);
    }

    /** The node s takes over the kids and the height of another, and its place. */
    method TakeOver(s: Ptr, node: Ptr, ghost k: Path<V>, ghost n: Tree<V>, ghost x: Entry<V>)
      requires State(store, k, n) && n.Bin? && n.e.at == node && x.at == s && s in store.mem && s != NULL
      requires store.mem[s].key == x.key && store.mem[s].val == x.val && s !in Bag(n) && s !in PathBag(k)
      modifies this`store
      ensures State(store, Touched(k, n.h), n.(e := x)) && store.mem.Keys == old(store).mem.Keys
      ensures node !in PathBag(k) && node !in Bag(n.(e := x))
    {
      hide State, Bag, PathBag, Body, InHole, Distinct, Store.Replace, Replaced, Taken;
      ghost var st := store;
      TakeReady(st, k, n, s);
      TakeCells(st, s, node);
      store := store.SetLink(s, Left, store.Link(node, Left));
      if store.Link(s, Left) != NULL {
        store := store.SetParent(store.Link(s, Left), s);
      }
      assert store == TakeKid(st, s, node, Left);
      ghost var a := store;
      store := store.SetLink(s, Right, store.Link(node, Right));
      if store.Link(s, Right) != NULL {
        store := store.SetParent(store.Link(s, Right), s);
      }
      assert store == TakeKid(a, s, node, Right);
      store := TakeHeight(store, s, node);
      TakenBody(st, store, k, n, x);
      SwapBags(st, k, n, x);
      ReplaceState(store, k, node, n.(e := x));
      NodeReplace(node, s);
    }

    /** Remove a node. */
    method RemoveNode(node: Ptr)
      requires Valid() && node in store.mem
      modifies this
      ensures Valid() && Items() == Without(old(Items()), node) && store.mem.Keys == old(store).mem.Keys - {node}
    {
      hide State, Avl, Sorted, Inorder, Plug, Before, After, Owns, Pending, Around, Neighbour, Without, Drops, Bag,
           PathBag;
      ghost var st, old_ := store, tree;
      ghost var k, t := FindNode(st, tree, node);
      var swapNode;
      ghost var d, j, r;
      swapNode, d, j, r := GetReplacement(node, k, t);
      var balanceStartpoint;
      ghost var p, c, g;
      if swapNode == NULL {
        CutLeaf(store, k, t);
        NodeReplace(node, NULL);
        balanceStartpoint := store.mem[node].parent;
        p, c, g := Touched(k, 0), Leaf, 1;
        LeafGone(st, tree, k, t);
      } else {
        balanceStartpoint := if store.mem[swapNode].parent == node then swapNode else store.mem[swapNode].parent;
        ghost var n := NodeAgain(st, store, k, t, d, j, r);
        BeforeOther(st, k, t);
        LeftOther(st, k, t);
        TakeOver(swapNode, node, k, n, r.e);
        p, c, g := BelowSwap(store, tree, k, t, d, j, r, n);
      }
      FreeState(store, p, c, node);
      store := store.(mem := store.mem - {node});
      numNodes := numNodes - 1;
      ghost var m, u, f := StartAbove(store, p, c, g);
      ghost var w := BalanceToRoot(balanceStartpoint, m, u, f);
      RemovedItems(st, store, tree, w, node);
      tree := w;
    }

    /** Remove a node with this key, if there is one. */
    method Remove(key: int) returns (removed: bool)
      requires Valid()
      modifies this
      ensures Valid()
      ensures removed <==> exists y :: y in old(Items()) && y.key == key
      ensures removed ==> exists y :: y in old(Items()) && y.key == key && Items() == Without(old(Items()), y.at)
      ensures !removed ==> Items() == old(Items())
    {
      hide State, Avl, Sorted, Inorder, Owns, Without;
      var node := LookupNode(key);
      if node == NULL {
        return false;
      }
      ghost var y :| y in Items() && y.at == node && y.key == key;
      OwnsItem(store, Items(), y);
      RemoveNode(node);
      return true;
    }

    /** The value of an entry with this key. */
    method Lookup(key: int) returns (value: Option<V>)
      requires Valid()
      ensures if value == None then forall y | y in Items() :: y.key != key
              else exists y :: y in Items() && y.key == key && y.val == value.value
    {
      hide State, Avl, Sorted, Inorder, Owns;
      var node := LookupNode(key);
      if node == NULL {
        return None;
      }
      ghost var y :| y in Items() && y.at == node && y.key == key;
      OwnsItem(store, Items(), y);
      CellOf(store, tree, y);
      return Some(store.mem[node].val);
    }
  }

  lemma StraightKid<V>(t: Tree<V>, d: Side)
    requires t.Bin? && Kid(t, d).Bin? && Kid(Kid(t, d), Other(d)).Bin?
    ensures var u := Straight(t, d); u.Bin? && u.e == t.e && Kid(u, d).Bin?
  {
  }

  lemma RotatedRoot<V>(t: Tree<V>, d: Side)
    requires t.Bin? && Kid(t, Other(d)).Bin?
    ensures Rotated(t, d).Bin? && Rotated(t, d).e == Kid(t, Other(d)).e
  {
  }

  ghost function Depth<V>(k: Path<V>): nat {
    if k.Top? then 0 else 1 + Depth(k.up)
  }

  /** What the walk to the root finds: a node that needs balancing, or a finished tree. */
  ghost predicate Pending<V>(k: Path<V>, t: Tree<V>, g: int, rover: Ptr) {
    if rover == NULL then k.Top? && Avl(t)
    else Tilted(t) && t.e.at == rover && Around(k, g) && Abs(Height(Balanced(t)) - g) <= 1
  }

  lemma BalancedStep<V>(k: Path<V>, t: Tree<V>)
    requires Tilted(t)
    ensures t.Bin? && Balanced(t).Bin? && Avl(Balanced(t)) && Inorder(Plug(k, Balanced(t))) == Inorder(Plug(k, t))
  {
    BalancedAvl(t);
    BalancedInorder(t);
    PlugInorder(k, t);
    PlugInorder(k, Balanced(t));
    hide Balanced;
    BalancedBin(t);
  }

  lemma BalancedBin<V>(t: Tree<V>)
    requires Tilted(t)
    ensures Balanced(t).Bin?
  {
  }

  lemma RootNotNull<V>(st: Store<V>, k: Path<V>, t: Tree<V>)
    requires State(st, k, t) && t.Bin?
    ensures t.e.at in st.mem && t.e.at != NULL && st.mem[t.e.at].parent == Hole(k) && (k.Frame? ==> k.e.at != NULL)
  {
    hide Bag, PathBag, Distinct, Along;
    StateOpen(st, k, t);
  }

  lemma SameItems<V>(k: Path<V>, n: Path<V>, t: Tree<V>)
    requires SameWay(k, n) && Tilted(t)
    ensures Inorder(Plug(n, Balanced(t))) == Inorder(Plug(k, t))
  {
    BalancedStep(k, t);
    SameWayFacts(k, n, 0);
    PlugInorder(k, Balanced(t));
    PlugInorder(n, Balanced(t));
  }

  lemma RaisePlug<V>(k: Path<V>, t: Tree<V>)
    requires k.Frame?
    ensures Plug(k, t) == Plug(k.up, Make(k.d, k.e, k.h, t, k.s))
  {
  }

  lemma TopPlug<V>(t: Tree<V>)
    ensures Plug(Top, t) == t
  {
  }

  // ---------------------------------------------------------------- insertion

  lemma WalkStart<V>(st: Store<V>, tree: Tree<V>, key: int)
    requires State(st, Top, tree)
    ensures st.root == Root(tree) && Plug(Top, tree) == tree && Hole<V>(Top) == NULL
    ensures UpTo(Before<V>(Top), key) && Beyond(After<V>(Top), key)
  {
    hide Bag, PathBag, Distinct, Body;
  }

  lemma KidSmaller<V>(t: Tree<V>, d: Side)
    requires t.Bin?
    ensures Kid(t, d) < t
  {
  }

  lemma RootNull<V>(st: Store<V>, k: Path<V>, t: Tree<V>)
    requires State(st, k, t) && Root(t) == NULL
    ensures t.Leaf?
  {
    hide Bag, PathBag, Distinct, Along;
    StateOpen(st, k, t);
  }

  /** The items around a node on the way down. */
  lemma ItemsAround<V>(k: Path<V>, t: Tree<V>)
    requires t.Bin?
    ensures Inorder(Plug(k, t)) == (Before(k) + Inorder(t.l)) + [t.e] + (Inorder(t.r) + After(k))
    ensures Before(Down(k, t, Left)) == Before(k) && After(Down(k, t, Left)) == ([t.e] + Inorder(t.r)) + After(k)
    ensures Before(Down(k, t, Right)) == Before(k) + (Inorder(t.l) + [t.e]) && After(Down(k, t, Right)) == After(k)
  {
    hide Plug;
    PlugInorder(k, t);
    Regrouped(Before(k), Inorder(t.l), [t.e], Inorder(t.r), After(k));
  }

  lemma Regrouped<V>(a: seq<Entry<V>>, l: seq<Entry<V>>, m: seq<Entry<V>>, r: seq<Entry<V>>, b: seq<Entry<V>>)
    ensures a + (l + m + r) + b == (a + l) + m + (r + b)
  {
  }

  lemma SortedAround<V>(a: seq<Entry<V>>, x: Entry<V>, b: seq<Entry<V>>)
    requires Sorted(a + [x] + b)
    ensures UpTo(a, x.key) && forall y | y in b :: x.key <= y.key
  {
    var s := a + [x] + b;
    forall y | y in a ensures y.key <= x.key {
      var i :| 0 <= i < |a| && a[i] == y;
      assert s[i] == y && s[|a|] == x;
    }
    forall y | y in b ensures x.key <= y.key {
      var i :| 0 <= i < |b| && b[i] == y;
      assert s[|a| + 1 + i] == y && s[|a|] == x;
    }
  }

  /** Equal keys go to the right. */
  lemma WalkStep<V>(st: Store<V>, tree: Tree<V>, k: Path<V>, t: Tree<V>, key: int)
    requires State(st, k, t) && t.Bin? && Plug(k, t) == tree && Sorted(Inorder(tree)) && UpTo(Before(k), key)
             && Beyond(After(k), key)
    ensures t.e.at in st.mem && st.mem[t.e.at].key == t.e.key
    ensures key < t.e.key ==> UpTo(Before(Down(k, t, Left)), key) && Beyond(After(Down(k, t, Left)), key)
    ensures key >= t.e.key ==> UpTo(Before(Down(k, t, Right)), key) && Beyond(After(Down(k, t, Right)), key)
  {
    hide State, Plug, Sorted;
    RootHeights(st, k, t);
    ItemsAround(k, t);
    var (a, b) := (Before(k) + Inorder(t.l), Inorder(t.r) + After(k));
    SortedAround(a, t.e, b);
    hide Before, After, Inorder;
    if key < t.e.key {
      forall y | y in ([t.e] + Inorder(t.r)) + After(k) ensures key < y.key {
        assert y == t.e || y in b;
      }
    } else {
      forall y | y in Before(k) + (Inorder(t.l) + [t.e]) ensures y.key <= key {
        assert y == t.e || y in a;
      }
    }
  }

  lemma PlantSame<V>(st: Store<V>, k: Path<V>, n: Ptr, key: int, val: V, side: Side)
    requires (k.Frame? ==> k.d == side && k.e.at != NULL) && (Hole(k) == NULL || Hole(k) in st.mem)
    ensures Plant(st, n, Hole(k), if k.Frame? then k.d else Left, key, val) == Plant(st, n, Hole(k), side, key, val)
  {
  }

  /** Balancing starts above a hole whose new contents differ in height by at most 1 from the old ones. */
  lemma StartAbove<V>(st: Store<V>, k: Path<V>, c: Tree<V>, g: int) returns (m: Path<V>, u: Tree<V>, f: int)
    requires State(st, k, c) && Around(k, g) && Avl(c) && Abs(Height(c) - g) <= 1
    ensures State(st, m, u) && Pending(m, u, f, Hole(k)) && Inorder(Plug(m, u)) == Inorder(Plug(k, c))
  {
    hide State, Plug, Around, Balanced, Inorder, Avl;
    HoleNotNull(st, k, c);
    if k.Frame? {
      StepUp(k, c, g);
      RaiseState(st, k, c);
      RaisePlug(k, c);
      MakeKids(k.d, k.e, k.h, c, k.s);
      m, u, f := k.up, Make(k.d, k.e, k.h, c, k.s), Max(g, Height(k.s)) + 1;
    } else {
      m, u, f := k, c, g;
    }
  }

  lemma HoleNotNull<V>(st: Store<V>, k: Path<V>, c: Tree<V>)
    requires State(st, k, c)
    ensures k.Frame? ==> k.e.at != NULL && k.e.at in st.mem
  {
    hide Bag, PathBag, Distinct, Along, Body;
    StateOpen(st, k, c);
  }

  /** Where balancing starts after a node was put in. */
  lemma AfterPlant<V>(st: Store<V>, tree: Tree<V>, k: Path<V>, n: Ptr, key: int, val: V)
                      returns (m: Path<V>, u: Tree<V>, g: int)
    requires Avl(tree) && Plug(k, Leaf) == tree && State(st, k, NewLeaf(n, key, val))
    requires UpTo(Before(k), key) && Beyond(After(k), key)
    ensures State(st, m, u) && Pending(m, u, g, Hole(k))
            && Inorder(Plug(m, u)) == Placed(Inorder(tree), Entry(n, key, val))
  {
    hide State, Plug, Before, After, Around, UpTo, Beyond, Placed, Pending;
    var b := NewLeaf(n, key, val);
    AvlDown(k, Leaf);
    PlugInorder(k, Leaf);
    PlugInorder(k, b);
    assert Before(k) + [] + After(k) == Before(k) + After(k);
    PlacedBetween(Before(k), Entry(n, key, val), After(k));
    LeafItems(n, key, val);
    m, u, g := StartAbove(st, k, b, 0);
  }

  lemma LeafItems<V>(n: Ptr, key: int, val: V)
    ensures var b := NewLeaf(n, key, val);
            Inorder(b) == [Entry(n, key, val)] && Avl(b) && Height(b) == 1 && Inorder<V>(Leaf) == []
  {
  }

  /** The finished tree after an insertion. */
  lemma PlacedItems<V>(st: Store<V>, su: Store<V>, tree: Tree<V>, w: Tree<V>, n: Ptr, key: int, val: V)
    requires Sorted(Inorder(tree)) && Owns(st, Inorder(tree)) && Inorder(w) == Placed(Inorder(tree), Entry(n, key, val))
    requires su.mem.Keys == st.mem.Keys + {n}
    ensures Sorted(Inorder(w)) && Owns(su, Inorder(w)) && |Inorder(w)| == |Inorder(tree)| + 1
  {
    hide Sorted, Inorder, Placed;
    var (s, x) := (Inorder(tree), Entry(n, key, val));
    PlacedSorted(s, x);
    PlacedMultiset(s, x);
    var u := Placed(s, x);
    assert |u| == |multiset(u)| == |s| + 1;
    forall p ensures p in su.mem <==> HasAt(u, p) {
      PlacedHas(s, u, x, p);
    }
  }

  lemma PlacedHas<V>(s: seq<Entry<V>>, u: seq<Entry<V>>, x: Entry<V>, p: Ptr)
    requires multiset(u) == multiset(s) + multiset{x}
    ensures HasAt(u, p) <==> (HasAt(s, p) || p == x.at)
  {
    if HasAt(u, p) {
      var y :| y in u && y.at == p;
      assert y in multiset(u);
      assert y in s || y == x;
    }
    if HasAt(s, p) {
      var y :| y in s && y.at == p;
      assert y in multiset(u);
    }
    if p == x.at { assert x in multiset(u); }
  }

  // ---------------------------------------------------------------- lookup

  ghost predicate NoKey<V>(s: seq<Entry<V>>, key: int) {
    forall y | y in s :: y.key != key
  }

  lemma NoKeyAtTop<V>(key: int)
    ensures NoKey(Before<V>(Top), key) && NoKey(After<V>(Top), key)
  {
  }

  /** The node reached has the key, or the key is not on the side that is left out. */
  lemma SeekStep<V>(tree: Tree<V>, k: Path<V>, t: Tree<V>, key: int)
    requires t.Bin? && Plug(k, t) == tree && Sorted(Inorder(tree)) && NoKey(Before(k), key) && NoKey(After(k), key)
    ensures t.e in Inorder(tree)
    ensures key < t.e.key ==> NoKey(Before(Down(k, t, Left)), key) && NoKey(After(Down(k, t, Left)), key)
    ensures key > t.e.key ==> NoKey(Before(Down(k, t, Right)), key) && NoKey(After(Down(k, t, Right)), key)
  {
    hide Plug, Sorted;
    ItemsAround(k, t);
    var (a, b) := (Before(k) + Inorder(t.l), Inorder(t.r) + After(k));
    SortedAround(a, t.e, b);
    hide Before, After, Inorder;
    if key < t.e.key {
      forall y | y in ([t.e] + Inorder(t.r)) + After(k) ensures y.key != key {
        assert y == t.e || y in b;
      }
    } else if key > t.e.key {
      forall y | y in Before(k) + (Inorder(t.l) + [t.e]) ensures y.key != key {
        assert y == t.e || y in a;
      }
    }
  }

  lemma NoKeyAnywhere<V>(tree: Tree<V>, k: Path<V>, key: int)
    requires Plug(k, Leaf) == tree && NoKey(Before(k), key) && NoKey(After(k), key)
    ensures NoKey(Inorder(tree), key)
  {
    hide Plug, Before, After;
    PlugInorder(k, Leaf);
  }

  // ---------------------------------------------------------------- the neighbour

  /** r is the last node on the other side of the kid on side d: the neighbour of t. */
  ghost predicate Neighbour<V>(t: Tree<V>, d: Side, j: Path<V>, r: Tree<V>) {
    t.Bin? && r.Bin? && Plug(j, r) == Kid(t, d) && Always(j, Other(d)) && Kid(r, Other(d)).Leaf?
  }

  lemma KidsNull<V>(st: Store<V>, k: Path<V>, t: Tree<V>)
    requires State(st, k, t) && t.Bin?
    ensures (Root(t.l) == NULL <==> t.l.Leaf?) && (Root(t.r) == NULL <==> t.r.Leaf?)
  {
    hide Bag, PathBag, Distinct, Along;
    StateOpen(st, k, t);
  }

  lemma HigherSide<V>(t: Tree<V>, d: Side)
    requires Avl(t) && t.Bin? && (t.l.Bin? || t.r.Bin?) && d == if Height(t.l) < Height(t.r) then Right else Left
    ensures Kid(t, d).Bin?
  {
    HeightPositive(t.l);
    HeightPositive(t.r);
  }

  lemma SideStart<V>(st: Store<V>, k: Path<V>, t: Tree<V>, d: Side)
    requires State(st, k, t) && t.Bin? && Kid(t, d).Bin?
    ensures st.Link(t.e.at, d) == Kid(t, d).e.at && Kid(t, d).e.at in st.mem && Kid(t, d).e.at != NULL
    ensures Append(Down(k, t, d), Top) == Down(k, t, d) && Plug(Top, Kid(t, d)) == Kid(t, d) && Always<V>(Top, Other(d))
  {
    hide State;
    LowerState(st, k, t, d);
    RootNotNull(st, Down(k, t, d), Kid(t, d));
    HeavyCells(st, k, t, d);
  }

  lemma SideStep<V>(st: Store<V>, f: Path<V>, t: Tree<V>, d: Side, j: Path<V>, r: Tree<V>)
    requires State(st, Append(f, j), r) && r.Bin? && r.e.at in st.mem && st.Link(r.e.at, Other(d)) != NULL && t.Bin?
    requires Plug(j, r) == Kid(t, d) && Always(j, Other(d))
    ensures var (m, c) := (Down(j, r, Other(d)), Kid(r, Other(d)));
            && State(st, Append(f, m), c) && c.Bin? && c.e.at == st.Link(r.e.at, Other(d)) && c.e.at in st.mem
            && Plug(m, c) == Kid(t, d) && Always(m, Other(d)) && c < r
  {
    hide State, Plug;
    RootHeights(st, Append(f, j), r);
    KidsNull(st, Append(f, j), r);
    LowerState(st, Append(f, j), r, Other(d));
    KidSides(r, Other(d));
    RaisePlug(Down(j, r, Other(d)), Kid(r, Other(d)));
    RootNotNull(st, Append(f, Down(j, r, Other(d))), Kid(r, Other(d)));
    KidSmaller(r, Other(d));
  }

  lemma SideEnd<V>(st: Store<V>, f: Path<V>, j: Path<V>, r: Tree<V>, d: Side)
    requires State(st, Append(f, j), r) && r.Bin? && r.e.at in st.mem && st.Link(r.e.at, Other(d)) == NULL
    ensures Kid(r, Other(d)).Leaf? && st.Link(r.e.at, d) == Root(Kid(r, d))
  {
    hide State;
    RootHeights(st, Append(f, j), r);
    KidsNull(st, Append(f, j), r);
  }

  /** Cutting out a node that has a kid on one side at most. */
  lemma CutState<V>(st: Store<V>, f: Path<V>, j: Path<V>, r: Tree<V>, d: Side)
    requires State(st, Append(f, j), r) && r.Bin? && Kid(r, Other(d)).Leaf? && f.Frame?
    ensures var (k, c) := (Append(f, j), Kid(r, d));
            && st.Placed(r.e.at) && (Root(c) == NULL || Root(c) in st.mem)
            && var su := st.Replace(r.e.at, Root(c));
               && State(su, Touched(k, Height(c)), c) && su.mem.Keys == st.mem.Keys
               && r.e.at in su.mem && su.mem[r.e.at] == st.mem[r.e.at] && su.mem[r.e.at].parent == Hole(k)
               && su.mem[r.e.at].key == r.e.key && su.mem[r.e.at].val == r.e.val
  {
    hide State, Store.Replace, Bag, PathBag, Distinct, InHole, Body;
    var (k, c) := (Append(f, j), Kid(r, d));
    RootHeights(st, k, r);
    StateHole(st, k, r);
    CutBody(st, k, r, d);
    ReplaceState(st, k, r.e.at, c);
    CutApart(st, k, r, d);
  }

  lemma CutBody<V>(st: Store<V>, k: Path<V>, r: Tree<V>, d: Side)
    requires State(st, k, r) && r.Bin?
    ensures Body(st, Kid(r, d)) && Distinct(PathBag(k) + Bag(Kid(r, d)))
  {
    hide Bag, PathBag, Along, Distinct;
    StateOpen(st, k, r);
    BodySides(st, r, d);
    assert Bag(r) == multiset{r.e.at} + Bag(Kid(r, Other(d))) + Bag(Kid(r, d));
    RotateBags(PathBag(k), Bag(Kid(r, Other(d))), Bag(Kid(r, d)), multiset{r.e.at});
  }

  lemma CutApart<V>(st: Store<V>, k: Path<V>, r: Tree<V>, d: Side)
    requires State(st, k, r) && r.Bin?
    ensures r.e.at != Hole(k) && r.e.at != Root(Kid(r, d)) && (Root(Kid(r, d)) == NULL || Root(Kid(r, d)) in st.mem)
  {
    hide Bag, PathBag, Along, Distinct;
    StateOpen(st, k, r);
    PathApart(k, r);
    RootInBag(r);
    HoleIn(k);
    BodySides(st, r, d);
    BodyRootIn(st, Kid(r, d));
    RootOnce(r);
    RootInBag(Kid(r, d));
    BodyRootIn(st, r);
  }

  /** Measuring the parent a second time changes nothing. */
  lemma MeasureAgain<V>(st: Store<V>, k: Path<V>, c: Tree<V>)
    requires State(st, Touched(k, Height(c)), c) && k.Frame?
    ensures k.e.at in st.mem && st.Measure(k.e.at) == st
  {
    hide Bag, PathBag, Distinct, Body;
    var n := Touched(k, Height(c));
    StateOpen(st, n, c);
    AlongOpen(st, n);
    BodyRootIn(st, c);
    BodyRootIn(st, k.s);
    assert st.mem[k.e.at] == st.mem[k.e.at].(height := n.h);
    SameMap(st.mem, k.e.at);
  }

  lemma SameMap<K, W>(m: map<K, W>, p: K)
    requires p in m
    ensures m[p := m[p]] == m
  {
  }

  // ---------------------------------------------------------------- removal

  /** The node in the tree, with what was in order around it. */
  lemma FindNode<V>(st: Store<V>, tree: Tree<V>, node: Ptr) returns (k: Path<V>, t: Tree<V>)
    requires State(st, Top, tree) && Owns(st, Inorder(tree)) && node in st.mem && Avl(tree)
    ensures State(st, k, t) && Plug(k, t) == tree && t.Bin? && t.e.at == node && Avl(t) && Around(k, Height(t))
    ensures |Inorder(tree)| > 0
  {
    hide State, Plug, Bag, Avl, Around, Inorder;
    BagItems(tree, node);
    k, t := PathTo(tree, node);
    StateDown(st, Top, k, t);
    AppendTop(k);
    AvlDown(k, t);
  }

  lemma CutLeaf<V>(st: Store<V>, k: Path<V>, t: Tree<V>)
    requires State(st, k, t) && t.Bin?
    ensures st.Placed(t.e.at) && State(st.Replace(t.e.at, NULL), Touched(k, 0), Leaf)
    ensures t.e.at !in PathBag(k) && t.e.at !in Bag<V>(Leaf) && PathBag(Touched(k, 0)) == PathBag(k)
    ensures var su := st.Replace(t.e.at, NULL);
            su.mem.Keys == st.mem.Keys && su.mem[t.e.at].parent == Hole(Touched(k, 0))
  {
    hide State, Store.Replace, PathBag, Distinct, InHole;
    StateHole(st, k, t);
    StateOpenBag(st, k, t);
    ReplaceState(st, k, t.e.at, Leaf);
    TouchedBag(k, 0);
    HoleOther(k, t);
    RootHeights(st, k, t);
    RootNotNull(st, k, t);
    LeafBag<V>(Leaf);
  }

  lemma StateOpenBag<V>(st: Store<V>, k: Path<V>, t: Tree<V>)
    requires State(st, k, t)
    ensures Distinct(PathBag(k) + Bag(t)) && Distinct(PathBag(k) + Bag<V>(Leaf)) && Body(st, Leaf)
  {
    hide Along, PathBag;
    assert PathBag(k) + Bag<V>(Leaf) == PathBag(k);
    var b := PathBag(k) + Bag(t);
    forall p | p in PathBag(k) ensures PathBag(k)[p] == 1 {
      assert p in b && b[p] == PathBag(k)[p] + Bag(t)[p];
    }
    assert b[NULL] == PathBag(k)[NULL] + Bag(t)[NULL];
  }

  lemma HoleOther<V>(k: Path<V>, t: Tree<V>)
    requires t.Bin? && Distinct(PathBag(k) + Bag(t))
    ensures t.e.at != Hole(k) && t.e.at !in PathBag(k)
  {
    hide Bag, PathBag;
    PathApart(k, t);
    RootInBag(t);
    HoleIn(k);
    NullBag(k, t);
  }

  /** Taking a leaf out. */
  lemma LeafGone<V>(st: Store<V>, tree: Tree<V>, k: Path<V>, t: Tree<V>)
    requires State(st, k, t) && Plug(k, t) == tree && t.Bin? && t.l.Leaf? && t.r.Leaf? && Avl(t) && Around(k, Height(t))
    ensures Around(Touched(k, 0), 1) && Avl<V>(Leaf)
            && Inorder(Plug(Touched(k, 0), Leaf)) == Without(Inorder(tree), t.e.at)
  {
    hide State, Plug, Before, After, Around, PathBag, Bag;
    TouchedSame(k, 0, 1);
    PlugInorder(k, t);
    PlugInorder(Touched(k, 0), Leaf);
    BeforeOther(st, k, t);
    assert Before(k) + [] + After(k) == Before(k) + After(k);
    assert Inorder(t) == [t.e];
    WithoutAt(Before(k), t.e, After(k));
  }

  /** No entry before a node is at its address. */
  lemma BeforeOther<V>(st: Store<V>, k: Path<V>, t: Tree<V>)
    requires State(st, k, t) && t.Bin?
    ensures forall y | y in Before(k) :: y.at != t.e.at
  {
    hide Along, Body, PathBag, Bag;
    HoleOther(k, t);
    BeforeIn(k);
  }

  lemma TakeReady<V>(st: Store<V>, k: Path<V>, n: Tree<V>, s: Ptr)
    requires State(st, k, n) && n.Bin? && s !in Bag(n) && s != NULL
    ensures var p := n.e.at;
            && p in st.mem && p != s && p != NULL
            && var (l, r) := (st.mem[p].left, st.mem[p].right);
               l != s && r != s && l != p && r != p && (l == NULL || l in st.mem) && (r == NULL || r in st.mem)
                 && (l == NULL || l != r)
  {
    hide Along, PathBag, Distinct;
    StateOpen(st, k, n);
    BodySides(st, n, Left);
    BodyRootIn(st, n.l);
    BodyRootIn(st, n.r);
    BodyRootIn(st, n);
    KidsApart(k, n);
    RootInBag(n);
    RootInBag(n.l);
    RootInBag(n.r);
  }

  lemma SwapBags<V>(st: Store<V>, k: Path<V>, n: Tree<V>, x: Entry<V>)
    requires State(st, k, n) && n.Bin? && x.at !in PathBag(k) && x.at !in Bag(n) && x.at != NULL
    ensures n.e.at !in PathBag(k) && n.e.at !in Bag(n.(e := x)) && Height(n.(e := x)) == n.h && Root(n.(e := x)) == x.at
  {
    hide Along, PathBag, Distinct, Bag, Body;
    TakenBag(k, n, x);
  }

  /** After the neighbour was cut out: the node above with what is left below it. */
  ghost function Lighter<V>(k: Path<V>, t: Tree<V>, d: Side, j: Path<V>, c: Tree<V>): Tree<V>
    requires t.Bin?
  {
    Make(d, t.e, if j.Top? then Max(Height(c), Height(Kid(t, Other(d)))) + 1 else t.h, Plug(Touched(j, Height(c)), c),
      Kid(t, Other(d)))
  }

  lemma NodeAgain<V>(old_: Store<V>, st: Store<V>, k: Path<V>, t: Tree<V>, d: Side, j: Path<V>, r: Tree<V>)
                     returns (n: Tree<V>)
    requires State(old_, k, t) && Neighbour(t, d, j, r)
             && State(st, Touched(Append(Down(k, t, d), j), Height(Kid(r, d))), Kid(r, d))
    ensures n == Lighter(k, t, d, j, Kid(r, d)) && n.Bin? && n.e == t.e && State(st, k, n)
    ensures r.e.at !in Bag(n) && r.e.at !in PathBag(k) && r.e.at != NULL && r.e.at != t.e.at
    ensures j.Frame? ==> j.e.at != t.e.at
  {
    hide State, Plug, Bag, PathBag;
    var (f, c) := (Down(k, t, d), Kid(r, d));
    var (f1, j1) := (Upper(f, j, Height(c)), Touched(j, Height(c)));
    TouchedAppend(f, j, Height(c));
    StateUp(st, f1, j1, c);
    RaiseState(st, f1, Plug(j1, c));
    n := Lighter(k, t, d, j, c);
    MakeKids(d, t.e, f1.h, Plug(j1, c), Kid(t, Other(d)));
    LighterBag(old_, k, t, d, j, r);
  }

  /** The nodes concerned are all different. */
  lemma LighterBag<V>(st: Store<V>, k: Path<V>, t: Tree<V>, d: Side, j: Path<V>, r: Tree<V>)
    requires State(st, k, t) && Neighbour(t, d, j, r)
    ensures r.e.at !in Bag(Lighter(k, t, d, j, Kid(r, d))) && r.e.at !in PathBag(k) && r.e.at != NULL
            && r.e.at != t.e.at
    ensures j.Frame? ==> j.e.at != t.e.at
  {
    hide Along, Body, Plug, Bag, PathBag, Always, Distinct;
    var (c, far) := (Kid(r, d), Kid(t, Other(d)));
    var j1 := Touched(j, Height(c));
    StateOpen(st, k, t);
    KidSides(t, d);
    BagSides(d, t.e, t.h, Kid(t, d), far);
    BagSides(d, t.e, Lighter(k, t, d, j, c).h, Plug(j1, c), far);
    PlugBag(j, r);
    PlugBag(j1, c);
    TouchedBag(j, Height(c));
    KidSides(r, d);
    BagSides(d, r.e, r.h, c, Kid(r, Other(d)));
    LeafBag(Kid(r, Other(d)));
    if j.Frame? { PathParts(j); }
    OneOut(PathBag(k), t.e.at, PathBag(j), r.e.at, Bag(c), Bag(far));
  }

  lemma OneOut(b: multiset<Ptr>, x: Ptr, j: multiset<Ptr>, r: Ptr, c: multiset<Ptr>, f: multiset<Ptr>)
    requires Distinct(b + (multiset{x} + (j + (multiset{r} + c + multiset{})) + f))
    ensures r !in b && r != x && r != NULL && r !in multiset{x} + (j + c) + f && x !in j
  {
    var w := b + (multiset{x} + (j + (multiset{r} + c + multiset{})) + f);
    forall p: Ptr ensures w[p] == b[p] + (if p == x then 1 else 0) + j[p] + (if p == r then 1 else 0) + c[p] + f[p] {
    }
    assert r in w && x in w;
  }

  /** The place below the neighbour, once it is where the removed node was. */
  lemma BelowSwap<V>(st: Store<V>, tree: Tree<V>, k: Path<V>, t: Tree<V>, d: Side, j: Path<V>, r: Tree<V>, n: Tree<V>)
    returns (p: Path<V>, c: Tree<V>, g: int)
    requires Avl(tree) && Plug(k, t) == tree && Neighbour(t, d, j, r) && n == Lighter(k, t, d, j, Kid(r, d)) && n.Bin?
    requires State(st, Touched(k, n.h), n.(e := r.e)) && (forall y | y in Before(k) :: y.at != t.e.at)
             && t.e.at !in PathBag(k) && t.e.at !in Bag(n.(e := r.e))
    requires t.e.at !in Bag(Kid(t, Left))
    ensures State(st, p, c) && Around(p, g) && Avl(c) && Abs(Height(c) - g) <= 1
            && Hole(p) == (if j.Top? then r.e.at else j.e.at)
    ensures t.e.at !in PathBag(p) && t.e.at !in Bag(c)
    ensures Inorder(Plug(p, c)) == Without(Inorder(tree), t.e.at)
  {
    hide State, Plug, Bag, PathBag, Avl, Around, Inorder, Always, Without, Before;
    c, g := Kid(r, d), Height(r);
    var (k1, j1, u, far) := (Touched(k, n.h), Touched(j, Height(c)), n.(e := r.e), Kid(t, Other(d)));
    SwapKid(t, d, j, r, k, n);
    LowerState(st, k1, u, d);
    var f1 := Down(k1, u, d);
    StateDown(st, f1, j1, c);
    p := Append(f1, j1);
    AppendPlug(f1, j1, c);
    SwapAround(tree, k, t, d, j, r, f1, j1);
    SwapItems(tree, k, t, d, j, r, n, k1, u);
    SwapOutside(p, c, k1, u, k, n.h, t.e.at);
  }

  lemma LeftOther<V>(st: Store<V>, k: Path<V>, t: Tree<V>)
    requires State(st, k, t) && t.Bin?
    ensures t.e.at !in Bag(t.l)
  {
    hide Along, Body, PathBag, Bag;
    KidsApart(k, t);
  }

  lemma SwapKid<V>(t: Tree<V>, d: Side, j: Path<V>, r: Tree<V>, k: Path<V>, n: Tree<V>)
    requires Neighbour(t, d, j, r) && n == Lighter(k, t, d, j, Kid(r, d)) && n.Bin?
    ensures var (u, c) := (n.(e := r.e), Kid(r, d));
            && u == Make(d, r.e, n.h, Plug(Touched(j, Height(c)), c), Kid(t, Other(d)))
            && Kid(u, d) == Plug(Touched(j, Height(c)), c) && Kid(u, Other(d)) == Kid(t, Other(d))
  {
    hide Plug, Always;
  }

  /** What was in order around the neighbour. */
  lemma SwapAround<V>(tree: Tree<V>, k: Path<V>, t: Tree<V>, d: Side, j: Path<V>, r: Tree<V>, f1: Path<V>, j1: Path<V>)
    requires Avl(tree) && Plug(k, t) == tree && Neighbour(t, d, j, r)
    requires f1.Frame? && f1.d == d && f1.s == Kid(t, Other(d)) && SameWay(k, f1.up) && SameWay(j, j1)
    ensures Around(Append(f1, j1), Height(r)) && Avl(Kid(r, d)) && Abs(Height(Kid(r, d)) - Height(r)) <= 1
  {
    hide Plug, Always, Around;
    var f := Down(k, t, d);
    KidSides(t, d);
    RaisePlug(f, Kid(t, d));
    AppendPlug(f, j, r);
    AvlDown(Append(f, j), r);
    AlikeWay(k, f1.up);
    AlikeWay(j, j1);
    AlikeAppend(f, f1, j, j1);
    AlikeAround(Append(f, j), Append(f1, j1), Height(r));
    OneKid(r, d);
  }

  lemma AlikeWay<V>(k: Path<V>, n: Path<V>)
    requires SameWay(k, n)
    ensures Alike(k, n)
  {
    if k.Frame? { AlikeSelf(k.up); }
  }

  /** A node with one kid is one higher than it. */
  lemma OneKid<V>(r: Tree<V>, d: Side)
    requires Avl(r) && r.Bin? && Kid(r, Other(d)).Leaf?
    ensures Avl(Kid(r, d)) && Abs(Height(Kid(r, d)) - Height(r)) <= 1
  {
    HeightPositive(Kid(r, d));
  }

  /** The entries after the neighbour took the place of the node. */
  lemma SwapItems<V>(tree: Tree<V>, k: Path<V>, t: Tree<V>, d: Side, j: Path<V>, r: Tree<V>, n: Tree<V>, k1: Path<V>,
                     u: Tree<V>)
    requires Plug(k, t) == tree && Neighbour(t, d, j, r) && n == Lighter(k, t, d, j, Kid(r, d)) && n.Bin?
    requires k1 == Touched(k, n.h) && u == n.(e := r.e) && (forall y | y in Before(k) :: y.at != t.e.at)
             && t.e.at !in Bag(t.l)
    ensures Inorder(Plug(k1, u)) == Without(Inorder(tree), t.e.at)
  {
    hide Plug, Always, Bag, Without, Before, After, Inorder;
    var (c, far) := (Kid(r, d), Kid(t, Other(d)));
    var m := Touched(j, Height(c));
    SwapKid(t, d, j, r, k, n);
    KidSides(t, d);
    SameWayTouched(j, Height(c));
    SameWayFacts(j, m, 0);
    var b := SwapInorder(k, d, t.e, t.h, j, m, r, far, n.h);
    var a := Before(k) + (if d == Left then Inorder(Plug(j, r)) else Inorder(far));
    assert a == Before(k) + Inorder(t.l);
    ItemsIn(t.l);
    forall y | y in a ensures y.at != t.e.at {
      assert y in Before(k) || y in Inorder(t.l);
    }
    WithoutAt(a, t.e, b);
    SameWayTouched(k, n.h);
    SameWayFacts(k, k1, 0);
    PlugInorder(k, u);
    PlugInorder(k1, u);
  }

  /** The removed node is nowhere in what remains. */
  lemma SwapOutside<V>(p: Path<V>, c: Tree<V>, k1: Path<V>, u: Tree<V>, k: Path<V>, h: int, x: Ptr)
    requires Plug(p, c) == Plug(k1, u) && k1 == Touched(k, h) && x !in PathBag(k) && x !in Bag(u)
    ensures x !in PathBag(p) && x !in Bag(c)
  {
    hide Plug, Bag, PathBag;
    PlugBag(p, c);
    PlugBag(k1, u);
    TouchedBag(k, h);
    assert x !in PathBag(k1) + Bag(u);
  }

  /** The finished tree after a removal. */
  lemma RemovedItems<V>(st: Store<V>, su: Store<V>, tree: Tree<V>, w: Tree<V>, node: Ptr)
    requires Sorted(Inorder(tree)) && Owns(st, Inorder(tree)) && node in st.mem
    requires Inorder(w) == Without(Inorder(tree), node) && su.mem.Keys == st.mem.Keys - {node} && State(su, Top, w)
    ensures Sorted(Inorder(w)) && Owns(su, Inorder(w)) && |Inorder(w)| == |Inorder(tree)| - 1
  {
    hide Sorted, Inorder, Without, State;
    var s := Inorder(tree);
    WithoutSorted(s, node);
    assert HasAt(s, node);
    WithoutHas(s, node);
    forall p ensures p in su.mem <==> HasAt(Inorder(w), p) {
      BagItems(w, p);
      if p in Bag(w) { BagInMem(su, w, p); }
      assert p in su.mem <==> p in st.mem && p != node;
    }
  }

  lemma {:induction false} WithoutHas<V>(s: seq<Entry<V>>, node: Ptr)
    requires HasAt(s, node)
    ensures |Without(s, node)| == |s| - 1
    ensures forall p | HasAt(s, p) && p != node :: HasAt(Without(s, node), p)
  {
    var t := Without(s, node);
    if s[0].at != node {
      assert s == [s[0]] + s[1..];
      var y :| y in s && y.at == node;
      assert y in s[1..] && HasAt(s[1..], node);
      WithoutHas(s[1..], node);
    }
    forall p | HasAt(s, p) && p != node ensures HasAt(t, p) {
      var y :| y in s && y.at == p;
      if s[0].at == node {
        assert y in s[1..];
      } else if y == s[0] {
        assert y in t;
      } else {
        assert y in s[1..] && HasAt(s[1..], p);
        var z :| z in Without(s[1..], node) && z.at == p;
        assert z in t;
      }
    }
  }

  lemma BagInMem<V>(st: Store<V>, t: Tree<V>, p: Ptr)
    requires State(st, Top, t) && p in Bag(t)
    ensures p in st.mem
  {
    hide Bag, PathBag, Distinct;
    StateOpen(st, Top, t);
    BodyIn(st, t, p);
  }

  lemma {:induction false} BodyIn<V>(st: Store<V>, t: Tree<V>, p: Ptr)
    requires Body(st, t) && p in Bag(t)
    ensures p in st.mem
  {
    if t.Bin? {
      BagKids(t);
      if p in Bag(t.l) { BodyIn(st, t.l, p); } else if p in Bag(t.r) { BodyIn(st, t.r, p); }
    }
  }

  lemma OwnsItem<V>(st: Store<V>, items: seq<Entry<V>>, y: Entry<V>)
    requires Owns(st, items) && y in items
    ensures y.at in st.mem
  {
    assert HasAt(items, y.at);
  }

  /** The cell of an entry holds it. */
  lemma CellOf<V>(st: Store<V>, tree: Tree<V>, y: Entry<V>)
    requires State(st, Top, tree) && y in Inorder(tree)
    ensures y.at in st.mem && st.mem[y.at].key == y.key && st.mem[y.at].val == y.val
  {
    hide Bag, PathBag, Distinct;
    StateOpen(st, Top, tree);
    CellIn(st, tree, y);
  }

  lemma {:induction false} CellIn<V>(st: Store<V>, t: Tree<V>, y: Entry<V>)
    requires Body(st, t) && y in Inorder(t)
    ensures y.at in st.mem && st.mem[y.at].key == y.key && st.mem[y.at].val == y.val
  {
    if t.Bin? && y != t.e {
      if y in Inorder(t.l) { CellIn(st, t.l, y); } else { CellIn(st, t.r, y); }
    }
  }
}
