/** AVL trees as values, with the heights that their nodes store: rotations with the stale heights they
    leave behind, the rebalancing of one node, and paths into a tree; src/tree/avltree.c. */
module AvlShape {

  type Ptr = nat

  datatype Side = Left | Right

  function Other(d: Side): Side {
    if d == Left then Right else Left
  }

  /** A node with its key and its value; nodes are told apart by their addresses. */
  datatype Entry<V> = Entry(at: Ptr, key: int, val: V)

  /** The height is the one stored in the node. */
  datatype Tree<V> = Leaf | Bin(l: Tree<V>, e: Entry<V>, h: int, r: Tree<V>)

  function Make<V>(d: Side, e: Entry<V>, h: int, near: Tree<V>, far: Tree<V>): Tree<V> {
    if d == Left then Bin(near, e, h, far) else Bin(far, e, h, near)
  }

  function Kid<V>(t: Tree<V>, d: Side): Tree<V>
    requires t.Bin?
  {
    if d == Left then t.l else t.r
  }

  function Max(x: int, y: int): int {
    if x > y then x else y
  }

  function Abs(x: int): int {
    if x < 0 then -x else x
  }

  /** `avlTreeSubtreeHeight` */
  function Height<V>(t: Tree<V>): int {
    if t.Leaf? then 0 else t.h
  }

  function Above<V>(l: Tree<V>, r: Tree<V>): int {
    Max(Height(l), Height(r)) + 1
  }

  /** Heights are exact and those of siblings differ by at most 1. */
  ghost predicate Avl<V>(t: Tree<V>) {
    t.Bin? ==> Avl(t.l) && Avl(t.r) && t.h == Above(t.l, t.r) && Abs(Height(t.l) - Height(t.r)) <= 1
  }

  /** The length of the longest way down. */
  ghost function Levels<V>(t: Tree<V>): nat {
    if t.Leaf? then 0 else Max(Levels(t.l), Levels(t.r)) + 1
  }

  lemma {:induction false} ExactHeight<V>(t: Tree<V>)
    requires Avl(t)
    ensures Height(t) == Levels(t)
  {
    if t.Bin? {
      ExactHeight(t.l);
      ExactHeight(t.r);
    }
  }

  ghost function Inorder<V>(t: Tree<V>): seq<Entry<V>> {
    if t.Leaf? then [] else Inorder(t.l) + [t.e] + Inorder(t.r)
  }

  // ---------------------------------------------------------------- rotations

  /** `avl_tree_update_height` */
  function Measured<V>(t: Tree<V>): Tree<V>
    requires t.Bin?
  {
    t.(h := Above(t.l, t.r))
  }

  /** `avl_tree_rotate`: the kid away from d rises.  Its height is computed before that of the node
      which now hangs below it, so it is taken from an old height. */
  function Rotated<V>(t: Tree<V>, d: Side): Tree<V>
    requires t.Bin? && Kid(t, Other(d)).Bin?
  {
    var y := Kid(t, Other(d));
    Make(d, y.e, Max(t.h, Height(Kid(y, Other(d)))) + 1,
         Measured(Make(d, t.e, 0, Kid(t, d), Kid(y, d))), Kid(y, Other(d)))
  }

  lemma RotatedInorder<V>(t: Tree<V>, d: Side)
    requires t.Bin? && Kid(t, Other(d)).Bin?
    ensures Inorder(Rotated(t, d)) == Inorder(t)
  {
    var y := Kid(t, Other(d));
    if d == Left {
      assert Inorder(t.l) + [t.e] + (Inorder(y.l) + [y.e] + Inorder(y.r)) == (Inorder(t.l) + [t.e] + Inorder(y.l))
             + [y.e] + Inorder(y.r);
    } else {
      assert (Inorder(y.l) + [y.e] + Inorder(y.r)) + [t.e] + Inorder(t.r) == Inorder(y.l) + [y.e]
             + (Inorder(y.r) + [t.e] + Inorder(t.r));
    }
  }

  /** Replacing the kid on side d; the height is computed for a kid of height h. */
  function WithKid<V>(t: Tree<V>, d: Side, u: Tree<V>, h: int): Tree<V>
    requires t.Bin?
  {
    Make(d, t.e, Max(h, Height(Kid(t, Other(d)))) + 1, u, Kid(t, Other(d)))
  }

  lemma WithKidInorder<V>(t: Tree<V>, d: Side, u: Tree<V>, h: int)
    requires t.Bin? && Inorder(u) == Inorder(Kid(t, d))
    ensures Inorder(WithKid(t, d, u, h)) == Inorder(t)
  {
  }

  /** The heavy kid rotated so that it leans outwards; its parent is measured for the kid that rises, as
      high as it was before. */
  function Straight<V>(t: Tree<V>, d: Side): Tree<V>
    requires t.Bin? && Kid(t, d).Bin? && Kid(Kid(t, d), Other(d)).Bin?
  {
    WithKid(t, d, Rotated(Kid(t, d), d), Height(Kid(Kid(t, d), Other(d))))
  }

  /** The side that is higher by 2 or more. */
  function Heavy<V>(t: Tree<V>): Side
    requires t.Bin?
  {
    if Height(t.r) - Height(t.l) >= 2 then Right else Left
  }

  predicate Unbalanced<V>(t: Tree<V>)
    requires t.Bin?
  {
    Abs(Height(t.r) - Height(t.l)) >= 2
  }

  /** The heavy kid leans inwards: it must be rotated first. */
  predicate Leans<V>(t: Tree<V>, d: Side)
    requires t.Bin? && Kid(t, d).Bin?
  {
    Height(Kid(Kid(t, d), d)) < Height(Kid(Kid(t, d), Other(d)))
  }

  /** A node whose kids are in order and differ by at most 2. */
  ghost predicate Tilted<V>(t: Tree<V>) {
    t.Bin? && Avl(t.l) && Avl(t.r) && Abs(Height(t.l) - Height(t.r)) <= 2
  }

  /** `avl_tree_node_balance`, before the last update of the height. */
  function Turned<V>(t: Tree<V>): Tree<V>
    requires Tilted(t)
  {
    if !Unbalanced(t) then t
    else
      var d := Heavy(t);
      HeavyKid(t);
      if Leans(t, d) then
        LeaningKid(t);
        Rotated(Straight(t, d), Other(d))
      else Rotated(t, Other(d))
  }

  function Balanced<V>(t: Tree<V>): Tree<V>
    requires Tilted(t)
  {
    Measured(Turned(t))
  }

  lemma HeightPositive<V>(t: Tree<V>)
    requires Avl(t)
    ensures Height(t) >= 0 && (t.Bin? ==> Height(t) >= 1) && (t.Leaf? ==> Height(t) == 0)
  {
    ExactHeight(t);
  }

  lemma HeavyKid<V>(t: Tree<V>)
    requires Tilted(t) && Unbalanced(t)
    ensures Kid(t, Heavy(t)).Bin? && Avl(Kid(t, Heavy(t)))
            && Height(Kid(t, Heavy(t))) == Height(Kid(t, Other(Heavy(t)))) + 2
  {
    HeightPositive(t.l);
    HeightPositive(t.r);
  }

  lemma LeaningKid<V>(t: Tree<V>)
    requires Tilted(t) && Unbalanced(t) && Kid(t, Heavy(t)).Bin? && Leans(t, Heavy(t))
    ensures Kid(Kid(t, Heavy(t)), Other(Heavy(t))).Bin?
  {
    HeavyKid(t);
    var d := Heavy(t);
    HeightPositive(Kid(Kid(t, d), d));
  }

  lemma SingleAvl<V>(t: Tree<V>, d: Side)
    requires t.Bin? && Avl(t.l) && Avl(t.r) && Kid(t, d).Bin? && Height(Kid(t, d)) == Height(Kid(t, Other(d))) + 2
             && !Leans(t, d)
    ensures var u := Measured(Rotated(t, Other(d)));
            Avl(u) && Above(t.l, t.r) - 1 <= Height(u) <= Above(t.l, t.r)
  {
    var y := Kid(t, d);
    assert Avl(y);
    var x := Measured(Make(Other(d), t.e, 0, Kid(t, Other(d)), Kid(y, Other(d))));
    assert Avl(Kid(y, d)) && Avl(Kid(y, Other(d))) && Avl(Kid(t, Other(d)));
    assert Avl(x);
  }

  lemma DoubleAvl<V>(t: Tree<V>, d: Side)
    requires t.Bin? && Avl(t.l) && Avl(t.r) && Kid(t, d).Bin? && Height(Kid(t, d)) == Height(Kid(t, Other(d))) + 2
             && Leans(t, d)
    requires Kid(Kid(t, d), Other(d)).Bin?
    ensures var u := Measured(Rotated(Straight(t, d), Other(d)));
            Avl(u) && Above(t.l, t.r) - 1 <= Height(u) <= Above(t.l, t.r)
  {
    var y := Kid(t, d);
    assert Avl(y);
    var z := Kid(y, Other(d));
    assert Avl(z) && Avl(Kid(y, d)) && Avl(Kid(t, Other(d)));
    var (x, w) := (Measured(Make(Other(d), t.e, 0, Kid(t, Other(d)), Kid(z, Other(d)))),
      Measured(Make(d, y.e, 0, Kid(y, d), Kid(z, d))));
    assert Avl(x) && Avl(w);
    var u := Measured(Rotated(Straight(t, d), Other(d)));
    assert Kid(u, d) == w && Kid(u, Other(d)) == x;
  }

  /** Balancing puts a node in order again; its height is the expected one or one less. */
  lemma BalancedAvl<V>(t: Tree<V>)
    requires Tilted(t)
    ensures Avl(Balanced(t))
    ensures Above(t.l, t.r) - 1 <= Height(Balanced(t)) <= Above(t.l, t.r)
    ensures Abs(Height(t.l) - Height(t.r)) <= 1 ==> Height(Balanced(t)) == Above(t.l, t.r)
  {
    hide Rotated, Measured, Straight;
    if Unbalanced(t) {
      HeavyKid(t);
      if Leans(t, Heavy(t)) {
        LeaningKid(t);
        DoubleAvl(t, Heavy(t));
      } else {
        SingleAvl(t, Heavy(t));
      }
    } else {
      MeasuredAvl(t);
    }
  }

  lemma MeasuredAvl<V>(t: Tree<V>)
    requires t.Bin? && Avl(t.l) && Avl(t.r) && Abs(Height(t.l) - Height(t.r)) <= 1
    ensures Avl(Measured(t)) && Height(Measured(t)) == Above(t.l, t.r)
  {
  }

  lemma BalancedInorder<V>(t: Tree<V>)
    requires Tilted(t)
    ensures Inorder(Balanced(t)) == Inorder(t)
  {
    if Unbalanced(t) {
      HeavyKid(t);
      var d := Heavy(t);
      if Leans(t, d) {
        LeaningKid(t);
        RotatedInorder(Kid(t, d), d);
        WithKidInorder(t, d, Rotated(Kid(t, d), d), Height(Kid(Kid(t, d), Other(d))));
        RotatedInorder(Straight(t, d), Other(d));
      } else {
        RotatedInorder(t, Other(d));
      }
    }
  }

  // ---------------------------------------------------------------- paths

  /** A tree with a hole on side d of the last node; s is the kid on the other side. */
  datatype Path<V> = Top | Frame(up: Path<V>, d: Side, e: Entry<V>, h: int, s: Tree<V>)

  ghost function Plug<V>(k: Path<V>, t: Tree<V>): Tree<V> {
    if k.Top? then t else Plug(k.up, Make(k.d, k.e, k.h, t, k.s))
  }

  ghost function Before<V>(k: Path<V>): seq<Entry<V>> {
    if k.Top? then [] else if k.d == Left then Before(k.up) else Before(k.up) + (Inorder(k.s) + [k.e])
  }

  ghost function After<V>(k: Path<V>): seq<Entry<V>> {
    if k.Top? then [] else if k.d == Left then ([k.e] + Inorder(k.s)) + After(k.up) else After(k.up)
  }

  lemma {:induction false} PlugInorder<V>(k: Path<V>, t: Tree<V>)
    ensures Inorder(Plug(k, t)) == Before(k) + Inorder(t) + After(k)
  {
    if k.Frame? {
      PlugInorder(k.up, Make(k.d, k.e, k.h, t, k.s));
    }
  }

  /** Around a hole that held a tree of height g, everything was in order; the stored heights of the
      nodes on the path may be out of date. */
  ghost predicate Around<V>(k: Path<V>, g: int) {
    k.Frame? ==> Avl(k.s) && Abs(Height(k.s) - g) <= 1 && Around(k.up, Max(g, Height(k.s)) + 1)
  }

  lemma {:induction false} AvlDown<V>(k: Path<V>, t: Tree<V>)
    requires Avl(Plug(k, t))
    ensures Avl(t) && Around(k, Height(t))
  {
    if k.Frame? {
      AvlDown(k.up, Make(k.d, k.e, k.h, t, k.s));
    }
  }

  /** One step up: what now fills the hole differs by at most 1 from what did. */
  lemma StepUp<V>(k: Path<V>, u: Tree<V>, g: int)
    requires k.Frame? && Around(k, g) && Avl(u) && Abs(Height(u) - g) <= 1
    ensures var n := Make(k.d, k.e, k.h, u, k.s);
            Tilted(n) && Around(k.up, Max(g, Height(k.s)) + 1)
              && Abs(Height(Balanced(n)) - (Max(g, Height(k.s)) + 1)) <= 1
  {
    hide Avl, Balanced;
    BalancedAvl(Make(k.d, k.e, k.h, u, k.s));
  }

  /** The path with the height of its last node computed for a kid of height h. */
  function Touched<V>(k: Path<V>, h: int): Path<V> {
    if k.Top? then k else k.(h := Max(h, Height(k.s)) + 1)
  }

  lemma TouchedSame<V>(k: Path<V>, h: int, g: int)
    ensures Before(Touched(k, h)) == Before(k) && After(Touched(k, h)) == After(k)
    ensures Around(k, g) ==> Around(Touched(k, h), g)
  {
  }

  /** One path below another. */
  ghost function Append<V>(k: Path<V>, j: Path<V>): Path<V> {
    if j.Top? then k else Frame(Append(k, j.up), j.d, j.e, j.h, j.s)
  }

  lemma {:induction false} AppendPlug<V>(k: Path<V>, j: Path<V>, t: Tree<V>)
    ensures Plug(Append(k, j), t) == Plug(k, Plug(j, t))
  {
    if j.Frame? {
      AppendPlug(k, j.up, Make(j.d, j.e, j.h, t, j.s));
    }
  }

  // ---------------------------------------------------------------- order

  ghost predicate Sorted<V>(s: seq<Entry<V>>) {
    forall i, j | 0 <= i < j < |s| :: s[i].key <= s[j].key
  }

  /** Put an entry behind all with the same or smaller keys. */
  ghost function Placed<V>(s: seq<Entry<V>>, x: Entry<V>): seq<Entry<V>> {
    if s == [] || x.key < s[0].key then [x] + s else [s[0]] + Placed(s[1..], x)
  }

  /** The entries of the other nodes. */
  ghost function Without<V>(s: seq<Entry<V>>, p: Ptr): seq<Entry<V>> {
    if s == [] then [] else if s[0].at == p then s[1..] else [s[0]] + Without(s[1..], p)
  }

  ghost predicate UpTo<V>(s: seq<Entry<V>>, key: int) {
    forall x | x in s :: x.key <= key
  }

  ghost predicate Beyond<V>(s: seq<Entry<V>>, key: int) {
    forall x | x in s :: key < x.key
  }

  lemma {:induction false} PlacedBetween<V>(a: seq<Entry<V>>, x: Entry<V>, b: seq<Entry<V>>)
    requires UpTo(a, x.key) && Beyond(b, x.key)
    ensures Placed(a + b, x) == a + [x] + b
  {
    if a == [] {
      assert a + b == b;
      if b != [] { assert b[0] in b; }
    } else {
      assert a[0] in a && (a + b)[1..] == a[1..] + b;
      PlacedBetween(a[1..], x, b);
    }
  }

  lemma {:induction false} WithoutAt<V>(a: seq<Entry<V>>, x: Entry<V>, b: seq<Entry<V>>)
    requires forall y | y in a :: y.at != x.at
    ensures Without(a + [x] + b, x.at) == a + b
  {
    if a == [] {
      assert a + [x] + b == [x] + b && a + b == b;
    } else {
      assert a[0] in a && (a + [x] + b)[1..] == a[1..] + [x] + b;
      WithoutAt(a[1..], x, b);
      assert a + b == [a[0]] + (a[1..] + b);
    }
  }

  /** Adding an entry adds it, and keeps the order. */
  lemma {:induction false} PlacedMultiset<V>(s: seq<Entry<V>>, x: Entry<V>)
    ensures multiset(Placed(s, x)) == multiset(s) + multiset{x}
  {
    if s != [] && x.key >= s[0].key {
      PlacedMultiset(s[1..], x);
      assert s == [s[0]] + s[1..];
    }
  }

  lemma {:induction false} PlacedSorted<V>(s: seq<Entry<V>>, x: Entry<V>)
    requires Sorted(s)
    ensures Sorted(Placed(s, x))
  {
    if s == [] || x.key < s[0].key {
    } else {
      PlacedSorted(s[1..], x);
      PlacedMultiset(s[1..], x);
      var t := Placed(s[1..], x);
      forall y | y in t ensures s[0].key <= y.key {
        assert y in multiset(t);
        if y != x {
          assert y in multiset(s[1..]) && y in s[1..];
          var i :| 0 <= i < |s[1..]| && s[1..][i] == y;
          assert s[i + 1] == y;
        }
      }
    }
  }

  /** Taking a node out removes one entry, and keeps the order. */
  lemma {:induction false} WithoutMultiset<V>(s: seq<Entry<V>>, x: Entry<V>)
    requires x in s && forall y | y in s && y.at == x.at :: y == x
    ensures multiset(Without(s, x.at)) + multiset{x} == multiset(s)
  {
    assert s == [s[0]] + s[1..];
    if s[0].at != x.at {
      WithoutMultiset(s[1..], x);
    } else {
      assert s[0] in s;
    }
  }

  lemma {:induction false} WithoutSorted<V>(s: seq<Entry<V>>, p: Ptr)
    requires Sorted(s)
    ensures Sorted(Without(s, p)) && forall y | y in Without(s, p) :: y in s
  {
    if s != [] {
      assert s == [s[0]] + s[1..];
      if s[0].at != p {
        WithoutSorted(s[1..], p);
        forall y | y in Without(s[1..], p) ensures s[0].key <= y.key {
          var i :| 0 <= i < |s[1..]| && s[1..][i] == y;
          assert s[i + 1] == y;
        }
      }
    }
  }
}
