/** Red-black trees and paths into them, as values.

    A tree records the address of each node, so a value says both what a tree holds and where
    its nodes are.  A path (`Ctx`) is a tree with a hole: the stack of nodes above the current
    subtree, each with the direction taken and the sibling not taken. */
module RedBlack {
  import opened Words
  import opened SortedItems

  type Ptr = nat

  datatype Color = Black | Red

  datatype Dir = Left | Right

  function Other(d: Dir): Dir {
    if d == Left then Right else Left
  }

  datatype Tree<V> = Leaf | Bin(p: Ptr, c: Color, l: Tree<V>, x: Item<V>, r: Tree<V>)

  datatype Ctx<V> = Top | Frame(up: Ctx<V>, d: Dir, p: Ptr, c: Color, x: Item<V>, s: Tree<V>)

  /** A node whose child in direction `d` is `near` and whose other child is `far`. */
  function Make<V>(d: Dir, p: Ptr, c: Color, x: Item<V>, near: Tree<V>, far: Tree<V>): Tree<V> {
    if d == Left then Bin(p, c, near, x, far) else Bin(p, c, far, x, near)
  }

  function Kid<V>(t: Tree<V>, d: Dir): Tree<V>
    requires t.Bin?
  {
    if d == Left then t.l else t.r
  }

  function Plug<V>(k: Ctx<V>, t: Tree<V>): Tree<V> {
    match k
    case Top => t
    case Frame(up, d, p, c, x, s) => Plug(up, Make(d, p, c, x, t, s))
  }

  // ---------------------------------------------------------------- contents

  function Inorder<V>(t: Tree<V>): seq<Item<V>> {
    match t
    case Leaf => []
    case Bin(_, _, l, x, r) => Inorder(l) + [x] + Inorder(r)
  }

  /** The items to the left of the hole. */
  function Before<V>(k: Ctx<V>): seq<Item<V>> {
    match k
    case Top => []
    case Frame(up, d, _, _, x, s) => Before(up) + (if d == Left then [] else Inorder(s) + [x])
  }

  /** The items to the right of the hole. */
  function After<V>(k: Ctx<V>): seq<Item<V>> {
    match k
    case Top => []
    case Frame(up, d, _, _, x, s) => (if d == Left then [x] + Inorder(s) else []) + After(up)
  }

  lemma Regroup<T>(a: seq<T>, t: seq<T>, x: seq<T>, s: seq<T>, b: seq<T>)
    ensures a + (t + x + s) + b == (a + []) + t + ((x + s) + b)
    ensures a + (s + x + t) + b == (a + (s + x)) + t + ([] + b)
  {
  }

  lemma {:induction false} PlugInorder<V>(k: Ctx<V>, t: Tree<V>)
    ensures Inorder(Plug(k, t)) == Before(k) + Inorder(t) + After(k)
  {
    match k
    case Top =>
    case Frame(up, d, p, c, x, s) =>
      PlugInorder(up, Make(d, p, c, x, t, s));
      Regroup(Before(up), Inorder(t), [x], Inorder(s), After(up));
  }

  // ---------------------------------------------------------------- colours and black heights

  predicate IsBlack<V>(t: Tree<V>) {
    t.Leaf? || t.c == Black
  }

  function Paint<V>(t: Tree<V>, c: Color): Tree<V> {
    if t.Leaf? then t else t.(c := c)
  }

  /** No red node has a red child and every path has `h` black nodes. */
  predicate Rb<V>(t: Tree<V>, h: nat) {
    match t
    case Leaf => h == 0
    case Bin(_, Black, l, _, r) => h > 0 && Rb(l, h - 1) && Rb(r, h - 1)
    case Bin(_, Red, l, _, r) => IsBlack(l) && IsBlack(r) && Rb(l, h) && Rb(r, h)
  }

  predicate IsBlackFrame<V>(k: Ctx<V>) {
    k.Top? || k.c == Black
  }

  /** The path keeps the rules around a hole that takes black height `h`; its first node is black. */
  predicate CtxRb<V>(k: Ctx<V>, h: nat) {
    match k
    case Top => true
    case Frame(up, _, _, Black, _, s) => Rb(s, h) && CtxRb(up, h + 1)
    case Frame(up, _, _, Red, _, s) => Rb(s, h) && IsBlack(s) && up.Frame? && up.c == Black && CtxRb(up, h)
  }

  /** Filling the hole of such a path gives a tree that keeps the rules. */
  lemma {:induction false} PlugRb<V>(k: Ctx<V>, t: Tree<V>, h: nat) returns (g: nat)
    requires CtxRb(k, h) && Rb(t, h) && (IsBlack(t) || IsBlackFrame(k))
    ensures Rb(Plug(k, t), g)
    ensures IsBlack(Plug(k, t)) <==> k.Frame? || IsBlack(t)
  {
    match k
    case Top => g := h;
    case Frame(up, d, p, c, x, s) =>
      g := PlugRb(up, Make(d, p, c, x, t, s), if c == Black then h + 1 else h);
  }

  /** A red-black tree: the rules hold and the root is black. */
  ghost predicate Balanced<V>(t: Tree<V>) {
    IsBlack(t) && exists h: nat :: Rb(t, h)
  }

  lemma PaintBlack<V>(t: Tree<V>, h: nat)
    requires Rb(t, h)
    ensures Balanced(Paint(t, Black)) && Inorder(Paint(t, Black)) == Inorder(t)
    ensures t.Bin? && t.c == Red ==> Rb(Paint(t, Black), h + 1)
  {
    if t.Bin? && t.c == Red { assert Rb(Paint(t, Black), h + 1); } else { assert Paint(t, Black) == t; }
  }

  /** Every place in a balanced tree: the path keeps the rules, and so does the subtree. */
  lemma {:induction false} Descend<V>(k: Ctx<V>, t: Tree<V>, d: Dir, h: nat) returns (g: nat)
    requires t.Bin? && Rb(t, h) && CtxRb(k, h) && (IsBlack(t) || (k.Frame? && k.c == Black))
    ensures var k' := Frame(k, d, t.p, t.c, t.x, Kid(t, Other(d)));
            && CtxRb(k', g) && Rb(Kid(t, d), g) && (IsBlack(Kid(t, d)) || t.c == Black)
            && Plug(k', Kid(t, d)) == Plug(k, t)
  {
    g := if t.c == Black then h - 1 else h;
  }

  // ---------------------------------------------------------------- repairs after an insertion

  /** The uncle is red: recolour and look again two levels up. */
  function Recolor<V>(k: Ctx<V>, t: Tree<V>): Tree<V>
    requires k.Frame? && k.up.Frame?
  {
    Make(k.up.d, k.up.p, Red, k.up.x, Make(k.d, k.p, Black, k.x, t, k.s), Paint(k.up.s, Black))
  }

  /** The uncle is black and the red pair leans one way: one rotation. */
  function RotateOuter<V>(k: Ctx<V>, t: Tree<V>): Tree<V>
    requires k.Frame? && k.up.Frame?
  {
    Make(k.d, k.p, Black, k.x, t, Make(k.d, k.up.p, Red, k.up.x, k.s, k.up.s))
  }

  /** The red pair bends: the lower red node rises over both. */
  function RotateInner<V>(k: Ctx<V>, t: Tree<V>): Tree<V>
    requires k.Frame? && k.up.Frame? && t.Bin?
  {
    var d := k.up.d;
    Make(d, t.p, Black, t.x,
         Make(d, k.p, Red, k.x, k.s, Kid(t, d)),
         Make(d, k.up.p, Red, k.up.x, Kid(t, Other(d)), k.up.s))
  }

  lemma RbMake<V>(d: Dir, p: Ptr, c: Color, x: Item<V>, near: Tree<V>, far: Tree<V>, h: nat)
    requires Rb(near, h) && Rb(far, h)
    requires c == Red ==> IsBlack(near) && IsBlack(far)
    ensures Rb(Make(d, p, c, x, near, far), if c == Black then h + 1 else h)
  {
  }

  lemma RbKids<V>(t: Tree<V>, h: nat)
    requires t.Bin? && Rb(t, h)
    ensures t.c == Black ==> h > 0
    ensures var g := if t.c == Black then h - 1 else h;
            forall d :: Rb(Kid(t, d), g) && (t.c == Red ==> IsBlack(Kid(t, d)))
  {
  }

  function Join<T>(d: Dir, near: seq<T>, x: T, far: seq<T>): seq<T> {
    if d == Left then near + [x] + far else far + [x] + near
  }

  lemma InorderMake<V>(d: Dir, p: Ptr, c: Color, x: Item<V>, near: Tree<V>, far: Tree<V>)
    ensures Inorder(Make(d, p, c, x, near, far)) == Join(d, Inorder(near), x, Inorder(far))
  {
  }

  lemma InorderKids<V>(t: Tree<V>, d: Dir)
    requires t.Bin?
    ensures Inorder(t) == Join(d, Inorder(Kid(t, d)), t.x, Inorder(Kid(t, Other(d))))
    ensures t == Make(d, t.p, t.c, t.x, Kid(t, d), Kid(t, Other(d)))
  {
  }

  lemma JoinRotates<T>(d: Dir, a: seq<T>, x: T, b: seq<T>, y: T, c: seq<T>)
    ensures Join(d, Join(d, a, x, b), y, c) == Join(d, a, x, Join(d, b, y, c))
    ensures Join(Other(d), a, x, b) == Join(d, b, x, a)
  {
    assert (a + [x] + b) + [y] + c == a + [x] + (b + [y] + c);
    assert c + [y] + (b + [x] + a) == (c + [y] + b) + [x] + a;
  }

  /** A red subtree below a red node, everything else in order. */
  predicate RedPair<V>(k: Ctx<V>, t: Tree<V>, h: nat) {
    && CtxRb(k, h) && Rb(t, h) && t.Bin? && t.c == Red
    && k.Frame? && k.c == Red
  }

  lemma RbKidsOfPath<V>(k: Ctx<V>, h: nat)
    requires CtxRb(k, h) && k.Frame? && k.c == Red
    ensures Rb(k.s, h) && IsBlack(k.s) && k.up.c == Black && Rb(k.up.s, h) && CtxRb(k.up.up, h + 1)
  {
    hide Rb;
  }

  lemma MakeRoot<V>(d: Dir, p: Ptr, c: Color, x: Item<V>, near: Tree<V>, far: Tree<V>)
    ensures var m := Make(d, p, c, x, near, far); m.Bin? && m.c == c && m.p == p && m.x == x
    ensures Kid(Make(d, p, c, x, near, far), d) == near && Kid(Make(d, p, c, x, near, far), Other(d)) == far
  {
  }

  lemma RecolorKeeps<V>(k: Ctx<V>, t: Tree<V>, h: nat)
    requires RedPair(k, t, h) && !IsBlack(k.up.s)
    ensures var n := Recolor(k, t);
            && CtxRb(k.up.up, h + 1) && Rb(n, h + 1) && n.Bin? && n.c == Red
            && Inorder(Plug(k.up.up, n)) == Inorder(Plug(k, t))
  {
    hide Inorder, Rb, Make, Join;
    RbKidsOfPath(k, h);
    var far := Paint(k.up.s, Black);
    PaintBlack(k.up.s, h);
    RbMake(k.d, k.p, Black, k.x, t, k.s, h);
    MakeRoot(k.d, k.p, Black, k.x, t, k.s);
    RbMake(k.up.d, k.up.p, Red, k.up.x, Make(k.d, k.p, Black, k.x, t, k.s), far, h + 1);
    MakeRoot(k.up.d, k.up.p, Red, k.up.x, Make(k.d, k.p, Black, k.x, t, k.s), far);
    InorderMake(k.d, k.p, Black, k.x, t, k.s);
    InorderMake(k.up.d, k.up.p, Red, k.up.x, Make(k.d, k.p, Black, k.x, t, k.s), far);
    RepairContents(k, t, Recolor(k, t));
  }

  lemma RotateOuterKeeps<V>(k: Ctx<V>, t: Tree<V>, h: nat)
    requires RedPair(k, t, h) && IsBlack(k.up.s) && k.d == k.up.d
    ensures var n := RotateOuter(k, t);
            && CtxRb(k.up.up, h + 1) && Rb(n, h + 1) && n.Bin? && n.c == Black
            && Inorder(Plug(k.up.up, n)) == Inorder(Plug(k, t))
  {
    hide Inorder, Rb, Make, Join;
    RbKidsOfPath(k, h);
    var d := k.d;
    var low := Make(d, k.up.p, Red, k.up.x, k.s, k.up.s);
    RbMake(d, k.up.p, Red, k.up.x, k.s, k.up.s, h);
    RbMake(d, k.p, Black, k.x, t, low, h);
    MakeRoot(d, k.p, Black, k.x, t, low);
    InorderMake(d, k.up.p, Red, k.up.x, k.s, k.up.s);
    InorderMake(d, k.p, Black, k.x, t, low);
    JoinRotates(d, Inorder(t), k.x, Inorder(k.s), k.up.x, Inorder(k.up.s));
    RepairContents(k, t, RotateOuter(k, t));
  }

  lemma RotateInnerKeeps<V>(k: Ctx<V>, t: Tree<V>, h: nat)
    requires RedPair(k, t, h) && IsBlack(k.up.s) && k.d != k.up.d
    ensures var n := RotateInner(k, t);
            && CtxRb(k.up.up, h + 1) && Rb(n, h + 1) && n.Bin? && n.c == Black
            && Inorder(Plug(k.up.up, n)) == Inorder(Plug(k, t))
  {
    hide Inorder, Rb, Make, Join;
    RbKidsOfPath(k, h);
    RbKids(t, h);
    var d, e := k.up.d, Other(k.up.d);
    var a, b := Kid(t, d), Kid(t, e);
    var near := Make(d, k.p, Red, k.x, k.s, a);
    var far := Make(d, k.up.p, Red, k.up.x, b, k.up.s);
    RbMake(d, k.p, Red, k.x, k.s, a, h);
    RbMake(d, k.up.p, Red, k.up.x, b, k.up.s, h);
    RbMake(d, t.p, Black, t.x, near, far, h);
    MakeRoot(d, t.p, Black, t.x, near, far);
    InorderMake(d, k.p, Red, k.x, k.s, a);
    InorderMake(d, k.up.p, Red, k.up.x, b, k.up.s);
    InorderMake(d, t.p, Black, t.x, near, far);
    InorderKids(t, d);
    var s, u, ia, ib := Inorder(k.s), Inorder(k.up.s), Inorder(a), Inorder(b);
    JoinRotates(d, Inorder(t), k.x, s, k.x, s);
    JoinRotates(d, s, k.x, ia, t.x, ib);
    JoinRotates(d, Join(d, s, k.x, ia), t.x, ib, k.up.x, u);
    RepairContents(k, t, RotateInner(k, t));
  }

  /** A repair of the two topmost frames keeps the contents if it keeps those of the subtree. */
  lemma RepairContents<V>(k: Ctx<V>, t: Tree<V>, n: Tree<V>)
    requires k.Frame? && k.up.Frame?
    requires Inorder(n) == Join(k.up.d, Join(k.d, Inorder(t), k.x, Inorder(k.s)), k.up.x, Inorder(k.up.s))
    ensures Inorder(Plug(k.up.up, n)) == Inorder(Plug(k, t))
  {
    hide Inorder, Join, Make;
    var l := Make(k.d, k.p, k.c, k.x, t, k.s);
    var m := Make(k.up.d, k.up.p, k.up.c, k.up.x, l, k.up.s);
    InorderMake(k.d, k.p, k.c, k.x, t, k.s);
    InorderMake(k.up.d, k.up.p, k.up.c, k.up.x, l, k.up.s);
    PlugInorder(k.up.up, n);
    PlugInorder(k.up.up, m);
  }

  // ---------------------------------------------------------------- repairs after a deletion

  /** The subtree is one black node short of the height `h + 1` that the path expects; painting
      its root black would make up for it if the root is red. */
  predicate Short<V>(k: Ctx<V>, t: Tree<V>, h: nat) {
    CtxRb(k, h + 1) && if IsBlack(t) then Rb(t, h) else Rb(Paint(t, Black), h + 1)
  }

  /** The sibling is red: it rises over the parent, and the new sibling is black. */
  function RaiseSibling<V>(k: Ctx<V>): Ctx<V>
    requires k.Frame? && k.s.Bin?
  {
    var d, w := k.d, k.s;
    Frame(Frame(k.up, d, w.p, Black, w.x, Kid(w, Other(d))), d, k.p, Red, k.x, Kid(w, d))
  }

  /** The sibling and its children are black: the sibling turns red and the parent is short. */
  function PassUp<V>(k: Ctx<V>, t: Tree<V>): Tree<V>
    requires k.Frame?
  {
    Make(k.d, k.p, k.c, k.x, t, Paint(k.s, Red))
  }

  /** Only the near child of the sibling is red: it rises over the sibling. */
  function TurnSibling<V>(k: Ctx<V>): Tree<V>
    requires k.Frame? && k.s.Bin? && Kid(k.s, k.d).Bin?
  {
    var d, w := k.d, k.s;
    var y := Kid(w, d);
    Make(d, y.p, Black, y.x, Kid(y, d), Make(d, w.p, Red, w.x, Kid(y, Other(d)), Kid(w, Other(d))))
  }

  /** The far child of the sibling is red: the sibling takes the parent's place and colour. */
  function Settle<V>(k: Ctx<V>, t: Tree<V>): Tree<V>
    requires k.Frame? && k.s.Bin?
  {
    var d, w := k.d, k.s;
    Make(d, w.p, k.c, w.x, Make(d, k.p, Black, k.x, t, Kid(w, d)), Paint(Kid(w, Other(d)), Black))
  }

  lemma ShortPath<V>(k: Ctx<V>, t: Tree<V>, h: nat)
    requires Short(k, t, h) && IsBlack(t) && k.Frame?
    ensures Rb(t, h) && k.s.Bin? && Rb(k.s, h + 1)
    ensures k.c == Red ==> IsBlack(k.s) && k.up.Frame? && k.up.c == Black
    ensures CtxRb(k.up, if k.c == Black then h + 2 else h + 1)
  {
  }

  lemma RaiseSiblingKeeps<V>(k: Ctx<V>, t: Tree<V>, h: nat)
    requires Short(k, t, h) && IsBlack(t) && k.Frame? && k.s.Bin? && k.s.c == Red
    ensures var n := RaiseSibling(k);
            && Short(n, t, h) && n.s.Bin? && n.s.c == Black
            && Inorder(Plug(n, t)) == Inorder(Plug(k, t))
  {
    hide Inorder, Rb, Make, Join, Plug;
    ShortPath(k, t, h);
    RbKids(k.s, h + 1);
    var d, w, n := k.d, k.s, RaiseSibling(k);
    var a, b, c := Inorder(t), Inorder(n.s), Inorder(n.up.s);
    RbBin(n.s, h);
    assert CtxRb(n.up, h + 1);
    PlugTwice(n, t);
    PlugOnce(k, t);
    InorderKids(w, d);
    JoinRotates(d, a, k.x, b, w.x, c);
  }

  lemma RbBin<V>(t: Tree<V>, h: nat)
    requires Rb(t, h + 1)
    ensures t.Bin?
  {
  }

  lemma PlugOnce<V>(k: Ctx<V>, t: Tree<V>)
    requires k.Frame?
    ensures Inorder(Plug(k, t)) == Before(k.up) + Join(k.d, Inorder(t), k.x, Inorder(k.s)) + After(k.up)
  {
    hide Inorder, Make, Join;
    PlugInorder(k.up, Make(k.d, k.p, k.c, k.x, t, k.s));
    InorderMake(k.d, k.p, k.c, k.x, t, k.s);
  }

  lemma PlugTwice<V>(k: Ctx<V>, t: Tree<V>)
    requires k.Frame? && k.up.Frame?
    ensures Inorder(Plug(k, t)) == Before(k.up.up)
              + Join(k.up.d, Join(k.d, Inorder(t), k.x, Inorder(k.s)), k.up.x, Inorder(k.up.s)) + After(k.up.up)
  {
    hide Inorder, Make, Join;
    PlugOnce(k.up, Make(k.d, k.p, k.c, k.x, t, k.s));
    InorderMake(k.d, k.p, k.c, k.x, t, k.s);
  }

  lemma PassUpKeeps<V>(k: Ctx<V>, t: Tree<V>, h: nat)
    requires Short(k, t, h) && IsBlack(t) && k.Frame? && k.s.Bin? && k.s.c == Black
    requires IsBlack(k.s.l) && IsBlack(k.s.r)
    ensures var n := PassUp(k, t);
            && (if k.c == Black then Short(k.up, n, h + 1) else Short(k.up, n, h))
            && n.c == k.c && Inorder(Plug(k.up, n)) == Inorder(Plug(k, t))
  {
    hide Inorder, Make, Join, Plug;
    ShortPath(k, t, h);
    var w, n := Paint(k.s, Red), PassUp(k, t);
    assert Rb(w, h) && Inorder(w) == Inorder(k.s) by { PaintRed(k.s, h); }
    MakeRoot(k.d, k.p, k.c, k.x, t, w);
    RbMake(k.d, k.p, Black, k.x, t, w, h);
    RepaintMake(k.d, k.p, k.c, k.x, t, w);
    PlugOnce(k, t);
    PlugInorder(k.up, n);
    InorderMake(k.d, k.p, k.c, k.x, t, w);
  }

  lemma PaintRed<V>(t: Tree<V>, h: nat)
    requires t.Bin? && t.c == Black && Rb(t, h + 1) && IsBlack(t.l) && IsBlack(t.r)
    ensures Rb(Paint(t, Red), h) && Inorder(Paint(t, Red)) == Inorder(t)
  {
  }

  lemma RepaintMake<V>(d: Dir, p: Ptr, c: Color, x: Item<V>, near: Tree<V>, far: Tree<V>)
    ensures Paint(Make(d, p, c, x, near, far), Black) == Make(d, p, Black, x, near, far)
  {
  }

  lemma TurnSiblingKeeps<V>(k: Ctx<V>, t: Tree<V>, h: nat)
    requires Short(k, t, h) && IsBlack(t) && k.Frame? && k.s.Bin? && k.s.c == Black
    requires IsBlack(Kid(k.s, Other(k.d))) && !IsBlack(Kid(k.s, k.d))
    ensures var n := k.(s := TurnSibling(k));
            && Short(n, t, h) && n.s.Bin? && n.s.c == Black && !IsBlack(Kid(n.s, Other(k.d)))
            && Inorder(Plug(n, t)) == Inorder(Plug(k, t))
  {
    hide Inorder, Rb, Make, Join, Plug;
    ShortPath(k, t, h);
    var d, e, w := k.d, Other(k.d), k.s;
    RbKids(w, h + 1);
    var y, far := Kid(w, d), Kid(w, e);
    RbKids(y, h);
    var low := Make(d, w.p, Red, w.x, Kid(y, e), far);
    RbMake(d, w.p, Red, w.x, Kid(y, e), far, h);
    RbMake(d, y.p, Black, y.x, Kid(y, d), low, h);
    MakeRoot(d, w.p, Red, w.x, Kid(y, e), far);
    MakeRoot(d, y.p, Black, y.x, Kid(y, d), low);
    InorderKids(w, d);
    InorderKids(y, d);
    InorderMake(d, w.p, Red, w.x, Kid(y, e), far);
    InorderMake(d, y.p, Black, y.x, Kid(y, d), low);
    JoinRotates(d, Inorder(Kid(y, d)), y.x, Inorder(Kid(y, e)), w.x, Inorder(far));
    PlugOnce(k, t);
    PlugOnce(k.(s := TurnSibling(k)), t);
  }

  lemma SettleKeeps<V>(k: Ctx<V>, t: Tree<V>, h: nat)
    requires Short(k, t, h) && IsBlack(t) && k.Frame? && k.s.Bin? && k.s.c == Black
    requires !IsBlack(Kid(k.s, Other(k.d)))
    ensures var n := Settle(k, t);
            && (if k.c == Black then CtxRb(k.up, h + 2) && Rb(n, h + 2) else CtxRb(k.up, h + 1) && Rb(n, h + 1))
            && n.c == k.c && (k.c == Black || IsBlackFrame(k.up))
            && Inorder(Plug(k.up, n)) == Inorder(Plug(k, t))
  {
    hide Inorder, Rb, Make, Join, Plug;
    ShortPath(k, t, h);
    var d, e, w := k.d, Other(k.d), k.s;
    RbKids(w, h + 1);
    var a, b := Kid(w, d), Kid(w, e);
    PaintBlack(b, h);
    var low, far := Make(d, k.p, Black, k.x, t, a), Paint(b, Black);
    RbMake(d, k.p, Black, k.x, t, a, h);
    MakeRoot(d, k.p, Black, k.x, t, a);
    RbMake(d, w.p, k.c, w.x, low, far, h + 1);
    MakeRoot(d, w.p, k.c, w.x, low, far);
    InorderMake(d, k.p, Black, k.x, t, a);
    InorderMake(d, w.p, k.c, w.x, low, far);
    InorderKids(w, d);
    JoinRotates(d, Inorder(t), k.x, Inorder(a), w.x, Inorder(b));
    PlugOnce(k, t);
    PlugInorder(k.up, Settle(k, t));
  }

  // ---------------------------------------------------------------- height

  function Height<V>(t: Tree<V>): nat {
    match t
    case Leaf => 0
    case Bin(_, _, l, _, r) => 1 + if Height(l) > Height(r) then Height(l) else Height(r)
  }

  function Depth<V>(k: Ctx<V>): nat {
    if k.Top? then 0 else 1 + Depth(k.up)
  }

  lemma {:induction false} RbBounds<V>(t: Tree<V>, h: nat)
    requires Rb(t, h)
    ensures Height(t) <= 2 * h + (if IsBlack(t) then 0 else 1)
    ensures Pow2(h) <= |Inorder(t)| + 1
  {
    if t.Bin? {
      var g := if t.c == Black then h - 1 else h;
      RbBounds(t.l, g);
      RbBounds(t.r, g);
    }
  }

  /** A red-black tree with a black root and n items has height at most 2 * log2(n + 1). */
  lemma HeightBound<V>(t: Tree<V>, h: nat)
    requires Rb(t, h) && IsBlack(t)
    ensures Pow2((Height(t) + 1) / 2) <= |Inorder(t)| + 1
  {
    RbBounds(t, h);
    PowMono((Height(t) + 1) / 2, h);
  }

  lemma {:induction false} DepthBound<V>(k: Ctx<V>, t: Tree<V>)
    ensures Depth(k) + Height(t) <= Height(Plug(k, t))
  {
    if k.Frame? {
      DepthBound(k.up, Make(k.d, k.p, k.c, k.x, t, k.s));
    }
  }

  /** Below 2^63 - 1 items no path is longer than 124 nodes. */
  lemma PathsFit<V>(k: Ctx<V>, t: Tree<V>)
    requires Balanced(Plug(k, t)) && |Inorder(Plug(k, t))| < LONG_MAX
    ensures Depth(k) + Height(t) <= 124
  {
    hide Inorder, Plug, Rb;
    var tree := Plug(k, t);
    var h: nat :| Rb(tree, h);
    HeightBound(tree, h);
    DepthBound(k, t);
    Pow63();
    if Height(tree) > 124 {
      PowMono(63, (Height(tree) + 1) / 2);
    }
  }
}
