/** Seeking and stepping in a radix tree, src/tree/rax.c:1428-1870.

    The place of the iterator is a path (its stack of parents) and a node; `key` is the buffer of
    the bytes on the path. */
module RaxIter {
  import opened Bytes
  import opened Options
  import opened RaxNodes
  import opened RaxEdits
  import opened RaxOrder
  import opened Rax

  /** How many bytes a node adds to the key below it. */
  function StepLength<V>(n: Node<V>): nat {
    if n.compr then |n.data| else 1
  }

  /** The state before a step: at a node, or beside its edge `c` (when the step must not go up first). */
  ghost predicate Ready<V(!new)>(head: Node<V>, k: Ctx<V>, n: Node<V>, key: Str, noup: bool, c: int,
                          want: Str -> bool) {
    && At(head, k, n)
    && if noup then
         && |key| == |Route(k)| + StepLength(n) && Route(k) <= key && Beyond(head, k, n, c, want)
         && (!n.compr ==> key[|key| - 1] == c)
       else
         key == Route(k) && Below(head, k, want)
  }

  /** The same while going up: everything below the place is behind. */
  ghost predicate Rising<V(!new)>(head: Node<V>, k: Ctx<V>, n: Node<V>, key: Str, noup: bool, c: int,
                           want: Str -> bool) {
    && At(head, k, n)
    && if noup then
         && |key| == |Route(k)| + StepLength(n) && Route(k) <= key && Beyond(head, k, n, c, want)
         && (!n.compr ==> key[|key| - 1] == c)
       else
         key == Route(k) && Over(head, k, want)
  }

  /** The first wanted key is found at a place. */
  ghost predicate FoundAt<V(!new)>(head: Node<V>, k: Ctx<V>, n: Node<V>, key: Str, want: Str -> bool) {
    At(head, k, n) && key == Route(k) && n.val.Some? && First(head, want, key)
  }

  /** Drop the bytes of the last step. */
  lemma KeyUp<V>(k: Ctx<V>, n: Node<V>)
    requires PathForm(k) && k.Down?
    ensures var (f, key) := (Fill(k, n), Route(k));
            && |key| == |Route(k.up)| + StepLength(f) && Route(k.up) <= key
               && key[..|key| - StepLength(f)] == Route(k.up)
            && |key| > 0 && (!k.compr ==> key[|key| - 1] == k.data[|k.left|])
  {
    RouteGrows(k);
  }

  /** The next edge beyond byte `c`. */
  method ScanNext(data: Str, c: Byte) returns (i: nat)
    requires Ascending(data)
    ensures i <= |data| && forall j | 0 <= j < |data| :: data[j] > c <==> i <= j
  {
    i := 0;
    while i < |data|
      invariant i <= |data| && forall j | 0 <= j < i :: data[j] <= c
    {
      if data[i] > c { break; }
      i := i + 1;
    }
  }

  /** Enter the child at `i` of a branch or the child of a compressed node. */
  method Enter<V(!new)>(ghost head: Node<V>, k0: Ctx<V>, n0: Node<V>, key0: Str, i: nat, ghost c: int,
                 ghost want: Str -> bool)
    returns (k: Ctx<V>, n: Node<V>, key: Str)
    requires At(head, k0, n0) && key0 == Route(k0) && i < |n0.kids|
    requires if n0.compr then Below(head, k0, want)
             else Beyond(head, k0, n0, c, want) && (forall j | 0 <= j < |n0.data| :: n0.data[j] > c <==> i <= j)
    ensures At(head, k, n) && key == Route(k) && n == n0.kids[i] && Shape(n)
    ensures n.val.Some? ==> FoundAt(head, k, n, key, want)
    ensures n.val == None ==> Below(head, k, want)
  {
    hide Get, Plug, PathShape, HoleShape, Route, PathForm, Form, Shape, Below, Beyond, From, First;
    EnterFirst(head, k0, n0, i, c, want);
    AtChild(head, k0, n0, i);
    k, n := Child(k0, n0, i), n0.kids[i];
    key := if n0.compr then key0 + n0.data else key0 + [n0.data[i]];
    FoundFirst(head, k, n, want);
  }

  /** Go up to a node with an edge beyond the one just left and enter it, src/tree/rax.c:1527-1577. */
  method ClimbNext<V(!new)>(ghost head: Node<V>, k0: Ctx<V>, n0: Node<V>, key0: Str, noup0: bool, ghost c0: int,
                     ghost want: Str -> bool)
    returns (eof: bool, k: Ctx<V>, n: Node<V>, key: Str)
    requires Rising(head, k0, n0, key0, noup0, c0, want)
    ensures eof ==> Nothing(head, want)
    ensures !eof ==> At(head, k, n) && Shape(n) && key == Route(k)
    ensures !eof ==> if n.val.Some? then FoundAt(head, k, n, key, want) else Below(head, k, want)
  {
    hide Get, Plug, PathShape, HoleShape, Route, PathForm, Form, Shape, Below, Beyond, Over, Nothing;
    k, n, key := k0, n0, key0;
    var noup := noup0;
    ghost var c := c0;
    while true
      invariant Rising(head, k, n, key, noup, c, want)
      decreases k, noup
    {
      var oldNoup := noup;
      if !noup && k.Top? {
        OverTop(head, k, want);
        return true, k, n, key;
      }
      KeyNonempty(head, k, n, key, noup, c, want);
      var prevchild := key[|key| - 1];
      if !noup {
        OverUp(head, k, n, want);
        KeyUp(k, n);
        c := if k.compr then 0 else k.data[|k.left|];
        n, k := Fill(k, n), k.up;
      } else {
        noup := false;
      }
      Trimmed(Route(k), key, StepLength(n));
      key := key[..|key| - StepLength(n)];
      AtFormed(head, k, n);
      if !n.compr && |n.data| > (if oldNoup then 0 else 1) {
        var i := ScanNext(n.data, prevchild);
        if i != |n.data| {
          k, n, key := Enter(head, k, n, key, i, c, want);
          return false, k, n, key;
        }
      }
      NoMoreEdges(head, k, n, c, want);
    }
  }

  lemma KeyNonempty<V(!new)>(head: Node<V>, k: Ctx<V>, n: Node<V>, key: Str, noup: bool, c: int, want: Str -> bool)
    requires Rising(head, k, n, key, noup, c, want) && (noup || k.Down?)
    ensures |key| > 0 && (noup ==> |key| >= StepLength(n))
    ensures PathForm(k)
  {
    AtFormed(head, k, n);
    if !noup { RouteGrows(k); }
  }

  lemma AtFormed<V>(head: Node<V>, k: Ctx<V>, n: Node<V>)
    requires At(head, k, n)
    ensures Formed(n) && (n.compr ==> n.data != []) && (!n.compr ==> |n.data| == |n.kids| && Ascending(n.data))
  {
    HoleIsForm(k, n);
  }

  lemma Trimmed(r: Str, key: Str, m: nat)
    requires r <= key && |key| == |r| + m
    ensures key[..|key| - m] == r
  {
  }

  /** Find the first wanted key from a place on, src/tree/rax.c:1492-1579. */
  method NextStep<V(!new)>(ghost head: Node<V>, k0: Ctx<V>, n0: Node<V>, key0: Str, noup0: bool, ghost c0: int,
                    ghost want: Str -> bool)
    returns (eof: bool, k: Ctx<V>, n: Node<V>, key: Str)
    requires Ready(head, k0, n0, key0, noup0, c0, want)
    ensures eof ==> Nothing(head, want) && k == k0 && n == n0 && key == key0
    ensures !eof ==> FoundAt(head, k, n, key, want)
  {
    hide Get, Plug, PathShape, HoleShape, Route, PathForm, Form, Below, Beyond, Over, Nothing, FoundAt;
    k, n, key := k0, n0, key0;
    var noup := noup0;
    while true
      invariant Ready(head, k, n, key, noup, c0, want)
      invariant (k, n, key, noup) == (k0, n0, key0, noup0) || (!noup && n.kids != [])
      decreases noup || n.kids == [], n
    {
      AtFormed(head, k, n);
      if !noup && (n.compr || |n.data| != 0) {
        if !n.compr { FirstEdge(head, k, n, want); }
        k, n, key := Enter(head, k, n, key, 0, -1, want);
      } else {
        if !noup { LeafBelow(head, k, n, want); }
        eof, k, n, key := ClimbNext(head, k, n, key, noup, c0, want);
        if eof {
          return true, k0, n0, key0;
        }
        noup := false;
      }
      if n.val.Some? {
        return false, k, n, key;
      }
    }
  }

  /** All edges lie beyond -1. */
  lemma FirstEdge<V(!new)>(head: Node<V>, k: Ctx<V>, n: Node<V>, want: Str -> bool)
    requires At(head, k, n) && Below(head, k, want) && !n.compr
    ensures Beyond(head, k, n, -1, want)
  {
    hide Get, Plug;
    forall t | IsKey(head, t) ensures want(t) <==> Later(k, t) || (!n.compr && Route(k) < t && t[|Route(k)|] > -1) {
    }
  }

  // ---------------------------------------------------------------- backwards

  /** The last wanted key is found at a place. */
  ghost predicate FinalAt<V(!new)>(head: Node<V>, k: Ctx<V>, n: Node<V>, key: Str, want: Str -> bool) {
    At(head, k, n) && key == Route(k) && n.val.Some? && Final(head, want, key)
  }

  /** Go down the last children to a leaf, src/tree/rax.c:1585-1599. */
  method SeekGreatest<V(!new)>(ghost head: Node<V>, k0: Ctx<V>, n0: Node<V>, key0: Str, ghost want: Str -> bool)
    returns (k: Ctx<V>, n: Node<V>, key: Str)
    requires At(head, k0, n0) && key0 == Route(k0) && UpTo(head, k0, want)
    requires n0.kids == [] ==> n0.val.Some?
    ensures FinalAt(head, k, n, key, want)
  {
    hide Get, Plug, PathShape, HoleShape, Route, PathForm, Form, UpTo, Final;
    k, n, key := k0, n0, key0;
    AtFormed(head, k, n);
    while |n.data| != 0
      invariant At(head, k, n) && key == Route(k) && UpTo(head, k, want) && (n.kids == [] ==> n.val.Some?) && Formed(n)
      decreases n
    {
      if n.compr {
        key := key + n.data;
      } else {
        key := key + [n.data[|n.data| - 1]];
      }
      var i := |n.kids| - 1;
      LastChild(head, k, n, want);
      AtChild(head, k, n, i);
      k, n := Child(k, n, i), n.kids[i];
      AtFormed(head, k, n);
    }
    LeafFinal(head, k, n, want);
  }

  /** The state before a step back. */
  ghost predicate ReadyBack<V(!new)>(head: Node<V>, k: Ctx<V>, n: Node<V>, key: Str, noup: bool, c: int,
                              want: Str -> bool) {
    && At(head, k, n)
    && if noup then
         && |key| == |Route(k)| + StepLength(n) && Route(k) <= key && Short(head, k, n, c, want)
         && (!n.compr ==> key[|key| - 1] == c)
       else
         key == Route(k) && Before(head, k, want)
  }

  /** The last edge before byte `c`, or -1. */
  method ScanPrev(data: Str, c: Byte) returns (i: int)
    requires Ascending(data)
    ensures -1 <= i < |data| && forall j | 0 <= j < |data| :: data[j] < c <==> j <= i
  {
    i := |data| - 1;
    while i >= 0
      invariant -1 <= i < |data| && forall j | i < j < |data| :: data[j] >= c
    {
      if data[i] < c { break; }
      i := i - 1;
    }
  }

  /** Find the last wanted key before a place, src/tree/rax.c:1612-1674. */
  method PrevStep<V(!new)>(ghost head: Node<V>, k0: Ctx<V>, n0: Node<V>, key0: Str, noup0: bool, ghost c0: int,
                    ghost want: Str -> bool)
    returns (eof: bool, k: Ctx<V>, n: Node<V>, key: Str)
    requires ReadyBack(head, k0, n0, key0, noup0, c0, want)
    ensures eof ==> Nothing(head, want) && k == k0 && n == n0 && key == key0
    ensures !eof ==> FinalAt(head, k, n, key, want)
  {
    hide Get, Plug, PathShape, HoleShape, Route, PathForm, Form, Before, Short, UpTo, Nothing, Final;
    k, n, key := k0, n0, key0;
    var noup := noup0;
    ghost var c := c0;
    while true
      invariant ReadyBack(head, k, n, key, noup, c, want)
      decreases k, noup
    {
      var oldNoup := noup;
      if !noup && k.Top? {
        BeforeTop(head, k, want);
        return true, k0, n0, key0;
      }
      KeyNonemptyBack(head, k, n, key, noup, c, want);
      var prevchild := key[|key| - 1];
      if !noup {
        BeforeUp(head, k, n, want);
        KeyUp(k, n);
        c := if k.compr then 0 else k.data[|k.left|];
        n, k := Fill(k, n), k.up;
      } else {
        noup := false;
      }
      Trimmed(Route(k), key, StepLength(n));
      key := key[..|key| - StepLength(n)];
      AtFormed(head, k, n);
      if !n.compr && |n.data| > (if oldNoup then 0 else 1) {
        var i := ScanPrev(n.data, prevchild);
        if i != -1 {
          EnterLast(head, k, n, i, c, want);
          AtChild(head, k, n, i);
          ShapeLeaf(n.kids[i]);
          key := key + [n.data[i]];
          k, n := Child(k, n, i), n.kids[i];
          k, n, key := SeekGreatest(head, k, n, key, want);
          return false, k, n, key;
        }
      }
      NoEdgeBefore(head, k, n, c, want);
      if n.val.Some? {
        return false, k, n, key;
      }
    }
  }

  lemma ShapeLeaf<V>(n: Node<V>)
    requires Shape(n)
    ensures n.kids == [] ==> n.val.Some?
  {
  }

  lemma KeyNonemptyBack<V(!new)>(head: Node<V>, k: Ctx<V>, n: Node<V>, key: Str, noup: bool, c: int, want: Str -> bool)
    requires ReadyBack(head, k, n, key, noup, c, want) && (noup || k.Down?)
    ensures |key| > 0 && PathForm(k)
  {
    AtFormed(head, k, n);
    if !noup { RouteGrows(k); }
  }

  // ---------------------------------------------------------------- seeking

  function Greater(s: Str): Str -> bool {
    t => Lt(s, t)
  }

  function Smaller(s: Str): Str -> bool {
    t => Lt(t, s)
  }

  function Any(): Str -> bool {
    (t: Str) => true
  }

  /** How the sought key compares with the keys below the node where the walk for it stopped. */
  lemma ComparesBelow<V>(head: Node<V>, s: Str, i: nat, k: Ctx<V>, n: Node<V>, sp: nat, t: Str)
    requires Walked(head, s, i, k, n, sp) && At(head, k, n) && IsKey(head, t) && Route(k) < t
    ensures i == |s| ==> Lt(s, t)
    ensures i < |s| && n.compr ==> if n.data[sp] > s[i] then Lt(s, t) else Lt(t, s)
    ensures i < |s| && !n.compr ==> t[|Route(k)|] != s[i] && if t[|Route(k)|] > s[i] then Lt(s, t) else Lt(t, s)
  {
    hide Get, Plug, PathShape, HoleShape, Form, Shape;
    KeyBelow(head, k, n, t);
    RoutePrefix(Route(k), n.data[..sp], s, i);
    var r := Route(k) + n.data[..sp];
    if n.compr {
      var full := Route(k) + n.data;
      assert full <= t && r < full && full[|r|] == n.data[sp];
      assert r < t && t[|r|] == n.data[sp];
    }
    if i == |s| {
      assert s == r by { assert s[..|s|] == s; }
      LtPrefix(s, t);
    } else {
      assert r == s[..i] && r < s && s[|r|] == s[i];
      if t[|r|] > s[i] { LtByte(r, s, t); } else { LtByte(r, t, s); }
    }
  }

  /** How it compares with the other keys. */
  lemma ComparesBeside<V>(head: Node<V>, s: Str, i: nat, k: Ctx<V>, n: Node<V>, sp: nat, t: Str)
    requires Walked(head, s, i, k, n, sp) && At(head, k, n) && IsKey(head, t)
    ensures Later(k, t) ==> Lt(s, t)
    ensures Earlier(k, t) ==> Lt(t, s)
    ensures t == Route(k) ==> t == s || Lt(t, s)
    ensures Later(k, t) || Earlier(k, t) || t == Route(k) || Route(k) < t
    ensures !(Lt(s, t) && Lt(t, s)) && !Lt(s, s)
  {
    hide Get, Plug, PathShape, HoleShape, Form, Shape;
    RoutePrefix(Route(k), n.data[..sp], s, i);
    if Later(k, t) { LaterIsGreater(k, t, s); }
    if Earlier(k, t) { EarlierIsSmaller(k, t, s); }
    if t == Route(k) && t != s { LtPrefix(t, s); }
    ThreeWays(k, n, t);
    LtTotal(s, t);
  }

  /** What the walk for a key leaves to look at, for a search forwards and for one backwards. */
  lemma SeekModes<V(!new)>(head: Node<V>, s: Str, i: nat, k: Ctx<V>, n: Node<V>, sp: nat)
    requires Walked(head, s, i, k, n, sp) && At(head, k, n)
    ensures i == |s| || (n.compr && n.data[sp] > s[i]) ==> Below(head, k, Greater(s))
    ensures i < |s| && (n.compr ==> n.data[sp] < s[i]) ==> Beyond(head, k, n, s[i], Greater(s))
    ensures i == |s| && sp == 0 ==> s == Route(k) && Before(head, k, Smaller(s))
    ensures i < |s| && n.compr && n.data[sp] < s[i] ==> UpTo(head, k, Smaller(s))
    ensures (i == |s| && sp > 0) || (i < |s| && (n.compr ==> n.data[sp] > s[i])) ==>
              Short(head, k, n, if i < |s| then s[i] else 0, Smaller(s))
  {
    hide Get, Plug, PathShape, HoleShape, Form, Shape, Walked, Lt, Later, Earlier;
    WalkedAt(head, s, i, k, n, sp);
    if i == |s| && sp == 0 { RouteWhole(Route(k), n.data, s); }
    if i == |s| && sp > 0 { LongerRoute(Route(k), n.data, sp, s); }
    if i < |s| { ShorterRoute(Route(k), n.data, sp, s, i); }
    forall t | IsKey(head, t)
      ensures i == |s| || (n.compr && n.data[sp] > s[i]) ==> (Lt(s, t) <==> Route(k) < t || Later(k, t))
      ensures i < |s| && n.compr && n.data[sp] < s[i] ==>
              (Lt(s, t) <==> Later(k, t)) && (Lt(t, s) <==> Earlier(k, t) || Route(k) <= t)
      ensures i < |s| && !n.compr ==>
                && (Lt(s, t) <==> Later(k, t) || (Route(k) < t && t[|Route(k)|] > s[i]))
                && (Lt(t, s) <==> Earlier(k, t) || t == Route(k) || (Route(k) < t && t[|Route(k)|] < s[i]))
      ensures i == |s| && sp == 0 ==> (Lt(t, s) <==> Earlier(k, t))
      ensures (i == |s| && sp > 0) || (i < |s| && n.compr && n.data[sp] > s[i]) ==>
              (Lt(t, s) <==> Earlier(k, t) || t == Route(k))
    {
      ComparesBeside(head, s, i, k, n, sp, t);
      if Route(k) < t { ComparesBelow(head, s, i, k, n, sp, t); }
    }
  }

  lemma LongerRoute(r: Str, d: Str, sp: nat, s: Str)
    requires sp <= |d| && r + d[..sp] == s[..|s|] && sp > 0
    ensures s != r
  {
  }

  lemma ShorterRoute(r: Str, d: Str, sp: nat, s: Str, i: nat)
    requires sp <= |d| && i < |s| && r + d[..sp] == s[..i]
    ensures s != r
  {
  }

  /** What a seek with an operator must reach. */
  ghost predicate Reached<V(!new)>(head: Node<V>, op: string, ele: Str, eof: bool, key: Str)
    requires Form(head) && GoodOp(op)
  {
    if HasEq(op) && IsKey(head, ele) then !eof && key == ele
    else if op[0] == '>' then if eof then Nothing(head, Greater(ele)) else First(head, Greater(ele), key)
    else if op[0] == '<' then if eof then Nothing(head, Smaller(ele)) else Final(head, Smaller(ele), key)
    else if op[0] == '^' then if eof then Nothing(head, Any()) else First(head, Any(), key)
    else if op[0] == '$' then if eof then Nothing(head, Any()) else Final(head, Any(), key)
    else eof
  }

  predicate GoodOp(op: string) {
    op != [] && op[0] in ['>', '<', '=', '^', '$']
  }

  predicate HasEq(op: string)
    requires GoodOp(op)
  {
    op[0] == '=' || (op[0] in ['>', '<'] && |op| > 1 && op[1] == '=')
  }

  lemma AfterKey<V(!new)>(head: Node<V>, k: Ctx<V>, n: Node<V>)
    requires At(head, k, n)
    ensures Below(head, k, Greater(Route(k))) && Before(head, k, Smaller(Route(k)))
  {
    hide Get, Plug, PathShape, HoleShape, Form, Later, Earlier, Lt;
    var s := Route(k);
    forall t | IsKey(head, t)
      ensures (Lt(s, t) <==> s < t || Later(k, t)) && (Lt(t, s) <==> Earlier(k, t))
    {
      ThreeWays(k, n, t);
      LtTotal(s, t);
      if Later(k, t) { LaterIsGreater(k, t, s); }
      if Earlier(k, t) { EarlierIsSmaller(k, t, s); }
      if s < t { LtPrefix(s, t); }
      assert s <= t && !(s < t) ==> t == s;
    }
  }

  class RaxIterator<V(!new)> {
    const rt: Rax<V>
    var eof: bool
    var justSeeked: bool
    var key: Str
    var data: Option<V>
    var node: Node<V>
    var stack: Ctx<V>

    /** At a key of the tree, unless at the end. */
    ghost predicate Valid()
      reads this, rt
    {
      rt.Valid() && (!eof ==> At(rt.head, stack, node) && key == Route(stack) && node.val.Some? && data == node.val)
    }

    constructor (rt: Rax<V>)
      requires rt.Valid()
      ensures Valid() && this.rt == rt && eof
    {
      this.rt := rt;
      eof, justSeeked, key, data, node, stack := true, false, [], None, Empty(), Top;
    }

    /** Go to the next key. */
    method Next() returns (found: bool)
      requires Valid()
      modifies this
      ensures Valid() && found == !eof
      ensures old(eof) ==> eof
      ensures !old(eof) && old(justSeeked) ==> found && key == old(key) && !justSeeked
      ensures !old(eof) && !old(justSeeked) ==>
                if found then First(rt.head, Greater(old(key)), key) else Nothing(rt.head, Greater(old(key)))
    {
      hide Get, Plug, PathShape, HoleShape, Form, First, Nothing, Below, Greater, Route;
      if eof {
        return false;
      }
      if justSeeked {
        justSeeked := false;
        return true;
      }
      AfterKey(rt.head, stack, node);
      eof, stack, node, key := NextStep(rt.head, stack, node, key, false, 0, Greater(key));
      if !eof { data := node.val; }
      return !eof;
    }

    /** Go to the previous key. */
    method Prev() returns (found: bool)
      requires Valid()
      modifies this
      ensures Valid() && found == !eof
      ensures old(eof) ==> eof
      ensures !old(eof) && old(justSeeked) ==> found && key == old(key) && !justSeeked
      ensures !old(eof) && !old(justSeeked) ==>
                if found then Final(rt.head, Smaller(old(key)), key) else Nothing(rt.head, Smaller(old(key)))
    {
      hide Get, Plug, PathShape, HoleShape, Form, Final, Nothing, Before, Smaller, Route;
      if eof {
        return false;
      }
      if justSeeked {
        justSeeked := false;
        return true;
      }
      AfterKey(rt.head, stack, node);
      eof, stack, node, key := PrevStep(rt.head, stack, node, key, false, 0, Smaller(key));
      if !eof { data := node.val; }
      return !eof;
    }

    /** Position the iterator, src/tree/rax.c:1681-1840; fails for an unknown operator only. */
    method Seek(op: string, ele: Str) returns (ok: bool)
      requires rt.Valid()
      modifies this
      ensures ok <==> GoodOp(op)
      ensures ok ==> Valid() && (!eof ==> justSeeked) && Reached(rt.head, op, ele, eof, key)
    {
      hide Get, Plug, PathShape, HoleShape, Form, First, Final, Nothing, Below, Before, Greater, Smaller, Any, Route,
           Agrees, RootShape, Formed;
      justSeeked, eof, key, stack := true, false, [], Top;
      if !GoodOp(op) {
        return false;
      }
      ok := true;
      HeadForm(rt.head);
      if rt.numele == 0 {
        eof := true;
        NoKeys(rt.head, rt.M, ele);
        return;
      }
      if op[0] == '^' {
        SeekFrom(true, false, true, []);
        FromStart(rt.head, key, eof);
      } else if op[0] == '$' {
        node := rt.head;
        SomeLeaf(rt.head, rt.M);
        stack, node, key := SeekGreatest(rt.head, Top, rt.head, [], Any());
        data := node.val;
      } else {
        SeekFrom(HasEq(op), op[0] == '<', op[0] == '>', ele);
      }
    }

    /** Look the key up and go on from where the walk ends. */
    method SeekFrom(eq: bool, lt: bool, gt: bool, ele: Str)
      requires rt.Valid() && !(lt && gt) && (lt || gt || eq) && !eof && justSeeked
      modifies this
      ensures Valid() && (!eof ==> justSeeked)
      ensures if eq && IsKey(rt.head, ele) then !eof && key == ele
              else if gt then if eof then Nothing(rt.head, Greater(ele)) else First(rt.head, Greater(ele), key)
              else if lt then if eof then Nothing(rt.head, Smaller(ele)) else Final(rt.head, Smaller(ele), key)
              else eof
    {
      hide Get, Plug, PathShape, HoleShape, Form, First, Final, Nothing, Below, Before, Beyond, Short, UpTo, Greater,
           Smaller,
           Route, Walked, Agrees, RootShape, Formed;
      var i, splitpos;
      i, stack, node, splitpos := rt.LowWalk(ele);
      WalkGet(rt.head, ele, i, stack, node, splitpos);
      WalkedAt(rt.head, ele, i, stack, node, splitpos);
      AtIs(stack, node);
      SeekModes(rt.head, ele, i, stack, node, splitpos);
      if eq && i == |ele| && (!node.compr || splitpos == 0) && node.val.Some? {
        key := ele;
        data := node.val;
      } else if gt {
        key := ele[..i - splitpos];
        WalkedRoute(stack, node, splitpos, ele, i);
        SeekGreater(ele, i, splitpos);
      } else if lt {
        key := ele[..i - splitpos];
        WalkedRoute(stack, node, splitpos, ele, i);
        SeekSmaller(ele, i, splitpos);
      } else {
        eof := true;
      }
    }

    /** From where the walk ended to the first greater key, src/tree/rax.c:1747-1833. */
    method SeekGreater(ele: Str, i: nat, splitpos: nat)
      requires rt.Valid() && Walked(rt.head, ele, i, stack, node, splitpos) && At(rt.head, stack, node)
      requires key == Route(stack) && !eof && justSeeked
      modifies this
      ensures Valid() && (!eof ==> justSeeked)
      ensures if eof then Nothing(rt.head, Greater(ele)) else First(rt.head, Greater(ele), key)
    {
      hide Get, At, IsKey, Lt, Plug, PathShape, HoleShape, Form, First, Nothing, Below, Beyond, Greater, Route,
           Walked, Agrees, RootShape, Formed, PathForm, Shape, Step;
      SeekModes(rt.head, ele, i, stack, node, splitpos);
      WalkedAt(rt.head, ele, i, stack, node, splitpos);
      justSeeked := false;
      if i != |ele| && !node.compr {
        Extended(Route(stack), [ele[i]]);
        key := key + [ele[i]];
        eof, stack, node, key := NextStep(rt.head, stack, node, key, true, ele[i], Greater(ele));
      } else if i != |ele| && node.data[splitpos] < ele[i] {
        Extended(Route(stack), node.data);
        key := key + node.data;
        eof, stack, node, key := NextStep(rt.head, stack, node, key, true, ele[i], Greater(ele));
      } else {
        eof, stack, node, key := NextStep(rt.head, stack, node, key, false, 0, Greater(ele));
      }
      if !eof { data := node.val; }
      justSeeked := true;
    }

    /** From where the walk ended to the last smaller key. */
    method SeekSmaller(ele: Str, i: nat, splitpos: nat)
      requires rt.Valid() && Walked(rt.head, ele, i, stack, node, splitpos) && At(rt.head, stack, node)
      requires key == Route(stack) && !eof && justSeeked
      modifies this
      ensures Valid() && (!eof ==> justSeeked)
      ensures if eof then Nothing(rt.head, Smaller(ele)) else Final(rt.head, Smaller(ele), key)
    {
      hide Get, At, IsKey, Lt, Plug, PathShape, HoleShape, Form, Final, Nothing, Before, Short, UpTo, Smaller, Route,
           Walked, Agrees, RootShape, Formed, PathForm, Shape, Step;
      SeekModes(rt.head, ele, i, stack, node, splitpos);
      WalkedAt(rt.head, ele, i, stack, node, splitpos);
      AtFormed(rt.head, stack, node);
      justSeeked := false;
      if i != |ele| && !node.compr {
        Extended(Route(stack), [ele[i]]);
        key := key + [ele[i]];
        eof, stack, node, key := PrevStep(rt.head, stack, node, key, true, ele[i], Smaller(ele));
      } else if i != |ele| && node.data[splitpos] < ele[i] {
        stack, node, key := SeekGreatest(rt.head, stack, node, key, Smaller(ele));
      } else if i != |ele| {
        Extended(Route(stack), node.data);
        key := key + node.data;
        eof, stack, node, key := PrevStep(rt.head, stack, node, key, true, ele[i], Smaller(ele));
      } else {
        if splitpos > 0 { NoEdgeBefore(rt.head, stack, node, 0, Smaller(ele)); }
        if !(node.compr && node.val.Some? && splitpos > 0) {
          eof, stack, node, key := PrevStep(rt.head, stack, node, key, false, 0, Smaller(ele));
        }
      }
      if !eof { data := node.val; }
      justSeeked := true;
    }
  }

  lemma Extended(r: Str, d: Str)
    ensures r <= r + d && |r + d| == |r| + |d|
  {
  }

  lemma HeadForm<V>(n: Node<V>)
    requires RootShape(n)
    ensures Form(n) && At(n, Top, n) && Formed(n)
  {
    ShapeIsForm(n);
  }

  lemma NoKeys<V(!new)>(n: Node<V>, m: map<Str, V>, ele: Str)
    requires Form(n) && Agrees(n, m) && |m| == 0
    ensures !IsKey(n, ele) && Nothing(n, Greater(ele)) && Nothing(n, Smaller(ele)) && Nothing(n, Any())
  {
    hide Get;
    forall t ensures t !in m { }
  }

  /** A tree with keys: an empty head is itself a key. */
  lemma SomeLeaf<V(!new)>(n: Node<V>, m: map<Str, V>)
    requires Form(n) && RootShape(n) && Agrees(n, m) && |m| > 0
    ensures n.kids == [] ==> n.val.Some?
    ensures UpTo(n, Top, Any()) && Route<V>(Top) == []
  {
    assert m.Keys != {};
    var t :| t in m;
    AgreesAt(n, m, t);
  }

  /** The first key is the empty one or the first one after it. */
  lemma FromStart<V(!new)>(n: Node<V>, key: Str, eof: bool)
    requires Form(n)
    requires if IsKey(n, []) then !eof && key == []
             else if eof then Nothing(n, Greater([])) else First(n, Greater([]), key)
    ensures if eof then Nothing(n, Any()) else First(n, Any(), key)
  {
    hide Get;
    forall t | IsKey(n, t) ensures t == [] || Lt([], t) { }
    if IsKey(n, []) {
      assert First(n, Any(), []);
    }
  }

  lemma WalkedRoute<V>(k: Ctx<V>, n: Node<V>, sp: nat, s: Str, i: nat)
    requires PathForm(k) && sp <= |n.data| && i <= |s| && Route(k) + n.data[..sp] == s[..i]
    ensures i >= sp && s[..i - sp] == Route(k)
  {
    assert s[..i][..|Route(k)|] == Route(k);
  }

  // ---------------------------------------------------------------- whole runs

  /** The keys that steps forward reach from some key on, one after the other, until the end. */
  ghost predicate Run<V(!new)>(head: Node<V>, keys: seq<Str>)
    requires Form(head)
  {
    && keys != [] && IsKey(head, keys[0])
    && (forall i: nat | i + 1 < |keys| :: First(head, Greater(keys[i]), keys[i + 1]))
    && Nothing(head, Greater(keys[|keys| - 1]))
  }

  /** The same with steps backward. */
  ghost predicate RunBack<V(!new)>(head: Node<V>, keys: seq<Str>)
    requires Form(head)
  {
    && keys != [] && IsKey(head, keys[0])
    && (forall i: nat | i + 1 < |keys| :: Final(head, Smaller(keys[i]), keys[i + 1]))
    && Nothing(head, Smaller(keys[|keys| - 1]))
  }

  lemma {:induction false} RunAscends<V(!new)>(head: Node<V>, keys: seq<Str>, i: nat, j: nat)
    requires Form(head) && Run(head, keys) && i <= j < |keys|
    ensures IsKey(head, keys[j]) && (i < j ==> Lt(keys[i], keys[j]))
    decreases j
  {
    hide Get, Lt;
    if i < j {
      assert First(head, Greater(keys[j - 1]), keys[j - 1 + 1]);
      RunAscends(head, keys, i, j - 1);
      if i < j - 1 { LtTrans(keys[i], keys[j - 1], keys[j]); }
    } else if j > 0 {
      assert First(head, Greater(keys[j - 1]), keys[j - 1 + 1]);
    }
  }

  lemma {:induction false} RunPasses<V(!new)>(head: Node<V>, keys: seq<Str>, t: Str, i: nat)
    requires Form(head) && Run(head, keys) && IsKey(head, t) && (t == keys[0] || Lt(keys[0], t)) && i < |keys|
    ensures t in keys[..i + 1] || Lt(keys[i], t)
  {
    hide Get, Lt;
    if i > 0 {
      RunPasses(head, keys, t, i - 1);
      assert First(head, Greater(keys[i - 1]), keys[i - 1 + 1]);
      assert keys[..i + 1] == keys[..i] + [keys[i]];
    }
  }

  /** A run forward visits the keys from its first one on, each once, in ascending order. */
  lemma RunVisitsRest<V(!new)>(head: Node<V>, keys: seq<Str>)
    requires Form(head) && Run(head, keys)
    ensures forall t :: t in keys <==> IsKey(head, t) && (t == keys[0] || Lt(keys[0], t))
    ensures forall i, j | 0 <= i < j < |keys| :: Lt(keys[i], keys[j])
  {
    hide Get, Lt;
    forall t ensures t in keys <==> IsKey(head, t) && (t == keys[0] || Lt(keys[0], t)) {
      if t in keys {
        var i :| 0 <= i < |keys| && keys[i] == t;
        RunAscends(head, keys, 0, i);
      }
      if IsKey(head, t) && (t == keys[0] || Lt(keys[0], t)) {
        RunPasses(head, keys, t, |keys| - 1);
        assert keys[..|keys|] == keys;
        assert !Greater(keys[|keys| - 1])(t);
      }
    }
    forall i, j | 0 <= i < j < |keys| ensures Lt(keys[i], keys[j]) { RunAscends(head, keys, i, j); }
  }

  lemma {:induction false} RunDescends<V(!new)>(head: Node<V>, keys: seq<Str>, i: nat, j: nat)
    requires Form(head) && RunBack(head, keys) && i <= j < |keys|
    ensures IsKey(head, keys[j]) && (i < j ==> Lt(keys[j], keys[i]))
    decreases j
  {
    hide Get, Lt;
    if i < j {
      assert Final(head, Smaller(keys[j - 1]), keys[j - 1 + 1]);
      RunDescends(head, keys, i, j - 1);
      if i < j - 1 { LtTrans(keys[j], keys[j - 1], keys[i]); }
    } else if j > 0 {
      assert Final(head, Smaller(keys[j - 1]), keys[j - 1 + 1]);
    }
  }

  lemma {:induction false} RunBackPasses<V(!new)>(head: Node<V>, keys: seq<Str>, t: Str, i: nat)
    requires Form(head) && RunBack(head, keys) && IsKey(head, t) && (t == keys[0] || Lt(t, keys[0])) && i < |keys|
    ensures t in keys[..i + 1] || Lt(t, keys[i])
  {
    hide Get, Lt;
    if i > 0 {
      RunBackPasses(head, keys, t, i - 1);
      assert Final(head, Smaller(keys[i - 1]), keys[i - 1 + 1]);
      assert keys[..i + 1] == keys[..i] + [keys[i]];
    }
  }

  /** A run backward visits the keys from its first one down, each once, in descending order. */
  lemma RunBackVisitsRest<V(!new)>(head: Node<V>, keys: seq<Str>)
    requires Form(head) && RunBack(head, keys)
    ensures forall t :: t in keys <==> IsKey(head, t) && (t == keys[0] || Lt(t, keys[0]))
    ensures forall i, j | 0 <= i < j < |keys| :: Lt(keys[j], keys[i])
  {
    hide Get, Lt;
    forall t ensures t in keys <==> IsKey(head, t) && (t == keys[0] || Lt(t, keys[0])) {
      if t in keys {
        var i :| 0 <= i < |keys| && keys[i] == t;
        RunDescends(head, keys, 0, i);
      }
      if IsKey(head, t) && (t == keys[0] || Lt(t, keys[0])) {
        RunBackPasses(head, keys, t, |keys| - 1);
        assert keys[..|keys|] == keys;
        assert !Smaller(keys[|keys| - 1])(t);
      }
    }
    forall i, j | 0 <= i < j < |keys| ensures Lt(keys[j], keys[i]) { RunDescends(head, keys, i, j); }
  }

  /** A seek upwards and steps forward visit exactly the keys asked for. */
  lemma SeekThenNext<V(!new)>(head: Node<V>, op: string, ele: Str, keys: seq<Str>)
    requires Form(head) && GoodOp(op) && Run(head, keys) && Reached(head, op, ele, false, keys[0])
    ensures op[0] == '>' ==> forall t :: t in keys <==> IsKey(head, t) && (Lt(ele, t) || (HasEq(op) && t == ele))
    ensures op[0] == '^' ==> forall t :: t in keys <==> IsKey(head, t)
    ensures forall i, j | 0 <= i < j < |keys| :: Lt(keys[i], keys[j])
  {
    hide Get, Lt;
    RunVisitsRest(head, keys);
    if op[0] == '>' {
      forall t | IsKey(head, t)
        ensures (t == keys[0] || Lt(keys[0], t)) <==> (Lt(ele, t) || (HasEq(op) && t == ele))
      {
        LtTotal(keys[0], t);
        if HasEq(op) && IsKey(head, ele) {
        } else if Lt(keys[0], t) {
          LtTrans(ele, keys[0], t);
        } else if Lt(ele, t) {
          assert Greater(ele)(t);
        }
      }
    } else if op[0] == '^' {
      forall t | IsKey(head, t) ensures t == keys[0] || Lt(keys[0], t) { assert Any()(t); }
    }
  }

  /** A seek downwards and steps backward visit exactly the keys asked for. */
  lemma SeekThenPrev<V(!new)>(head: Node<V>, op: string, ele: Str, keys: seq<Str>)
    requires Form(head) && GoodOp(op) && RunBack(head, keys) && Reached(head, op, ele, false, keys[0])
    ensures op[0] == '<' ==> forall t :: t in keys <==> IsKey(head, t) && (Lt(t, ele) || (HasEq(op) && t == ele))
    ensures op[0] == '$' ==> forall t :: t in keys <==> IsKey(head, t)
    ensures forall i, j | 0 <= i < j < |keys| :: Lt(keys[j], keys[i])
  {
    hide Get, Lt;
    RunBackVisitsRest(head, keys);
    if op[0] == '<' {
      forall t | IsKey(head, t)
        ensures (t == keys[0] || Lt(t, keys[0])) <==> (Lt(t, ele) || (HasEq(op) && t == ele))
      {
        LtTotal(keys[0], t);
        if HasEq(op) && IsKey(head, ele) {
        } else if Lt(t, keys[0]) {
          LtTrans(t, keys[0], ele);
        } else if Lt(t, ele) {
          assert Smaller(ele)(t);
        }
      }
    } else if op[0] == '$' {
      forall t | IsKey(head, t) ensures t == keys[0] || Lt(t, keys[0]) { assert Any()(t); }
    }
  }
}
