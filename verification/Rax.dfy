/** The compressed radix tree of src/tree/rax.c, against the map from byte strings it stands for.

    Nodes are values.  A path (`Ctx`) stands for the parent links, and for the stack of parents that
    removal keeps; writing through the parent link of a node is filling the hole of its path. */
module Rax {
  import opened Bytes
  import opened Options
  import opened RaxNodes
  import opened RaxEdits
  import opened RaxTight

  const RAX_NODE_MAX_SIZE: nat := 0x1FFF_FFFF

  /** Where a walk for `s` has ended: at node `h` behind `i` bytes, the last `sp` of them inside it. */
  ghost predicate Walked<V>(head: Node<V>, s: Str, i: nat, k: Ctx<V>, h: Node<V>, sp: nat) {
    && PathShape(k) && HoleShape(k, h) && Plug(k, h) == head && PathForm(k)
    && i <= |s| && (if h.compr then sp < |h.data| else sp == 0)
    && Route(k) + h.data[..sp] == s[..i]
    && (i < |s| ==> if h.compr then s[i] != h.data[sp] else s[i] !in h.data)
  }

  /** The key is there exactly when the walk used it up at the start of a node that is a key. */
  lemma WalkGet<V>(head: Node<V>, s: Str, i: nat, k: Ctx<V>, h: Node<V>, sp: nat)
    requires Walked(head, s, i, k, h, sp)
    ensures Form(head) && Get(head, s) == if i == |s| && sp == 0 then h.val else None
  {
    HoleIsForm(k, h);
    ShapeRoot(k, h);
    ShapeIsForm(h);
    assert s[..i] == Route(k) + h.data[..sp];
    RoutePrefix(Route(k), h.data[..sp], s, i);
    RouteGet(k, h, s);
    StoppedGet(h, s[|Route(k)|..], sp, i - |Route(k)|);
  }

  lemma ShapeRoot<V>(k: Ctx<V>, h: Node<V>)
    requires HoleShape(k, h)
    ensures RootShape(h)
  {
  }

  lemma RoutePrefix(r: Str, d: Str, s: Str, i: nat)
    requires i <= |s| && r + d == s[..i]
    ensures r <= s && i == |r| + |d| && d <= s[|r|..]
  {
    assert s[..|r|] == s[..i][..|r|] == r;
    assert s[|r|..][..|d|] == s[..i][|r|..] == d;
  }

  /** A lookup that stops inside a node. */
  lemma StoppedGet<V>(h: Node<V>, t: Str, sp: nat, n: nat)
    requires Form(h) && n == sp <= |t| && (if h.compr then sp < |h.data| else sp == 0) && h.data[..sp] == t[..sp]
    requires n < |t| ==> if h.compr then t[n] != h.data[sp] else t[n] !in h.data
    ensures Get(h, t) == if n == |t| && sp == 0 then h.val else None
  {
    if t != [] {
      if h.compr {
      } else {
        NotAnEdge(h.data, t[0]);
      }
    }
  }

  /** The walk of a key stops where the conditions for links that stay say. */
  lemma WalkedStop<V>(head: Node<V>, s: Str, i: nat, k: Ctx<V>, h: Node<V>, sp: nat)
    requires Walked(head, s, i, k, h, sp)
    ensures Form(head) && Formed(h) && PathShape(k)
    ensures StrandedByRemoval(head, s) <==>
              i == |s| && sp == 0 && h.val.Some? && h.compr && (LinkAbove(k) || IsLink(h.kids[0]))
    ensures StrandedBySplit(head, s) <==> i < |s| && h.compr && h.val.Some? && IsLink(h.kids[0]) && sp + 1 < |h.data|
  {
    hide Plug, PathShape, Shape, Stop, Route;
    HoleIsForm(k, h);
    RoutePrefix(Route(k), h.data[..sp], s, i);
    StopsAt(k, h, s, sp);
    if h.compr { LeavesBefore(h.data, s[|Route(k)|..], sp); }
  }

  /** Where two strings part. */
  lemma LeavesBefore(d: Str, t: Str, sp: nat)
    requires sp < |d| && sp <= |t| && d[..sp] == t[..sp] && (sp < |t| ==> t[sp] != d[sp])
    ensures !(t <= d) && !(d[..|d| - 1] <= t) <==> sp < |t| && sp + 1 < |d|
    ensures !(d <= t)
  {
    var e := d[..|d| - 1];
    if sp < |t| {
      assert !(t <= d) && !(d <= t);
      if sp < |e| { assert e[sp] == d[sp]; } else { assert e == d[..sp]; }
    } else {
      assert t == t[..sp];
    }
  }

  lemma NoLinkTight<V>(k: Ctx<V>, h: Node<V>)
    requires PathShape(k) && TightPath(k) && AllTight(h.kids) && !IsLink(h)
    ensures Tight(Plug(k, h))
  {
    PlugTight(k, h);
  }

  lemma PathAbove<V>(k: Ctx<V>)
    requires k.Down?
    ensures TightPath(k) ==> TightPath(k.up)
  {
  }

  lemma NoneAbove<V>(k: Ctx<V>)
    requires !(k.Down? && k.val == None && (k.compr || |k.data| == 1))
    ensures !LinkAbove(k)
  {
  }

  lemma LinkEnd<V>(h: Node<V>)
    requires IsLink(h) && AllTight(h.kids)
    ensures TightEnd(h)
  {
    if h.kids != [] {
      assert h.kids[0] in h.kids;
      EndOfTight(h.kids[0]);
    } else {
      assert Tight(h);
    }
  }

  lemma EndBelow<V>(h: Node<V>)
    requires IsLink(h) && |h.kids| == 1
    ensures TightEnd(h) == TightEnd(h.kids[0])
  {
  }

  class Rax<V(!new)> {
    var head: Node<V>
    var numele: nat
    var numnodes: nat
    ghost var M: map<Str, V>

    ghost predicate Valid()
      reads this
    {
      && RootShape(head) && Agrees(head, M)
      && numele == |M| && numnodes == Count(head)
      && forall s | s in M :: |s| <= RAX_NODE_MAX_SIZE
    }

    constructor ()
      ensures Valid() && M == map[] && Tight(head)
    {
      head := Empty();
      numele := 0;
      numnodes := 1;
      M := map[];
      new;
      EmptyNode<V>();
    }

    /** Follow the key as far as the tree goes. */
    method LowWalk(s: Str) returns (i: nat, k: Ctx<V>, h: Node<V>, sp: nat)
      requires Valid()
      ensures Walked(head, s, i, k, h, sp)
    {
      hide Shape, Count, Agrees, Form, PathShape, HoleShape, Plug, Route, PathForm;
      h, k, i := head, Top, 0;
      var j := 0;
      WalkStart(head, s);
      while |h.data| != 0 && i < |s|
        invariant Walking(head, s, i, k, h) && j == 0
        decreases |s| - i
      {
        HoleIsForm(k, h);
        ghost var i0 := i;
        var stop;
        i, j, stop := Match(h, s, i);
        if stop {
          WalkStop(head, s, i0, i, k, h, j);
          return i, k, h, if h.compr then j else 0;
        }
        j := if h.compr then 0 else j;
        WalkStep(head, s, i0, i, k, h, j);
        k, h := Child(k, h, j), h.kids[j];
        j := 0;
      }
      sp := 0;
      WalkEnd(head, s, i, k, h);
    }

    /** Look a key up. */
    method Find(s: Str) returns (r: Option<V>)
      requires Valid()
      ensures r == if s in M then Some(M[s]) else None
    {
      hide Shape, Walked;
      var i, k, h, sp := LowWalk(s);
      WalkGet(head, s, i, k, h, sp);
      if i != |s| || (h.compr && sp != 0) || h.val == None {
        WalkedAt(head, s, i, k, h, sp);
        return None;
      }
      WalkedAt(head, s, i, k, h, sp);
      return h.val;
    }

    /** Insert a key, or find the value it has and, with `overwrite`, replace it. */
    method Insert(s: Str, v: V, overwrite: bool) returns (inserted: bool, was: Option<V>)
      requires Valid() && |s| <= RAX_NODE_MAX_SIZE
      modifies this
      ensures Valid() && (inserted <==> s !in old(M))
      ensures M == if s !in old(M) || overwrite then old(M)[s := v] else old(M)
      ensures was == if s in old(M) then Some(old(M)[s]) else None
      ensures Form(old(head)) && (Tight(old(head)) ==> (Tight(head) <==> !StrandedBySplit(old(head), s)))
    {
      hide Shape, RootShape, Walked, Agrees, Count, Step, PathShape, HoleShape, Plug, Route, PathForm, Get,
           Tight, AllTight, TightPath, StrandedBySplit;
      var i, k, h, j := LowWalk(s);
      WalkGet(head, s, i, k, h, j);
      WalkedStop(head, s, i, k, h, j);
      WalkedAt(head, s, i, k, h, j);
      AgreesAt(head, M, s);
      ghost var k0, h0 := k, h;
      if i == |s| && (!h.compr || j == 0) {
        was := h.val;
        inserted := h.val == None;
        if inserted || overwrite {
          RouteWhole(Route(k), h.data, s);
          ValueSet(k, h, k, h, s, v, head, M, [], 0);
          ValuedTight(k, h, v);
          head := Plug(k, h.(val := Some(v)));
          M := M[s := v];
          if inserted { numele := numele + 1; }
        }
        return;
      }
      inserted, was := true, None;
      if h.compr && i == |s| {
        var next := h.kids[0];
        Trim(k, h, j);
        k, h := Down(k, h.val, j > 1, h.data[..j], [], []), Node(Some(v), |h.data| - j > 1, h.data[j..], [next]);
        numnodes := numnodes + 1;
        ValueSet(k0, h0, k, h.(val := None), s, v, head, M, h0.data[..j], 1);
        TrimTight(k0, h0, j, v);
        head := Plug(k, h);
        numele := numele + 1;
        M := M[s := v];
        return;
      }
      var made := 0;
      ghost var bytes := [];
      if h.compr {
        bytes := h.data[..j];
        k, h, made := Split(k, h, j);
        SplitRoute(k0, h0, k, h, bytes, made, s, i);
      }
      ghost var (k1, h1) := (k, h);
      k, h, made, bytes := Extend(k0, h0, k, h, s, i, made, bytes);
      ValueSet(k0, h0, k, h, s, v, head, M, bytes, made);
      StepShapes(k0, h0, k, h, bytes, made);
      ExtendedTight(k0, h0, j, k1, h1, k, h, v);
      head := Plug(k, h.(val := Some(v)));
      if h.val == None { numele := numele + 1; }
      numnodes := numnodes + made;
      M := M[s := v];
    }

    /** Remove a key. */
    method Remove(s: Str) returns (was: Option<V>)
      requires Valid()
      modifies this
      ensures Valid() && M == old(M) - {s}
      ensures was == if s in old(M) then Some(old(M)[s]) else None
      ensures Form(old(head)) && (Tight(old(head)) ==> (Tight(head) <==> !StrandedByRemoval(old(head), s)))
    {
      hide Shape, RootShape, Walked, Agrees, Count, PathShape, HoleShape, Plug, Route, PathForm, Get, Dead, Same,
           Tight, AllTight, TightPath, StrandedByRemoval;
      var i, k, h, sp := LowWalk(s);
      WalkGet(head, s, i, k, h, sp);
      WalkedStop(head, s, i, k, h, sp);
      WalkedAt(head, s, i, k, h, sp);
      AgreesAt(head, M, s);
      if i != |s| || (h.compr && sp != 0) || h.val == None {
        assert M - {s} == M;
        return None;
      }
      was := h.val;
      RouteWhole(Route(k), h.data, s);
      KeyCleared(k, h, s, head, M);
      KeyTight(k, h);
      h := h.(val := None);
      numele := numele - 1;
      var freed;
      k, h, freed := Tidy(k, h, M - {s});
      PlugShape(k, h);
      numnodes := numnodes - freed;
      head := Plug(k, h);
      M := M - {s};
    }
  }

  /** Reclaim nodes after the key of `h0` is gone: prune upwards, then merge. */
  method Tidy<V(!new)>(k0: Ctx<V>, h0: Node<V>, ghost m: map<Str, V>) returns (k: Ctx<V>, h: Node<V>, freed: nat)
    requires PathShape(k0) && Formed(h0) && h0.val == None && (h0.data != [] ==> HoleShape(k0, h0))
    requires Agrees(Plug(k0, h0), m) && forall s | s in m :: |s| <= RAX_NODE_MAX_SIZE
    ensures PathShape(k) && HoleShape(k, h) && Agrees(Plug(k, h), m) && Count(Plug(k, h)) + freed == Count(Plug(k0, h0))
    ensures TightPath(k0) && AllTight(h0.kids) ==>
            (Tight(Plug(k, h)) <==> !(h0.compr && (LinkAbove(k0) || IsLink(h0.kids[0]))))
  {
    hide Shape, RootShape, Agrees, Count, PathShape, HoleShape, Plug, Get, Same, Tight, AllTight, TightPath;
    k, h, freed := k0, h0, 0;
    var trycompress := false;
    if |h.data| == 0 {
      k, h, freed, trycompress := Prune(k, h);
      if !trycompress && TightPath(k0) { NoLinkTight(k, h); }
    } else {
      NoChange(k, h);
      if |h.data| >= 2 && TightPath(k) && AllTight(h.kids) { ClearedTight(k, h); }
      trycompress := |h.data| == 1;
    }
    SameAgrees(Plug(k, h), Plug(k0, h0), m);
    if trycompress {
      ghost var head := Plug(k, h);
      var more;
      KeysShort(head, m);
      k, h, more := Recompress(k, h);
      SameAgrees(Plug(k, h), head, m);
      freed := freed + more;
    }
  }

  /** Merge a chain of nodes that are no keys and have one child each, src/tree/rax.c:1278-1357. */
  method Recompress<V(!new)>(k0: Ctx<V>, h0: Node<V>) returns (k: Ctx<V>, h: Node<V>, freed: nat)
    requires PathShape(k0) && HoleShape(k0, h0) && IsLink(h0) && |h0.data| > 0
    requires Form(Plug(k0, h0)) && forall t | Get(Plug(k0, h0), t).Some? :: |t| <= RAX_NODE_MAX_SIZE
    ensures PathShape(k) && HoleShape(k, h) && Same(Plug(k, h), Plug(k0, h0))
            && Count(Plug(k, h)) + freed == Count(Plug(k0, h0))
    ensures TightPath(k0) && AllTight(h0.kids) ==> Tight(Plug(k, h))
  {
    hide Shape, RootShape, Count, PathShape, HoleShape, Plug, Get, Same, Fill, Form, Tight, AllTight, TightPath,
         TightEnd, LinkAbove;
    k, h, freed := k0, h0, 0;
    ghost var tight := TightPath(k0) && AllTight(h0.kids);
    if tight { LinkEnd(h); }
    while k.Down? && k.val == None && (k.compr || |k.data| == 1)
      invariant PathShape(k) && HoleShape(k, h) && IsLink(h) && |h.data| > 0 && Plug(k, h) == Plug(k0, h0)
      invariant tight ==> TightPath(k) && TightEnd(h)
      decreases k
    {
      LinkUp(k, h);
      EndAbove(k, h);
      h, k := Fill(k, h), k.up;
    }
    NoneAbove(k);
    var start := h;
    var nodes := ChainLength(k, h);
    if nodes > 1 {
      h, freed := MergeChain(k, start);
    } else {
      NoChange(k, h);
      ChainStart(k, h);
      if tight {
        EndBelow(start);
        MergedTight(k, h);
      }
    }
  }

  /** The number of nodes in a chain of links from `start` on. */
  method ChainLength<V(!new)>(ghost k: Ctx<V>, start: Node<V>) returns (nodes: nat)
    requires PathShape(k) && HoleShape(k, start) && IsLink(start) && |start.data| > 0
    requires Form(Plug(k, start)) && forall t | Get(Plug(k, start), t).Some? :: |t| <= RAX_NODE_MAX_SIZE
    ensures nodes >= 1 && |start.kids| == 1 && (nodes > 1 <==> IsLink(start.kids[0]))
  {
    hide Shape, RootShape, Count, PathShape, HoleShape, Plug, Get, Same, Form;
    var comprsize, cur := |start.data|, start;
    nodes := 1;
    ghost var bytes := start.data;
    ChainStart(k, start);
    while |cur.data| != 0
      invariant Linking(start, bytes, cur, nodes) && |bytes| == comprsize && comprsize >= nodes >= 1
      invariant if nodes > 1 then IsLink(start.kids[0]) else cur == start
      decreases Count(cur)
    {
      var next := cur.kids[|cur.kids| - 1];
      LinkingNext(start, bytes, cur, nodes);
      cur := next;
      if cur.val.Some? || (!cur.compr && |cur.data| != 1) {
        break;
      }
      ShortEnough(k, start, bytes, cur, RAX_NODE_MAX_SIZE);
      if comprsize + |cur.data| > RAX_NODE_MAX_SIZE {
        break;
      }
      ChainLonger(start, bytes, cur, nodes);
      ShapeFormed(cur);
      LinkIsChain(cur);
      bytes := bytes + cur.data;
      nodes := nodes + 1;
      comprsize := comprsize + |cur.data|;
    }
  }

  /** One node for the whole chain. */
  method MergeChain<V(!new)>(ghost k: Ctx<V>, start: Node<V>) returns (h: Node<V>, freed: nat)
    requires PathShape(k) && HoleShape(k, start) && IsLink(start) && |start.data| > 0 && |start.kids| == 1
             && IsLink(start.kids[0])
    ensures HoleShape(k, h) && Same(Plug(k, h), Plug(k, start)) && Count(Plug(k, h)) + freed == Count(Plug(k, start))
    ensures TightPath(k) && TightEnd(start) && !LinkAbove(k) ==> Tight(Plug(k, h))
  {
    hide Shape, RootShape, Count, PathShape, HoleShape, Plug, Get, Same, Form, Tight, TightPath, TightEnd, LinkAbove;
    var data, deleted, cur := [], 0, start;
    ChainStart(k, start);
    while |cur.data| != 0
      invariant Merging(start, data, cur, deleted) && (deleted == 0 || IsLink(cur))
      invariant |cur.data| != 0 && TightEnd(cur) == TightEnd(start)
      decreases Count(cur)
    {
      MergeNext(start, data, cur, deleted);
      EndBelow(cur);
      data := data + cur.data;
      cur := cur.kids[|cur.kids| - 1];
      deleted := deleted + 1;
      if cur.val.Some? || (!cur.compr && |cur.data| != 1) {
        break;
      }
      ShapeFormed(cur);
      LinkIsChain(cur);
    }
    Merged(k, start, data, cur, deleted);
    h := Node(None, true, data, [cur]);
    freed := deleted - 1;
    if TightPath(k) && TightEnd(start) && !LinkAbove(k) { MergedTight(k, h); }
  }

  /** The bytes of the first `deleted` nodes of a chain are collected; `cur` is next. */
  ghost predicate Merging<V(!new)>(start: Node<V>, data: Str, cur: Node<V>, deleted: nat) {
    && |start.kids| == 1 && Formed(start) && start.data != [] && Shape(start.kids[0]) && start.val == None
    && if deleted == 0 then cur == start && data == []
       else
         && |data| >= deleted && Shape(cur) && Same(start, Chain(None, data, cur))
            && Count(start) == deleted + Count(cur)
         && (deleted == 1 ==> cur == start.kids[0])
  }

  lemma MergeNext<V(!new)>(start: Node<V>, data: Str, cur: Node<V>, deleted: nat)
    requires Merging(start, data, cur, deleted) && (deleted == 0 || IsLink(cur)) && IsLink(start)
    ensures |cur.kids| == 1 && Merging(start, data + cur.data, cur.kids[0], deleted + 1)
    ensures Count(cur.kids[0]) < Count(cur)
  {
    hide Get, Shape, Form;
    if deleted == 0 {
      LinkIsChain(start);
      ShapeIsForm(start);
      ChainCount(None, start.data, start.kids[0]);
      assert [] + start.data == start.data;
    } else {
      ChainLonger(start, data, cur, deleted);
      ShapeFormed(cur);
      LinkIsChain(cur);
      ChainCount(cur.val, cur.data, cur.kids[0]);
    }
  }

  lemma ShapeFormed<V>(n: Node<V>)
    requires Shape(n)
    ensures Formed(n)
  {
  }

  lemma Merged<V(!new)>(k: Ctx<V>, start: Node<V>, data: Str, cur: Node<V>, deleted: nat)
    requires PathShape(k) && Merging(start, data, cur, deleted) && deleted > 0 && !IsLink(cur) && IsLink(start.kids[0])
    ensures var h := Node(None, true, data, [cur]);
            HoleShape(k, h) && Same(Plug(k, h), Plug(k, start))
              && Count(Plug(k, h)) + (deleted - 1) == Count(Plug(k, start))
  {
    hide Plug, Get;
    var h := Node(None, true, data, [cur]);
    assert h == Chain(None, data, cur);
    ChainShape(data, cur);
    ChainCount(None, data, cur);
    PathIsForm(k);
    SameChain(start, h, h);
    SamePlug(k, h, start);
    PlugCount(k, h);
    PlugCount(k, start);
  }

  lemma NoChange<V(!new)>(k: Ctx<V>, h: Node<V>)
    requires PathShape(k) && HoleShape(k, h)
    ensures Same(Plug(k, h), Plug(k, h))
  {
    HoleIsForm(k, h);
    PathIsForm(k);
    PlugForm(k, h);
  }

  lemma LinkUp<V>(k: Ctx<V>, h: Node<V>)
    requires PathShape(k) && HoleShape(k, h) && k.Down? && k.val == None && (k.compr || |k.data| == 1)
    ensures PathShape(k.up) && HoleShape(k.up, Fill(k, h)) && IsLink(Fill(k, h)) && |Fill(k, h).data| > 0
    ensures Plug(k.up, Fill(k, h)) == Plug(k, h) && LinkAbove(k) && (TightPath(k) ==> TightPath(k.up))
  {
    FillShape(k, h);
  }

  lemma ChainStart<V(!new)>(k: Ctx<V>, h: Node<V>)
    requires HoleShape(k, h) && IsLink(h) && |h.data| > 0
    ensures Linking(h, h.data, h, 1) && Formed(h) && Shape(h.kids[0])
  {
    HoleIsForm(k, h);
    LinkIsChain(h);
    assert h.kids[0] in h.kids;
    ChainCount(h.val, h.data, h.kids[0]);
  }

  lemma LinkingNext<V(!new)>(start: Node<V>, bytes: Str, cur: Node<V>, nodes: nat)
    requires Linking(start, bytes, cur, nodes)
    ensures Count(cur.kids[0]) < Count(cur)
  {
    assert cur.kids == [cur.kids[0]];
    CountOne(cur.kids[0]);
  }

  /** A chain is not longer than the keys that run through it. */
  lemma ShortEnough<V(!new)>(k: Ctx<V>, start: Node<V>, bytes: Str, c: Node<V>, limit: nat)
    requires PathShape(k) && Shape(c) && IsLink(c) && Same(start, Chain(None, bytes, c)) && bytes != []
    requires Form(Plug(k, start)) && forall t | Get(Plug(k, start), t).Some? :: |t| <= limit
    ensures |bytes| + |c.data| <= limit
  {
    hide Plug, Form, Shape;
    var s := SomeKey(c);
    PathIsForm(k);
    ChainGet(None, bytes, c, bytes + s);
    assert (bytes + s)[|bytes|..] == s;
    var t := Route(k) + (bytes + s);
    assert t[|Route(k)|..] == bytes + s;
    RouteGet(k, start, t);
    assert Get(Plug(k, start), t).Some?;
  }

  lemma KeysShort<V(!new)>(n: Node<V>, m: map<Str, V>)
    requires Agrees(n, m) && forall s | s in m :: |s| <= RAX_NODE_MAX_SIZE
    ensures Form(n) && forall t | Get(n, t).Some? :: |t| <= RAX_NODE_MAX_SIZE
  {
  }

  lemma SameAgrees<V(!new)>(n: Node<V>, n0: Node<V>, m: map<Str, V>)
    requires Same(n, n0) && Agrees(n0, m)
    ensures Agrees(n, m)
  {
    forall s ensures (s in m <==> Get(n, s).Some?) && (s in m ==> Get(n, s) == Some(m[s])) {
      AgreesAt(n0, m, s);
    }
  }

  /** The chain from `start` to `cur` is `bytes` long and ends in a link; its child is next. */
  ghost predicate Linking<V(!new)>(start: Node<V>, bytes: Str, cur: Node<V>, nodes: nat) {
    && |start.kids| == 1 && |cur.kids| == 1 && cur.data != [] && bytes != [] && Shape(cur.kids[0])
    && Same(start, Chain(None, bytes, cur.kids[0])) && Count(start) == nodes + Count(cur.kids[0])
  }

  /** Free the nodes that lead nowhere any more, src/tree/rax.c:1189-1224: upwards from the empty
      node `h0` to the first parent that is a key or has other children. */
  method Prune<V(!new)>(k0: Ctx<V>, h0: Node<V>) returns (k: Ctx<V>, h: Node<V>, freed: nat, trycompress: bool)
    requires PathShape(k0) && Formed(h0) && h0.data == [] && h0.val == None
    ensures PathShape(k) && HoleShape(k, h) && Same(Plug(k, h), Plug(k0, h0))
            && Count(Plug(k, h)) + freed == Count(Plug(k0, h0))
    ensures trycompress ==> IsLink(h) && |h.data| > 0
    ensures TightPath(k0) ==> TightPath(k) && AllTight(h.kids) && (trycompress || !IsLink(h))
  {
    hide Shape, RootShape, Count, PathShape, HoleShape, Plug, Get, Dead, Same, Fill, AllTight, TightPath;
    k, h, freed, trycompress := k0, h0, 0, false;
    LeafDead(h);
    var child: Option<nat> := None;
    ghost var f, c := k, h;
    while k.Down?
      invariant PathShape(k) && Plug(k, h) == Plug(k0, h0) && Dead(h) && Count(h) == freed + 1
      invariant child == None ==> k == k0 && h == h0 && freed == 0
      invariant TightPath(k0) ==> TightPath(k) && (child.Some? ==> TightPath(f))
      invariant child.Some? ==> Pruned(k, h, f, c, child.value) && Count(c) == freed
      decreases k
    {
      f, c := k, h;
      PopParent(k, h);
      PathAbove(k);
      freed := freed + 1;
      child := Some(|k.left|);
      var stop := k.val.Some? || (!k.compr && |k.data| != 1);
      if !stop { DeadParent(k, h); }
      h, k := Fill(k, h), k.up;
      if stop {
        break;
      }
    }
    if child.Some? {
      DropDone(k, h, f, c);
      if TightPath(f) { DropTight(k, h, f, c); }
      h := DropChild(h, child.value);
      trycompress := |h.data| == 1 && h.val == None;
    } else {
      TopDone(h);
      NoKids(h);
    }
  }

  /** The node `h` has just lost its child `c` behind the parent frame `f`. */
  ghost predicate Pruned<V(!new)>(k: Ctx<V>, h: Node<V>, f: Ctx<V>, c: Node<V>, i: nat) {
    f.Down? && PathShape(f) && f.up == k && h == Fill(f, c) && i == |f.left| && Dead(c)
  }

  lemma PopParent<V(!new)>(k: Ctx<V>, h: Node<V>)
    requires PathShape(k) && k.Down?
    ensures PathShape(k.up) && Plug(k.up, Fill(k, h)) == Plug(k, h)
  {
  }

  lemma TopDone<V(!new)>(h: Node<V>)
    requires Formed(h) && h.data == []
    ensures HoleShape(Top, h) && Same(Plug(Top, h), Plug(Top, h))
  {
    assert h.kids == [];
    ShapeIsForm(h);
  }

  lemma DropDone<V(!new)>(k: Ctx<V>, h: Node<V>, f: Ctx<V>, c: Node<V>)
    requires f.Down? && Pruned(k, h, f, c, |f.left|) && PathShape(k)
    requires k.Top? || f.val.Some? || (!f.compr && |f.data| != 1)
    ensures |f.left| < |h.kids| && (!h.compr ==> |h.data| == |h.kids|)
    ensures var g := DropChild(h, |f.left|);
            && HoleShape(k, g) && Same(Plug(k, g), Plug(k, h)) && Count(Plug(k, g)) + Count(c) == Count(Plug(k, h))
  {
    hide Get, Plug, Shape;
    var g := DropChild(h, |f.left|);
    DropForm(f, c);
    DropShape(f, c);
    forall s ensures Get(g, s) == Get(h, s) { DropGet(f, c, s); }
    PathIsForm(k);
    SamePlug(k, g, h);
    PlugCount(k, g);
    PlugCount(k, h);
  }

  lemma DropTight<V(!new)>(k: Ctx<V>, h: Node<V>, f: Ctx<V>, c: Node<V>)
    requires f.Down? && Pruned(k, h, f, c, |f.left|) && TightPath(f)
    ensures |f.left| < |h.kids| && (!h.compr ==> |h.data| == |h.kids|)
    ensures TightPath(k) && AllTight(DropChild(h, |f.left|).kids) && !DropChild(h, |f.left|).compr
  {
    DroppedTight(k, f, c);
  }

  lemma NoKids<V>(h: Node<V>)
    requires Formed(h) && h.data == []
    ensures AllTight(h.kids) && !IsLink(h)
  {
  }

  /** The value of a key taken away, before any node is. */
  lemma KeyCleared<V(!new)>(k: Ctx<V>, h: Node<V>, s: Str, head: Node<V>, m: map<Str, V>)
    requires PathShape(k) && RootShape(h) && PathForm(k) && Route(k) == s && Plug(k, h) == head
    requires Agrees(head, m) && s in m
    ensures var n := h.(val := None);
            && Formed(n) && Agrees(Plug(k, n), m - {s}) && |m - {s}| == |m| - 1
            && Count(Plug(k, n)) == Count(head) && (n.data != [] ==> HoleShape(k, n))
  {
    hide Plug, PathShape, Route, Get;
    var n := h.(val := None);
    ShapeIsForm(h);
    PlugCount(k, n);
    PlugCount(k, h);
    SetGet(k, h, None, s);
    forall t ensures (t in m - {s} <==> Get(Plug(k, n), t).Some?)
      && (t in m - {s} ==> Get(Plug(k, n), t) == Some((m - {s})[t])) {
      SetGet(k, h, None, t);
      AgreesAt(head, m, t);
    }
    assert (m - {s}).Keys == m.Keys - {s};
  }

  /** Split a compressed node at byte `j`, src/tree/rax.c:817-923.  Returns the node with the one
      edge `data[j]`, its path, and the number of nodes made. */
  method Split<V(!new)>(k0: Ctx<V>, h0: Node<V>, j: nat) returns (k: Ctx<V>, h: Node<V>, made: nat)
    requires PathShape(k0) && HoleShape(k0, h0) && h0.compr && j < |h0.data| && |h0.kids| == 1
    ensures Step(k0, h0, k, h, h0.data[..j], made)
    ensures !h.compr && h.data == [h0.data[j]] && |h.kids| == 1 && h.val == if j == 0 then h0.val else None
    ensures Tight(Plug(k0, h0)) ==>
            TightPath(k) && (AllTight(h.kids) <==> !(h0.val.Some? && IsLink(h0.kids[0]) && j + 1 < |h0.data|))
  {
    hide Shape, Step, PathShape, HoleShape, Tight, TightPath, Plug;
    SplitNode(k0, h0, j);
    if Tight(Plug(k0, h0)) { SplitTight(k0, h0, j); }
    k, made := k0, 0;
    var postfix := h0.kids[0];
    var postfixlen := |h0.data| - j - 1;
    if postfixlen != 0 {
      postfix := Node(None, postfixlen > 1, h0.data[j + 1..], [postfix]);
      made := made + 1;
    }
    if j == 0 {
      h := Node(h0.val, false, [h0.data[j]], [postfix]);
    } else {
      h := Node(None, false, [h0.data[j]], [postfix]);
      k := Down(k, h0.val, j > 1, h0.data[..j], [], []);
      made := made + 1;
    }
  }

  /** Add the missing nodes for the rest of the key, src/tree/rax.c:987-1018. */
  method Extend<V(!new)>(ghost k0: Ctx<V>, ghost h0: Node<V>, k1: Ctx<V>, h1: Node<V>, s: Str, i1: nat, made1: nat,
                  ghost bytes1: Str)
    returns (k: Ctx<V>, h: Node<V>, made: nat, ghost bytes: Str)
    requires Step(k0, h0, k1, h1, bytes1, made1) && i1 <= |s| && PathForm(k1) && Route(k1) == s[..i1]
    requires i1 < |s| ==> !h1.compr && s[i1] !in h1.data && |h1.data| == |h1.kids|
    ensures Step(k0, h0, k, h, bytes, made) && PathForm(k) && Route(k) == s
    ensures h == h1 || h == Empty()
    ensures i1 < |s| ==> h == Empty()
    ensures i1 < |s| <= RAX_NODE_MAX_SIZE && TightPath(k1) && (IsEmpty(h1) ==> !LinkAbove(k1)) ==>
            (TightPath(k) <==> AllTight(h1.kids))
  {
    hide Shape, RootShape, Count, Step, PathShape, HoleShape, Plug, Route, PathForm, TightPath, AllTight;
    k, h, made, bytes := k1, h1, made1, bytes1;
    var i := i1;
    while i < |s|
      invariant i1 <= i <= |s| && Step(k0, h0, k, h, bytes, made) && PathForm(k) && Route(k) == s[..i]
      invariant i < |s| ==> !h.compr && s[i] !in h.data && |h.data| == |h.kids|
      invariant if i == i1 then h == h1 && k == k1 else h == Empty()
      invariant i1 < i && |s| <= RAX_NODE_MAX_SIZE && TightPath(k1) && (IsEmpty(h1) ==> !LinkAbove(k1)) ==>
                  (TightPath(k) <==> AllTight(h1.kids)) && (i < |s| ==> !LinkAbove(k))
    {
      StepShapes(k0, h0, k, h, bytes, made);
      ghost var kk, hh, b := k, h, [];
      var n := 1;
      if |h.data| == 0 && |s| - i > 1 {
        n := |s| - i;
        if n > RAX_NODE_MAX_SIZE {
          n := RAX_NODE_MAX_SIZE;
        }
        b := s[i..i + n];
        Compress(k, h, s[i..i + n]);
        CompressedTight(k, h, s[i..i + n]);
        k := Down(k, h.val, true, s[i..i + n], [], []);
      } else {
        assert s[i..i + 1] == [s[i]];
        b := [s[i]];
        AddEdge(k, h, s[i]);
        EdgeTightIf(k, h, s[i]);
        k := NewEdge(k, h, s[i]);
      }
      h := Empty();
      StepsJoin(k0, h0, kk, hh, k, h, bytes, b, made, 1);
      StepRoute(kk, hh, k, h, s, i, n);
      bytes := bytes + b;
      made := made + 1;
      i := i + n;
    }
    assert s[..|s|] == s;
  }

  /** No key, and no children. */
  predicate IsEmpty<V>(h: Node<V>) {
    h.data == [] && h.val.None?
  }

  lemma CompressedTight<V>(k: Ctx<V>, h: Node<V>, bytes: Str)
    requires h.kids == [] && !h.compr
    ensures AllTight(h.kids)
    ensures (IsEmpty(h) ==> !LinkAbove(k)) && h.data == [] ==>
            (TightPath(Down(k, h.val, true, bytes, [], [])) <==> TightPath(k))
  {
  }

  lemma EdgeTightIf<V>(k: Ctx<V>, h: Node<V>, c: Byte)
    requires !h.compr && |h.data| == |h.kids|
    ensures TightPath(k) && (IsEmpty(h) ==> !LinkAbove(k)) ==> (TightPath(NewEdge(k, h, c)) <==> AllTight(h.kids))
    ensures h.data != [] ==> !LinkAbove(NewEdge(k, h, c))
    ensures !TightPath(k) ==> !TightPath(NewEdge(k, h, c))
    ensures h.kids == [] ==> AllTight(h.kids)
  {
    if TightPath(k) && (IsEmpty(h) ==> !LinkAbove(k)) { EdgeTight(k, h, c); }
  }

  /** Links in the two parts of a split node, and below it. */
  lemma SplitTight<V>(k: Ctx<V>, h: Node<V>, j: nat)
    requires PathShape(k) && HoleShape(k, h) && Tight(Plug(k, h)) && h.compr && j < |h.data| && |h.kids| == 1
    ensures var postfix := if |h.data| - j - 1 != 0 then Node(None, |h.data| - j - 1 > 1, h.data[j + 1..], [h.kids[0]])
            else h.kids[0];
            && TightPath(if j == 0 then k else Down(k, h.val, j > 1, h.data[..j], [], []))
            && (AllTight([postfix]) <==> !(h.val.Some? && IsLink(h.kids[0]) && j + 1 < |h.data|))
  {
    HoleIsForm(k, h);
    PlugTight(k, h);
    if j > 0 { CutTight(k, h, j); }
    if j + 1 < |h.data| { RestTight(k, h, j); }
    assert h.kids[0] in h.kids;
  }

  lemma TrimTight<V>(k: Ctx<V>, h: Node<V>, j: nat, v: V)
    requires PathShape(k) && HoleShape(k, h) && h.compr && 0 < j < |h.data| && |h.kids| == 1
    ensures Tight(Plug(k, h)) ==> Tight(Plug(Down(k, h.val, j > 1, h.data[..j], [], []),
            Node(Some(v), |h.data| - j > 1, h.data[j..], [h.kids[0]])))
  {
    if Tight(Plug(k, h)) {
      HoleIsForm(k, h);
      CutTight(k, h, j);
      TrimPath(k, h, j);
      assert h.kids == [h.kids[0]];
      KeyTight(Down(k, h.val, j > 1, h.data[..j], [], []), Node(Some(v), |h.data| - j > 1, h.data[j..], [h.kids[0]]));
    }
  }

  lemma ValuedTight<V>(k: Ctx<V>, h: Node<V>, v: V)
    requires PathShape(k)
    ensures Tight(Plug(k, h)) ==> Tight(Plug(k, h.(val := Some(v))))
  {
    PlugTight(k, h);
    KeyTight(k, h.(val := Some(v)));
  }

  /** After an insertion into a tight tree: links are left exactly behind a split. */
  lemma ExtendedTight<V>(k0: Ctx<V>, h0: Node<V>, j: nat, k1: Ctx<V>, h1: Node<V>, k: Ctx<V>, h: Node<V>, v: V)
    requires PathShape(k0) && HoleShape(k0, h0) && PathShape(k) && h == Empty()
    requires if h0.compr then |h0.kids| == 1 && j < |h0.data| && h1.data != [] else k1 == k0 && h1 == h0
    requires h0.compr && Tight(Plug(k0, h0)) ==>
               TightPath(k1) && (AllTight(h1.kids) <==> !(h0.val.Some? && IsLink(h0.kids[0]) && j + 1 < |h0.data|))
    requires TightPath(k1) && (IsEmpty(h1) ==> !LinkAbove(k1)) ==> (TightPath(k) <==> AllTight(h1.kids))
    ensures Tight(Plug(k0, h0)) ==>
              (Tight(Plug(k, h.(val := Some(v)))) <==>
                !(h0.compr && h0.val.Some? && IsLink(h0.kids[0]) && j + 1 < |h0.data|))
  {
    HoleIsForm(k0, h0);
    PlugTight(k0, h0);
    KeyTight(k, h.(val := Some(v)));
  }

  lemma SplitRoute<V(!new)>(k0: Ctx<V>, h0: Node<V>, k: Ctx<V>, h: Node<V>, bytes: Str, made: nat, s: Str, i: nat)
    requires Step(k0, h0, k, h, bytes, made) && i <= |s| && Route(k0) + bytes == s[..i]
    ensures PathForm(k) && Route(k) == s[..i]
  {
  }

  /** Compare the key with one node: `i` bytes of the key and `j` of the node are used up. */
  method Match<V>(h: Node<V>, s: Str, i0: nat) returns (i: nat, j: nat, stop: bool)
    requires i0 < |s| && h.data != []
    ensures i0 <= i <= |s| && j <= |h.data|
    ensures h.compr ==> i == i0 + j && h.data[..j] == s[i0..i] && (stop <==> j != |h.data|)
    ensures h.compr && stop && i < |s| ==> s[i] != h.data[j]
    ensures !h.compr && stop ==> i == i0 && s[i0] !in h.data
    ensures !h.compr && !stop ==> i == i0 + 1 && j < |h.data| && h.data[j] == s[i0]
  {
    i, j := i0, 0;
    if h.compr {
      while j < |h.data| && i < |s| && h.data[j] == s[i]
        invariant 0 <= j <= |h.data| && i0 <= i <= |s| && i == i0 + j && h.data[..j] == s[i0..i]
      {
        i, j := i + 1, j + 1;
      }
      stop := j != |h.data|;
    } else {
      while j < |h.data| && h.data[j] != s[i]
        invariant 0 <= j <= |h.data| && s[i] !in h.data[..j]
      {
        assert h.data[..j + 1] == h.data[..j] + [h.data[j]];
        j := j + 1;
      }
      stop := j == |h.data|;
      if stop {
        assert h.data[..j] == h.data;
      } else {
        i := i + 1;
      }
    }
  }

  ghost predicate Walking<V>(head: Node<V>, s: Str, i: nat, k: Ctx<V>, h: Node<V>) {
    && i <= |s| && PathShape(k) && HoleShape(k, h) && Plug(k, h) == head && PathForm(k) && Route(k) == s[..i]
  }

  lemma WalkStart<V>(head: Node<V>, s: Str)
    requires RootShape(head)
    ensures Walking(head, s, 0, Top, head)
  {
  }

  lemma WalkStep<V>(head: Node<V>, s: Str, i0: nat, i: nat, k: Ctx<V>, h: Node<V>, j: nat)
    requires Walking(head, s, i0, k, h) && i0 <= i <= |s| && j < |h.kids|
    requires if h.compr then i == i0 + |h.data| && h.data == s[i0..i]
             else i == i0 + 1 && j < |h.data| && h.data[j] == s[i0]
    ensures Walking(head, s, i, Child(k, h, j), h.kids[j])
  {
    hide PathShape, HoleShape, Plug, Route, PathForm, Shape;
    ChildStep(k, h, j);
    assert s[..i] == s[..i0] + s[i0..i];
    ChildHole(k, h, j);
  }

  lemma ChildHole<V>(k: Ctx<V>, h: Node<V>, j: nat)
    requires j < |h.kids| && Shape(h.kids[j])
    ensures HoleShape(Child(k, h, j), h.kids[j])
  {
  }

  lemma WalkStop<V>(head: Node<V>, s: Str, i0: nat, i: nat, k: Ctx<V>, h: Node<V>, j: nat)
    requires Walking(head, s, i0, k, h) && i0 <= i <= |s| && i0 < |s| && j <= |h.data|
    requires h.compr ==> i == i0 + j && j < |h.data| && h.data[..j] == s[i0..i] && (i < |s| ==> s[i] != h.data[j])
    requires !h.compr ==> i == i0 && s[i0] !in h.data
    ensures Walked(head, s, i, k, h, if h.compr then j else 0)
  {
    hide PathShape, HoleShape, Plug, Route, PathForm, Shape;
    assert s[..i] == s[..i0] + s[i0..i];
    assert h.data[..0] == [];
  }

  lemma WalkEnd<V>(head: Node<V>, s: Str, i: nat, k: Ctx<V>, h: Node<V>)
    requires Walking(head, s, i, k, h) && (h.data == [] || i == |s|)
    ensures Walked(head, s, i, k, h, 0)
  {
    HoleIsForm(k, h);
    assert h.data[..0] == [];
  }

  lemma WalkedAt<V(!new)>(head: Node<V>, s: Str, i: nat, k: Ctx<V>, h: Node<V>, sp: nat)
    requires Walked(head, s, i, k, h, sp)
    ensures PathShape(k) && HoleShape(k, h) && RootShape(h) && Plug(k, h) == head && i <= |s| && PathForm(k)
    ensures if h.compr then sp < |h.data| && |h.kids| == 1 else sp == 0 && |h.data| == |h.kids|
    ensures Route(k) + h.data[..sp] == s[..i]
    ensures i < |s| ==> if h.compr then s[i] != h.data[sp] else s[i] !in h.data
    ensures Step(k, h, k, h, [], 0)
  {
    HoleIsForm(k, h);
    NoStep(k, h);
  }

  lemma AgreesAt<V>(n: Node<V>, m: map<Str, V>, s: Str)
    requires Agrees(n, m)
    ensures Form(n) && (s in m <==> Get(n, s).Some?) && (s in m ==> Get(n, s) == Some(m[s]))
  {
  }

  /** The last write of an insertion: the value, at the end of the route of the key. */
  lemma ValueSet<V(!new)>(k0: Ctx<V>, h0: Node<V>, k: Ctx<V>, h: Node<V>, s: Str, v: V,
                          head: Node<V>, m: map<Str, V>, bytes: Str, nodes: nat)
    requires Step(k0, h0, k, h, bytes, nodes) && Route(k) == s
    requires Plug(k0, h0) == head && Agrees(head, m)
    ensures var n := Plug(k, h.(val := Some(v)));
            Agrees(n, m[s := v]) && RootShape(n) && Count(n) == Count(head) + nodes
    ensures |m[s := v]| == |m| + if s in m then 0 else 1
  {
    hide Shape, Plug, PathShape, Route, Get;
    var n := h.(val := Some(v));
    ShapeIsForm(h);
    ValuedShape(k, h, v);
    PlugShape(k, n);
    PlugCount(k, n);
    PlugCount(k, h);
    SetGet(k, h, Some(v), s);
    forall t ensures (t in m[s := v] <==> Get(Plug(k, n), t).Some?)
      && (t in m[s := v] ==> Get(Plug(k, n), t) == Some(m[s := v][t])) {
      SetGet(k, h, Some(v), t);
      AgreesAt(head, m, t);
      assert Get(Plug(k, h), t) == Get(head, t);
    }
  }

  lemma RouteWhole(r: Str, d: Str, s: Str)
    requires r + d[..0] == s[..|s|]
    ensures r == s
  {
  }

  lemma StepShapes<V(!new)>(k: Ctx<V>, n: Node<V>, k': Ctx<V>, n': Node<V>, bytes: Str, nodes: nat)
    requires Step(k, n, k', n', bytes, nodes)
    ensures PathShape(k') && RootShape(n') && PathForm(k')
  {
  }

  lemma StepRoute<V(!new)>(k: Ctx<V>, n: Node<V>, k': Ctx<V>, n': Node<V>, s: Str, i: nat, m: nat)
    requires i + m <= |s| && Step(k, n, k', n', s[i..i + m], 1) && Route(k) == s[..i]
    ensures PathForm(k') && Route(k') == s[..i + m]
  {
    hide PathShape, RootShape, Same, Plug, Count, PathForm, Route;
    assert s[..i] + s[i..i + m] == s[..i + m];
  }

  /** A compressed node split at byte `j`, which becomes the only edge of a node of its own. */
  lemma SplitNode<V(!new)>(k: Ctx<V>, h: Node<V>, j: nat)
    requires PathShape(k) && HoleShape(k, h) && h.compr && j < |h.data|
    ensures |h.kids| == 1
    ensures var postfix := if |h.data| - j - 1 != 0 then Chain(None, h.data[j + 1..], h.kids[0]) else h.kids[0];
            var k' := if j == 0 then k else Down(k, h.val, j > 1, h.data[..j], [], []);
            Step(k, h, k', Chain(if j == 0 then h.val else None, [h.data[j]], postfix), h.data[..j],
                 (if j == 0 then 0 else 1) + (if |h.data| - j - 1 != 0 then 1 else 0))
  {
    hide Shape, Plug, Route, Count, Step;
    HoleIsForm(k, h);
    var (b, c) := (h.data[j..], h.kids[0]);
    assert c in h.kids;
    assert b[..1] == [h.data[j]] && b[1..] == h.data[j + 1..];
    if j == 0 {
      assert b == h.data && h == Chain(h.val, b, c) && h.data[..0] == [];
      FirstByte(k, h.val, b, c);
    } else {
      var k' := Down(k, h.val, j > 1, h.data[..j], [], []);
      Trim(k, h, j);
      TrimPath(k, h, j);
      if |b| > 1 {
        FirstByte(k', None, b, c);
        StepsJoin(k, h, k', Chain(None, b, c), k', Chain(None, b[..1], Chain(None, b[1..], c)), h.data[..j], [], 1, 1);
        assert h.data[..j] + [] == h.data[..j];
      } else {
        assert b == [h.data[j]];
      }
    }
  }

  lemma ValuedShape<V>(k: Ctx<V>, h: Node<V>, v: V)
    requires RootShape(h)
    ensures HoleShape(k, h.(val := Some(v)))
  {
  }

  ghost predicate Agrees<V>(n: Node<V>, m: map<Str, V>) {
    Form(n) && forall s :: (s in m <==> Get(n, s).Some?) && (s in m ==> Get(n, s) == Some(m[s]))
  }
}
