/** The skip list of src/list/skiplist.c.

    The ghost fields say what the nodes stand for: `path` holds the addresses in order with the
    header first, `h` the height of each node, and `items` the entries. */
module SkipList {
  import opened Options
  import opened SkipLevels
  import opened SkipCells

  /** The entries on the nodes. */
  ghost predicate Named(mem: Cells, path: seq<Ptr>, items: seq<Entry>) {
    && |path| == |items| + 1 && (forall j | 0 <= j < |path| :: path[j] in mem)
    && mem[path[0]].entry == None
    && forall j | 1 <= j < |path| :: mem[path[j]].entry == Some(items[j - 1])
  }

  /** The links back, which leave out the header. */
  ghost predicate Backs(mem: Cells, path: seq<Ptr>, tail: Ptr) {
    && |path| > 0 && (forall j | 0 <= j < |path| :: path[j] in mem)
    && (forall j | 1 <= j < |path| :: mem[path[j]].backward == if j == 1 then NULL else path[j - 1])
    && tail == if |path| == 1 then NULL else path[|path| - 1]
  }

  /** The heights in use: at most `level`, and nothing hangs off the header above it. */
  ghost predicate Heights(mem: Cells, h: seq<nat>, level: nat) {
    && 1 <= level <= ZSKIPLIST_MAXLEVEL
    && (forall j | 1 <= j < |h| :: 1 <= h[j] <= level)
    && HDR in mem && |mem[HDR].levels| == ZSKIPLIST_MAXLEVEL
    && forall l | level <= l < ZSKIPLIST_MAXLEVEL :: mem[HDR].levels[l].forward == NULL
  }

  /** The level is the height of the highest node, and 1 without nodes. */
  ghost predicate Reached(h: seq<nat>, level: nat) {
    level == 1 || exists j :: 1 <= j < |h| && h[j] == level
  }

  lemma ReachedMore(h: seq<nat>, p: nat, v: nat, level: nat)
    requires Reached(h, level) && p < |h|
    ensures Reached(Ins(h, p, v), if v > level then v else level)
  {
    var g := Ins(h, p, v);
    assert g[p + 1] == v;
    if v < level && level > 1 {
      var j :| 1 <= j < |h| && h[j] == level;
      assert g[if j <= p then j else j + 1] == level;
    }
  }

  /** A link from the header at the highest level leads to a node of that height. */
  lemma ReachedByHeader(mem: Cells, path: seq<Ptr>, h: seq<nat>, level: nat)
    requires Linked(mem, path, h, level) && Heights(mem, h, level) && Towers(mem, path, h) && 0 < |h|
    requires path[0] == HDR && h[0] == ZSKIPLIST_MAXLEVEL && mem[HDR].levels[level - 1].forward != NULL
    ensures Reached(h, level)
  {
    hide Next;
    assert RightLink(mem, path, h, 0, level - 1);
    var k := Next(h, 0, level - 1);
    assert k < |h| && h[k] > level - 1;
  }

  /** The last nodes up to place `p` at the levels from `i` on, and their places. */
  ghost predicate Marks(path: seq<Ptr>, h: seq<nat>, level: nat, update: seq<Ptr>, rank: seq<nat>, i: nat, p: nat) {
    && |path| == |h| && p < |h| && h[0] == ZSKIPLIST_MAXLEVEL && level <= ZSKIPLIST_MAXLEVEL
    && |update| == |rank| == ZSKIPLIST_MAXLEVEL
    && forall l | i <= l < level :: update[l] == path[Last(h, p, l)] && rank[l] == Last(h, p, l)
  }

  class SkipList {
    var mem: Cells
    var tail: Ptr
    var length: nat
    var level: nat
    ghost var path: seq<Ptr>
    ghost var h: seq<nat>
    ghost var items: seq<Entry>

    ghost predicate Valid()
      reads this
    {
      && Towers(mem, path, h) && Linked(mem, path, h, level) && Heights(mem, h, level)
      && Named(mem, path, items) && Backs(mem, path, tail)
      && length == |items| && Sorted(items) && Reached(h, level)
    }

    constructor ()
      ensures Valid() && items == []
    {
      var levels := seq(ZSKIPLIST_MAXLEVEL, _ => Level(NULL, 0));
      mem := map[HDR := SkipNode(None, NULL, levels)];
      tail, length, level := NULL, 0, 1;
      path, h, items := [HDR], [ZSKIPLIST_MAXLEVEL], [];
    }

    function Forward(x: Ptr, i: nat): Ptr
      requires x in mem && i < |mem[x].levels|
      reads this
    {
      mem[x].levels[i].forward
    }

    /** `x` is tower `j`, and this is what lies ahead of it at level `i`. */
    ghost predicate Sees(x: Ptr, j: nat, i: nat)
      reads this
    {
      && |path| == |h| == |items| + 1 && j < |h| && i < h[j] && x == path[j] && x in mem && i < |mem[x].levels|
      && mem[x].entry == (if j == 0 then None else Some(items[j - 1]))
      && var (k, a) := (Next(h, j, i), mem[x].levels[i]);
         && (k < |h| ==> a.forward == path[k] && a.forward in mem && a.forward != NULL && a.span == k - j
                         && mem[a.forward].entry == Some(items[k - 1]) && i < |mem[a.forward].levels|)
         && (k == |h| ==> a.forward == NULL && a.span == |items| - j)
    }

    lemma Ahead(j: nat, i: nat)
      requires Valid() && j < |h| && i < h[j] && i < level
      ensures Sees(path[j], j, i)
    {
      hide Next;
      assert RightLink(mem, path, h, j, i);
    }

    lemma Header()
      requires Valid()
      ensures |path| == |h| == |items| + 1 && path[0] == HDR && h[0] == ZSKIPLIST_MAXLEVEL
              && 1 <= level <= ZSKIPLIST_MAXLEVEL
    {
    }

    /** Go forward at one level while the next entry satisfies `below`. */
    method Advance(x0: Ptr, r0: nat, i: nat, below: Entry -> bool, ghost p: nat) returns (x: Ptr, r: nat)
      requires Valid() && Prefix(items, below, p) && r0 <= p && i < level && h[r0] > i && x0 == path[r0]
      ensures r == Last(h, p, i) && x == path[r]
    {
      hide Next, Last, Linked, Named, Backs, Towers, Heights, Sorted;
      x, r := x0, r0;
      Header();
      Ahead(r, i);
      while Forward(x, i) != NULL && below(mem[Forward(x, i)].entry.value)
        invariant r <= p && Sees(x, r, i)
        decreases p - r
      {
        ghost var k := Next(h, r, i);
        r := r + mem[x].levels[i].span;
        x := Forward(x, i);
        assert r == k;
        Ahead(r, i);
      }
      LastIs(h, p, i, r);
    }

    /** Walk down from the top level to the last node below a bound; `update` and `rank` are the
        last nodes at each level and their places. */
    method Walk(below: Entry -> bool, ghost p: nat) returns (update: seq<Ptr>, rank: seq<nat>)
      requires Valid() && Prefix(items, below, p)
      ensures Marks(path, h, level, update, rank, 0, p)
    {
      hide Next, Last, Linked, Named, Backs, Towers, Heights, Sorted;
      update, rank := seq(ZSKIPLIST_MAXLEVEL, _ => NULL), seq(ZSKIPLIST_MAXLEVEL, _ => 0);
      var x, r: nat, i := HDR, 0, level;
      Header();
      while i > 0
        invariant 0 <= i <= level && r <= p < |h| == |path| && h[r] >= i && x == path[r]
        invariant Marks(path, h, level, update, rank, i, p)
      {
        i := i - 1;
        x, r := Advance(x, r, i, below, p);
        update, rank := update[i := x], rank[i := r];
      }
    }

    /** Levels that were not in use start at the header and skip the whole list. */
    method Grow(lvl: nat, update0: seq<Ptr>, rank0: seq<nat>, ghost p: nat) returns (update: seq<Ptr>, rank: seq<nat>)
      requires Valid() && Marks(path, h, level, update0, rank0, 0, p) && level < lvl <= ZSKIPLIST_MAXLEVEL
      modifies this`mem, this`level
      ensures level == lvl && Marks(path, h, level, update, rank, 0, p) && Kept(old(mem), mem, lvl)
      ensures Linked(mem, path, h, lvl)
    {
      hide Next, Last, Named, Backs, Sorted, Kept, Linked, SetLink, Heights;
      update, rank := update0, rank0;
      Header();
      ghost var mem0, level0 := mem, level;
      var i := level;
      Idle(mem, path, h, level, lvl);
      while i < lvl
        invariant level0 <= i <= lvl && level == level0 && |update| == |rank| == ZSKIPLIST_MAXLEVEL
        invariant Kept(mem0, mem, lvl) && Towers(mem, path, h) && Linked(mem, path, h, i) && Free(mem, h, i)
        invariant forall l | 0 <= l < i :: update[l] == path[Last(h, p, l)] && rank[l] == Last(h, p, l)
      {
        rank := rank[i := 0];
        update := update[i := HDR];
        FreeLast(mem, h, p, i);
        GrowLevel(mem0, mem, path, h, i, length, lvl);
        mem := SetLink(mem, update[i], i, mem[update[i]].levels[i].(span := length));
        i := i + 1;
      }
      level := lvl;
    }

    /** Link the new node `x` in at its levels and lengthen the links that pass over it,
        src/list/skiplist.c:140-153. */
    method Thread(x: Ptr, lvl: nat, update: seq<Ptr>, rank: seq<nat>, ghost p: nat)
      requires Towers(mem, path, h) && Linked(mem, path, h, level) && Marks(path, h, level, update, rank, 0, p)
      requires x in mem && x !in path && x != NULL && |mem[x].levels| == lvl && 1 <= lvl <= level
      requires forall j | 1 <= j < |h| :: h[j] >= 1
      modifies this`mem
      ensures Linked(mem, Ins(path, p, x), Ins(h, p, lvl), level) && Kept(old(mem), mem, level)
    {
      hide Linked, Threading, OneLevel, Kept, SetLink, LinkAt, Last, Ins, Towers;
      ghost var mem0 := mem;
      ThreadStart(mem, path, h, p, x, lvl, level);
      FirstMark(update, rank, p);
      var i := 0;
      while i < lvl
        invariant 0 <= i <= lvl && Threading(mem, path, h, p, x, lvl, level, i)
        invariant Kept(mem0, mem, level) && Towers(mem, path, h) && x in mem && |mem[x].levels| == lvl
      {
        ThreadAt(mem0, mem, path, h, p, x, lvl, level, i);
        var f := mem[update[i]].levels[i];
        HeightKept(mem, x, i, Level(f.forward, f.span - (rank[0] - rank[i])), update[i]);
        mem := SetLink(mem, x, i, Level(f.forward, f.span - (rank[0] - rank[i])));
        mem := SetLink(mem, update[i], i, Level(x, rank[0] - rank[i] + 1));
        i := i + 1;
      }
      while i < level
        invariant lvl <= i <= level && Threading(mem, path, h, p, x, lvl, level, i)
        invariant Kept(mem0, mem, level) && Towers(mem, path, h) && x in mem && |mem[x].levels| == lvl
      {
        ThreadAt(mem0, mem, path, h, p, x, lvl, level, i);
        var f := mem[update[i]].levels[i];
        mem := SetLink(mem, update[i], i, Level(f.forward, f.span + 1));
        i := i + 1;
      }
      ThreadEnd(mem, path, h, p, x, lvl, level);
    }

    lemma FirstMark(update: seq<Ptr>, rank: seq<nat>, p: nat)
      requires Marks(path, h, level, update, rank, 0, p) && level >= 1
      requires forall j | 1 <= j < |h| :: h[j] >= 1
      ensures |update| == |rank| == ZSKIPLIST_MAXLEVEL && p < |h| == |path|
      ensures rank[0] == p && update[0] == path[p]
    {
      LastIs(h, p, 0, p);
    }

    /** Find the place, raise the level if need be, and link the new node in forwards. */
    method LinkForwards(entry: Entry, lvl: nat, x: Ptr, ghost p: nat) returns (u: Ptr, ghost mem2: Cells)
      requires Valid() && 1 <= lvl <= ZSKIPLIST_MAXLEVEL && x !in mem && x != NULL
               && Prefix(items, y => Less(y, entry), p)
      modifies this`mem, this`level
      ensures Towers(mem2, path, h) && Named(mem2, path, items) && Backs(mem2, path, tail) && Heights(mem2, h, level)
      ensures Kept(mem2, mem, level) && mem2.Keys == old(mem.Keys) + {x} && p < |h| == |path| && u == path[p]
      ensures x in mem2 && x !in path && |mem2[x].levels| == lvl && lvl <= level && mem2[x].entry == Some(entry)
      ensures Linked(mem, Ins(path, p, x), Ins(h, p, lvl), level)
      ensures level == if lvl > old(level) then lvl else old(level)
    {
      hide Linked, Kept, Last, LinkAt, Next, Ins, Sorted, Heights, Named, Backs, Marks, Prefix, Towers, Reached;
      Header();
      ghost var mem0 := mem;
      var update, rank := Walk(y => Less(y, entry), p);
      Unmoved(mem0, level);
      HigherLevel(mem0, h, level, if lvl > level then lvl else level);
      if lvl > level {
        update, rank := Grow(lvl, update, rank, p);
      }
      FirstMark(update, rank, p);
      u := update[0];
      ghost var mem1 := mem;
      mem := mem[x := SkipNode(Some(entry), NULL, seq(lvl, _ => Level(NULL, 0)))];
      mem2 := mem;
      NodeAdded(mem0, mem1, path, h, items, tail, level, x, mem[x]);
      Thread(x, lvl, update, rank, p);
    }

    /** Insert an entry that is not there yet.  `lvl` is the level drawn, `x` the address of the new
        node. */
    method Insert(entry: Entry, lvl: nat, x: Ptr) returns (r: Ptr)
      requires Valid() && entry !in items && 1 <= lvl <= ZSKIPLIST_MAXLEVEL && x !in mem && x != NULL
      modifies this
      ensures Valid() && items == Inserted(old(items), entry) && mem.Keys == old(mem.Keys) + {x}
      ensures r == x && path == Ins(old(path), Rank(old(items), entry), x)
      ensures h == Ins(old(h), Rank(old(items), entry), lvl)
    {
      hide Reached, Linked, Kept, Last, LinkAt, Next, Ins, Rank, Sorted, Inserted, Heights, Towers, Named, Backs,
           BackLinked,
           Prefix;
      ghost var p := Rank(items, entry);
      RankIsPrefix(items, entry);
      InsertedSorted(items, entry);
      Header();
      HigherLevel(mem, h, level, level);
      ReachedMore(h, p, lvl, level);
      ghost var was := items;
      var u;
      ghost var mem2;
      u, mem2 := LinkForwards(entry, lvl, x, p);
      ghost var mem3 := mem;
      InsertAhead(mem2, mem3, path, h, p, x, lvl, level);
      LinkBack(x, u);
      length := length + 1;
      InsertDone(mem2, mem3, mem, path, h, items, old(tail), tail, p, x, lvl, level, entry);
      InsertedLength(items, entry);
      path, h, items := Ins(path, p, x), Ins(h, p, lvl), Inserted(items, entry);
      r := x;
    }

    /** The links back around the new node, src/list/skiplist.c:155-159. */
    method LinkBack(x: Ptr, u: Ptr)
      requires x in mem && 0 < |mem[x].levels| && (Forward(x, 0) != NULL ==> Forward(x, 0) in mem && Forward(x, 0) != x)
      modifies this`mem, this`tail
      ensures BackLinked(old(mem), mem, x, u) && tail == if old(Forward(x, 0)) != NULL then old(tail) else x
    {
      mem := mem[x := mem[x].(backward := if u == HDR then NULL else u)];
      if Forward(x, 0) != NULL {
        mem := mem[Forward(x, 0) := mem[Forward(x, 0)].(backward := x)];
      } else {
        tail := x;
      }
    }

    /** Unlink the node `x` from its levels and shorten the links that pass over it,
        src/list/skiplist.c:166-173. */
    method Unthread(x: Ptr, update: seq<Ptr>, ghost rank: seq<nat>, ghost p: nat)
      requires Valid() && p + 1 < |path| && x == path[p + 1] && Marks(path, h, level, update, rank, 0, p)
      modifies this`mem
      ensures Linked(mem, Del(path, p + 1), Del(h, p + 1), level) && Towers(mem, Del(path, p + 1), Del(h, p + 1))
      ensures Kept(old(mem), mem, level) && x !in Del(path, p + 1) && x in old(mem) && x in mem && mem[x] == old(mem[x])
    {
      hide Linked, Unthreading, OneLevel, Kept, SetLink, LinkAt, Last, Ins, Towers, Del, Named, Backs, Sorted, Heights;
      ghost var mem0, path0, h0, v := mem, Del(path, p + 1), Del(h, p + 1), h[p + 1];
      Header();
      DelTowers(mem, path, h, p + 1);
      UnthreadStart(mem, path0, h0, p, x, v, level);
      var i := 0;
      while i < level
        invariant 0 <= i <= level && Unthreading(mem, path0, h0, p, x, v, level, i)
        invariant Kept(mem0, mem, level) && Towers(mem, path0, h0) && x in mem0 && x in mem && mem[x] == mem0[x]
      {
        UnthreadAt(mem0, mem, path0, h0, p, x, v, level, i);
        LastOfDel(h, p + 1, i);
        var u := update[i];
        var f := mem[u].levels[i];
        if f.forward == x {
          mem := SetLink(mem, u, i, Level(mem[x].levels[i].forward, f.span + mem[x].levels[i].span - 1));
        } else {
          mem := SetLink(mem, u, i, Level(f.forward, f.span - 1));
        }
        i := i + 1;
      }
      UnthreadEnd(mem, path0, h0, p, x, v, level);
    }

    /** Take the node `x` out of the list; it stays allocated. */
    method DeleteNode(x: Ptr, update: seq<Ptr>, ghost rank: seq<nat>, ghost p: nat)
      requires Valid() && p + 1 < |path| && x == path[p + 1] && Marks(path, h, level, update, rank, 0, p)
      modifies this
      ensures Valid() && path == Del(old(path), p + 1) && h == Del(old(h), p + 1)
      ensures items == old(items)[..p] + old(items)[p + 1..] && mem.Keys == old(mem.Keys) && x !in path
      ensures level <= old(level)
    {
      hide Linked, Kept, Last, LinkAt, Next, Ins, Del, Sorted, Heights, Named, Backs, Marks, Towers, OneBack;
      Header();
      ghost var mem0, path0, h0, tail0 := mem, Del(path, p + 1), Del(h, p + 1), tail;
      ghost var items0 := items[..p] + items[p + 1..];
      DeletedEnds(mem, path, h, items, p, level);
      Unthread(x, update, rank, p);
      ghost var mem1 := mem;
      DeleteAhead(mem0, mem1, path, h, p, level);
      UnlinkBack(x);
      DeleteDone(mem0, mem1, mem, path, h, items, tail0, tail, p, level);
      path, h, items := path0, h0, items0;
      ghost var mem2, tail2 := mem, tail;
      while level > 1 && Forward(HDR, level - 1) == NULL
        invariant HDR in mem && |mem[HDR].levels| == ZSKIPLIST_MAXLEVEL && 1 <= level <= ZSKIPLIST_MAXLEVEL
        invariant Linked(mem, path, h, level) && Heights(mem, h, level) && Towers(mem, path, h) && level <= old(level)
        invariant mem == mem2 && tail == tail2 && path == path0 && h == h0 && items == items0 && length == old(length)
        decreases level
      {
        LowerLevel(mem, path, h, level);
        level := level - 1;
      }
      if level > 1 { ReachedByHeader(mem, path, h, level); }
      length := length - 1;
    }

    /** The links back around the deleted node, src/list/skiplist.c:174-178. */
    method UnlinkBack(x: Ptr)
      requires x in mem && 0 < |mem[x].levels| && (Forward(x, 0) != NULL ==> Forward(x, 0) in mem)
      modifies this`mem, this`tail
      ensures OneBack(old(mem), mem, old(Forward(x, 0)), old(mem[x].backward))
      ensures tail == if old(Forward(x, 0)) != NULL then old(tail) else old(mem[x].backward)
    {
      if Forward(x, 0) != NULL {
        mem := mem[Forward(x, 0) := mem[Forward(x, 0)].(backward := mem[x].backward)];
      } else {
        tail := mem[x].backward;
      }
    }

    /** Give the memory of an unlinked node back. */
    method FreeNode(x: Ptr)
      requires Valid() && x !in path
      modifies this`mem
      ensures Valid() && mem == old(mem) - {x}
    {
      Freed(mem, x, path, h, items, tail, level);
      mem := mem - {x};
    }

    /** The node after the last one below a bound. */
    lemma AfterMark(update: seq<Ptr>, rank: seq<nat>, p: nat)
      requires Valid() && Marks(path, h, level, update, rank, 0, p)
      ensures |update| > 0 && update[0] in mem && 0 < |mem[update[0]].levels|
      ensures Forward(update[0], 0) == if p + 1 < |path| then path[p + 1] else NULL
      ensures p + 1 < |path| ==> path[p + 1] in mem && path[p + 1] != NULL && mem[path[p + 1]].entry == Some(items[p])
    {
      hide Last, Next, LinkAt;
      FirstMark(update, rank, p);
      Ahead(p, 0);
      NextIs(h, p, 0, p + 1);
    }

    /** Delete an entry. */
    method Delete(entry: Entry) returns (found: bool, ghost x: Ptr)
      requires Valid()
      modifies this
      ensures Valid() && (found <==> entry in old(items)) && items == Deleted(old(items), entry)
      ensures !found ==> mem == old(mem) && path == old(path)
      ensures found ==> x in old(mem) && old(mem[x].entry) == Some(entry) && mem.Keys == old(mem.Keys) - {x}
    {
      hide Linked, Last, LinkAt, Next, Ins, Del, Rank, Sorted, Heights, Named, Backs, Marks, Towers, Prefix;
      ghost var p := Rank(items, entry);
      RankIsPrefix(items, entry);
      Header();
      var update, rank := Walk(y => Less(y, entry), p);
      AfterMark(update, rank, p);
      var y := Forward(update[0], 0);
      x := y;
      if y != NULL && mem[y].entry == Some(entry) {
        DeleteNode(y, update, rank, p);
        FreeNode(y);
        return true, x;
      }
      return false, x;
    }

    /** The 1-based position of an entry, or 0. */
    method GetRank(entry: Entry) returns (r: nat)
      requires Valid()
      ensures r == if entry in items then Rank(items, entry) + 1 else 0
    {
      hide Next, Last, Linked, Named, Backs, Towers, Rank, Less, Sorted, Prefix;
      ghost var p := RankUpTo(items, entry);
      RankUpToIsPrefix(items, entry);
      PrefixBound(items, y => UpTo(y, entry), p);
      var x, i := HDR, level;
      r := 0;
      Header();
      while i > 0
        invariant 0 <= i <= level && r <= p < |h| == |path| && h[r] >= i && x == path[r]
        invariant i < level ==> r == 0 || items[r - 1] != entry
        invariant i == 0 ==> r == p
      {
        i := i - 1;
        x, r := Advance(x, r, i, y => UpTo(y, entry), p);
        Ahead(r, i);
        if mem[x].entry == Some(entry) {
          return r;
        }
        if i == 0 { LastIs(h, p, 0, p); }
      }
      return 0;
    }

    /** The node `rank` places after tower `s`, which reaches the start level. */
    method ByRankFrom(start: Ptr, startLevel: nat, rank: nat, ghost s: nat) returns (r: Ptr)
      requires Valid() && s < |path| && start == path[s] && startLevel < level && h[s] > startLevel
      ensures r == if s + rank < |path| then path[s + rank] else NULL
    {
      hide Next, Last, Linked, Named, Backs, Towers, Heights;
      Header();
      var x, traversed, i := start, 0, startLevel + 1;
      ghost var j := s;
      while i > 0
        invariant 0 <= i <= startLevel + 1 && j == s + traversed < |h| == |path| && h[j] >= i && x == path[j]
        invariant traversed <= rank && (i <= startLevel ==> traversed != rank)
        invariant i == 0 ==> j + 1 == |h|
      {
        i := i - 1;
        Ahead(j, i);
        while Forward(x, i) != NULL && traversed + mem[x].levels[i].span <= rank
          invariant Sees(x, j, i) && j == s + traversed && traversed <= rank
          decreases rank - traversed
        {
          traversed := traversed + mem[x].levels[i].span;
          x := Forward(x, i);
          j := Next(h, j, i);
          Ahead(j, i);
        }
        if traversed == rank {
          return x;
        }
        if i == 0 { LowestNext(j); }
      }
      return NULL;
    }

    /** At the lowest level the next tower is the next one. */
    lemma LowestNext(j: nat)
      requires Valid() && j < |h|
      ensures Next(h, j, 0) == j + 1
    {
      NextIs(h, j, 0, j + 1);
    }

    /** Go forward at all levels below `i0`. */
    method Descend(x0: Ptr, r0: nat, i0: nat, below: Entry -> bool, ghost p: nat) returns (x: Ptr, r: nat)
      requires Valid() && Prefix(items, below, p) && r0 <= p && i0 <= level && h[r0] >= i0 && x0 == path[r0]
      requires i0 == 0 ==> r0 == p
      ensures r == p && x == path[p]
    {
      hide Next, Last, Linked, Named, Backs, Sorted;
      x, r := x0, r0;
      Header();
      var i := i0;
      while i > 0
        invariant 0 <= i <= i0 && r <= p && h[r] >= i && x == path[r] && (i == 0 ==> r == p)
      {
        i := i - 1;
        x, r := Advance(x, r, i, below, p);
        if i == 0 { LastIs(h, p, 0, p); }
      }
    }

    /** Whether the list reaches into the range; it may still hold nothing of it. */
    method IsInRange(range: Range) returns (b: bool)
      requires Valid()
      ensures !b ==> Inside(items, range) == []
      ensures b <==> Proper(range) && items != [] && !BelowMin(range)(items[|items| - 1]) && UpToMax(range)(items[0])
    {
      hide Next, Last, Linked, Less, Towers, Heights;
      Header();
      RangePrefixes(items, range);
      RangeIsSlice(items, range, Count(items, BelowMin(range)), Count(items, UpToMax(range)));
      if range.min > range.max || (range.min == range.max && (range.minex || range.maxex)) {
        ImproperEmpty(items, range);
        return false;
      }
      var x := tail;
      TailEntry();
      if x == NULL || !ValueGteMin(mem[x].entry.value.score, range) {
        assert items != [] ==> BelowMin(range)(items[|items| - 1]);
        return false;
      }
      Ahead(0, 0);
      LowestNext(0);
      x := Forward(HDR, 0);
      if x == NULL || !ValueLteMax(mem[x].entry.value.score, range) {
        assert items != [] ==> !UpToMax(range)(items[0]);
        return false;
      }
      return true;
    }

    lemma TailEntry()
      requires Valid()
      ensures tail == NULL <==> items == []
      ensures items != [] ==> tail in mem && mem[tail].entry == Some(items[|items| - 1])
    {
    }

    /** `k` nodes forward at the lowest level. */
    method Forwards(x0: Ptr, k: nat, ghost j0: nat) returns (x: Ptr)
      requires Valid() && j0 + k < |path| && x0 == path[j0]
      ensures x == path[j0 + k]
    {
      hide Next, Last, Linked, Named, Backs, Sorted;
      x := x0;
      var i := 0;
      Header();
      while i < k
        invariant 0 <= i <= k && x == path[j0 + i]
      {
        Ahead(j0 + i, 0);
        LowestNext(j0 + i);
        x := Forward(x, 0);
        i := i + 1;
      }
    }

    /** `k` nodes back. */
    method Backwards(x0: Ptr, k: nat, ghost j0: nat) returns (x: Ptr)
      requires Valid() && k < j0 < |path| && x0 == path[j0]
      ensures x == path[j0 - k]
    {
      hide Linked, Heights, Sorted;
      x := x0;
      var i := 0;
      while i < k
        invariant 0 <= i <= k && x == path[j0 - i]
      {
        x := mem[x].backward;
        i := i + 1;
      }
    }

    /** The n-th entry of a range, counted from its end when n is negative. */
    method NthInRange(range: Range, n: int) returns (r: Ptr)
      requires Valid() && |items| <= LONG_MAX && -LONG_MAX - 1 <= n <= LONG_MAX
      ensures var f := Inside(items, range);
              var k := if n >= 0 then n else |f| + n;
              if 0 <= k < |f| then r in mem && mem[r].entry == Some(f[k]) else r == NULL
    {
      hide Next, Last, Linked, Less, Towers, Heights, Sorted, Named, Backs, Inside, Count, Prefix;
      var some := IsInRange(range);
      if !some {
        return NULL;
      }
      ghost var p, q := Count(items, BelowMin(range)), Count(items, UpToMax(range));
      RangePrefixes(items, range);
      RangeIsSlice(items, range, p, q);
      ProperOrder(items, range, p, q);
      Header();
      PrefixBound(items, UpToMax(range), q);
      var x, edgeRank := Advance(HDR, 0, level - 1, BelowMin(range), p);
      if n >= 0 {
        r := NthForward(range, n, x, edgeRank, p, q);
      } else {
        r := NthBackward(range, n, x, edgeRank, p, q);
      }
    }

    /** Counted from the front: go on to the last entry below the range, then `n + 1` further. */
    method NthForward(range: Range, n: int, lastNode: Ptr, lastRank: nat, ghost p: nat, ghost q: nat) returns (r: Ptr)
      requires Valid() && 0 <= n && Prefix(items, BelowMin(range), p) && Prefix(items, UpToMax(range), q)
      requires p <= q < |path| && p < |h| && h[0] > level - 1 && lastRank == Last(h, p, level - 1)
               && lastNode == path[lastRank]
      ensures if p + n < q then r in mem && mem[r].entry == Some(items[p + n]) else r == NULL
    {
      hide Next, Last, Linked, Less, Towers, Heights, Sorted, Named, Backs, Prefix, BelowMin, UpToMax, ValueLteMax;
      Header();
      LowestLast(p);
      var x, edgeRank := Descend(lastNode, lastRank, level - 1, BelowMin(range), p);
      if edgeRank + n >= length {
        return NULL;
      }
      if n < ZSKIPLIST_MAX_SEARCH {
        x := Forwards(x, n + 1, p);
      } else {
        x := ByRankFrom(lastNode, level - 1, edgeRank + 1 + n - lastRank, lastRank);
      }
      EntryAt(p + n + 1);
      AtMost(items, range, q, p + n);
      if x != NULL && !ValueLteMax(mem[x].entry.value.score, range) {
        return NULL;
      }
      return x;
    }

    /** Counted from the end: go on to the last entry of the range, then `-n - 1` back. */
    method NthBackward(range: Range, n: int, lastNode: Ptr, lastRank: nat, ghost p: nat, ghost q: nat) returns (r: Ptr)
      requires Valid() && -LONG_MAX - 1 <= n < 0 && |items| <= LONG_MAX
      requires Prefix(items, BelowMin(range), p) && Prefix(items, UpToMax(range), q)
      requires p <= q < |path| && p < |h| && h[0] > level - 1 && lastRank == Last(h, p, level - 1)
               && lastNode == path[lastRank]
      ensures if p <= q + n then r in mem && mem[r].entry == Some(items[q + n]) else r == NULL
    {
      hide Next, Last, Linked, Less, Towers, Heights, Sorted, Named, Backs, Prefix;
      Header();
      var x, edgeRank := Descend(lastNode, lastRank, level, UpToMax(range), q);
      if edgeRank < -n {
        return NULL;
      }
      if n + 1 > -ZSKIPLIST_MAX_SEARCH {
        x := Backwards(x, -n - 1, q);
      } else {
        var rankDiff := (edgeRank + 1 + n - lastRank) % ULONG;
        WrappedRank(edgeRank + 1 + n - lastRank);
        x := ByRankFrom(lastNode, level - 1, rankDiff, lastRank);
      }
      EntryAt(q + n + 1);
      AtLeast(items, range, p, q + n);
      if x != NULL && !ValueGteMin(mem[x].entry.value.score, range) {
        return NULL;
      }
      return x;
    }

    lemma LowestLast(p: nat)
      requires Valid() && p < |h|
      ensures level == 1 ==> Last(h, p, level - 1) == p
    {
      LastIs(h, p, 0, p);
    }

    lemma EntryAt(j: nat)
      requires Valid() && 1 <= j < |path|
      ensures path[j] in mem && path[j] != NULL && mem[path[j]].entry == Some(items[j - 1])
    {
    }

    /** The marks below a deleted node still hold. */
    lemma MarksKept(path0: seq<Ptr>, h0: seq<nat>, level0: nat, update: seq<Ptr>, rank: seq<nat>, p: nat)
      requires Marks(path0, h0, level0, update, rank, 0, p) && p + 1 < |path0| && level <= level0
      requires path == Del(path0, p + 1) && h == Del(h0, p + 1)
      ensures Marks(path, h, level, update, rank, 0, p)
    {
      hide Last, Del;
      forall l | 0 <= l < level ensures update[l] == path[Last(h, p, l)] && rank[l] == Last(h, p, l) {
        LastOfDel(h0, p + 1, l);
      }
    }

    /** Unlink and free the node after the marks; the result is the node after it. */
    method DeleteNext(x: Ptr, update: seq<Ptr>, ghost rank: seq<nat>, ghost p: nat) returns (next: Ptr)
      requires Valid() && p + 1 < |path| && x == path[p + 1] && Marks(path, h, level, update, rank, 0, p)
      modifies this
      ensures Valid() && Marks(path, h, level, update, rank, 0, p)
      ensures items == old(items)[..p] + old(items)[p + 1..]
      ensures next == if p + 1 < |path| then path[p + 1] else NULL
      ensures |mem| == |old(mem)| - 1
    {
      hide Next, Last, Linked, Named, Backs, Sorted, Marks, Del;
      Header();
      Ahead(p + 1, 0);
      LowestNext(p + 1);
      next := Forward(x, 0);
      ghost var path0, h0, level0 := path, h, level;
      DeleteNode(x, update, rank, p);
      MarksKept(path0, h0, level0, update, rank, p);
      OneLess(mem, x);
      FreeNode(x);
      SameSize(mem, old(mem) - {x});
    }

    /** After `removed` deletions behind place `p`: what is left, and the next node `x`. */
    ghost predicate Removing(s: seq<Entry>, p: nat, removed: nat, x: Ptr)
      reads this
    {
      && |path| == |items| + 1 && p + removed <= |s| && items == s[..p] + s[p + removed..]
      && x == (if p + removed < |s| then path[p + 1] else NULL)
      && (x == NULL <==> p + removed == |s|)
      && (x != NULL ==> x in mem && mem[x].entry == Some(s[p + removed]))
    }

    lemma RemovingStarts(update: seq<Ptr>, rank: seq<nat>, p: nat)
      requires Valid() && Marks(path, h, level, update, rank, 0, p)
      ensures |update| > 0 && update[0] in mem && 0 < |mem[update[0]].levels|
      ensures Removing(items, p, 0, Forward(update[0], 0))
    {
      hide Last;
      Header();
      AfterMark(update, rank, p);
      assert items == items[..p] + items[p..];
    }

    lemma RemovingReads(s: seq<Entry>, p: nat, removed: nat, x: Ptr)
      requires Removing(s, p, removed, x)
      ensures p + removed <= |s| && (x == NULL <==> p + removed == |s|)
      ensures x != NULL ==> x in mem && mem[x].entry == Some(s[p + removed])
    {
    }

    lemma RemovingLeft(s: seq<Entry>, p: nat, removed: nat, x: Ptr)
      requires Removing(s, p, removed, x)
      ensures p + removed <= |s| && items == s[..p] + s[p + removed..]
    {
    }

    method RemoveNext(x: Ptr, update: seq<Ptr>, ghost rank: seq<nat>, ghost s: seq<Entry>, ghost p: nat,
                      ghost removed: nat)
      returns (next: Ptr)
      requires Valid() && Marks(path, h, level, update, rank, 0, p) && Removing(s, p, removed, x) && x != NULL
      modifies this
      ensures Valid() && Marks(path, h, level, update, rank, 0, p) && Removing(s, p, removed + 1, next)
      ensures |mem| == |old(mem)| - 1
    {
      hide Next, Last, Linked, Towers, Heights, Sorted, Named, Backs, Marks;
      next := DeleteNext(x, update, rank, p);
      SliceAgain(s, p, p + removed);
      Header();
      if p + 1 < |path| { EntryAt(p + 1); }
    }

    /** Delete the entries whose score is in the range. */
    method DeleteRangeByScore(range: Range) returns (removed: nat)
      requires Valid()
      modifies this
      ensures Valid() && items == Outside(old(items), range) && removed == |Inside(old(items), range)|
      ensures |mem| == |old(mem)| - removed
    {
      hide Next, Last, Linked, Towers, Heights, Sorted, Named, Backs, Inside, Outside, Count, Prefix, Marks, BelowMin,
           UpToMax, ValueLteMax,
           Removing;
      ghost var s := items;
      ghost var p, q := Count(s, BelowMin(range)), Count(s, UpToMax(range));
      RangePrefixes(s, range);
      RangeIsSlice(s, range, p, q);
      var update, rank := Walk(BelowMin(range), p);
      RemovingStarts(update, rank, p);
      var x := Forward(update[0], 0);
      removed := 0;
      if p < |s| { AtMost(s, range, q, p); }
      RemovingReads(s, p, removed, x);
      while x != NULL && ValueLteMax(mem[x].entry.value.score, range)
        invariant Valid() && Marks(path, h, level, update, rank, 0, p) && Removing(s, p, removed, x)
        invariant p + removed <= |s| && (x == NULL <==> p + removed == |s|)
        invariant x != NULL ==> x in mem && mem[x].entry == Some(s[p + removed])
        invariant p + removed < |s| ==> (ValueLteMax(s[p + removed].score, range) <==> p + removed < q)
        invariant (removed > 0 ==> p + removed <= q) && |mem| == |old(mem)| - removed
        decreases |s| - removed
      {
        x := RemoveNext(x, update, rank, s, p, removed);
        removed := removed + 1;
        if p + removed < |s| { AtMost(s, range, q, p + removed); }
        RemovingReads(s, p, removed, x);
      }
      Removed(s, p, q, removed);
      RemovingLeft(s, p, removed, x);
    }

    /** Delete the entries from place `start` to place `end`, both 1-based. */
    method DeleteRangeByRank(start: nat, end: nat) returns (removed: nat)
      requires Valid()
      modifies this
      ensures Valid()
      ensures var a := if start == 0 then 0 else start - 1;
              if a < end && a < |old(items)| then
                items == old(items)[..a] + (if end < |old(items)| then old(items)[end..] else [])
              else items == old(items)
      ensures removed == |old(items)| - |items| && |mem| == |old(mem)| - removed
    {
      hide Next, Last, Linked, Towers, Heights, Sorted, Named, Backs, Marks;
      ghost var s := items;
      ghost var p := if start == 0 then 0 else if start - 1 < |s| then start - 1 else |s|;
      var update, rank, traversed := WalkRank(start, p);
      RemovingStarts(update, rank, p);
      traversed := traversed + 1;
      var x := Forward(update[0], 0);
      removed := 0;
      while x != NULL && traversed <= end
        invariant Valid() && Marks(path, h, level, update, rank, 0, p) && Removing(s, p, removed, x)
        invariant traversed == p + removed + 1 && (removed > 0 ==> p + removed <= end)
        invariant |mem| == |old(mem)| - removed
        decreases |s| - removed
      {
        x := RemoveNext(x, update, rank, s, p, removed);
        removed := removed + 1;
        traversed := traversed + 1;
      }
      assert s == s[..p] + s[p..];
    }

    /** Go forward at one level while the next place is before `start`. */
    method AdvanceRank(x0: Ptr, r0: nat, i: nat, start: nat, ghost p: nat) returns (x: Ptr, r: nat)
      requires Valid() && p == if start == 0 then 0 else if start - 1 < |items| then start - 1 else |items|
      requires r0 <= p < |h| && i < level && h[r0] > i && h[0] > i && x0 == path[r0]
      ensures r == Last(h, p, i) && x == path[r]
    {
      hide Next, Last, Linked, Named, Backs, Towers, Heights, Sorted;
      x, r := x0, r0;
      Header();
      Ahead(r, i);
      while Forward(x, i) != NULL && r + mem[x].levels[i].span < start
        invariant r <= p && Sees(x, r, i)
        decreases p - r
      {
        ghost var k := Next(h, r, i);
        r := r + mem[x].levels[i].span;
        x := Forward(x, i);
        assert r == k;
        Ahead(r, i);
      }
      LastIs(h, p, i, r);
    }

    /** Walk down from the top level to the last place before `start`. */
    method WalkRank(start: nat, ghost p: nat) returns (update: seq<Ptr>, ghost rank: seq<nat>, traversed: nat)
      requires Valid() && p == if start == 0 then 0 else if start - 1 < |items| then start - 1 else |items|
      ensures Marks(path, h, level, update, rank, 0, p) && traversed == p
    {
      hide Next, Last, Linked, Named, Backs, Towers, Sorted;
      update, rank := seq(ZSKIPLIST_MAXLEVEL, _ => NULL), seq(ZSKIPLIST_MAXLEVEL, _ => 0);
      var x, i := HDR, level;
      traversed := 0;
      Header();
      while i > 0
        invariant 0 <= i <= level && traversed <= p < |h| == |path| && h[traversed] >= i && x == path[traversed]
        invariant Marks(path, h, level, update, rank, i, p) && (i == 0 ==> traversed == p)
      {
        i := i - 1;
        x, traversed := AdvanceRank(x, traversed, i, start, p);
        update, rank := update[i := x], rank[i := traversed];
        if i == 0 { LastIs(h, p, 0, p); }
      }
    }

    /** The score lies strictly between those of the neighbours of entry `p`. */
    static predicate FitsAt(s: seq<Entry>, p: nat, score: real)
      requires p < |s|
    {
      (p == 0 || s[p - 1].score < score) && (p + 1 == |s| || s[p + 1].score > score)
    }

    /** Change the score of an entry: in place when it stays between its neighbours, otherwise by
        removing it and inserting it again in a new node `node` of level `lvl`. */
    method UpdateScore(cur: Entry, newscore: real, lvl: nat, node: Ptr) returns (r: Ptr)
      requires Valid() && cur in items && 1 <= lvl <= ZSKIPLIST_MAXLEVEL && node !in mem && node != NULL
      requires Entry(newscore, cur.ele) == cur || Entry(newscore, cur.ele) !in items
      modifies this
      ensures Valid() && items == Inserted(Deleted(old(items), cur), Entry(newscore, cur.ele))
      ensures r in mem && mem[r].entry == Some(Entry(newscore, cur.ele))
      ensures var p := Rank(old(items), cur);
              && p + 1 < |old(path)| == |old(items)| + 1
              && if FitsAt(old(items), p, newscore) then
                   r == old(path)[p + 1] && path == old(path) && h == old(h) && mem.Keys == old(mem.Keys)
                 else
                   r == node && mem.Keys == old(mem.Keys) - {old(path)[p + 1]} + {node}
    {
      hide Next, Last, Linked, Named, Backs, Towers, Rank, Less, Sorted, Marks, Heights, Prefix, Ins, Del, Inserted,
           Deleted, Reached;
      ghost var s, p, n := items, Rank(items, cur), Entry(newscore, cur.ele);
      RankIsPrefix(items, cur);
      DeletedIs(items, cur);
      Header();
      var update, rank := Walk(y => Less(y, cur), p);
      AfterMark(update, rank, p);
      var x := Forward(update[0], 0);
      Neighbours(p + 1);
      if (mem[x].backward == NULL || mem[mem[x].backward].entry.value.score < newscore)
         && (Forward(x, 0) == NULL || mem[Forward(x, 0)].entry.value.score > newscore) {
        ScoreInPlace(items, p, newscore);
        Rescored(mem, x, path, h, items, tail, level, p, n);
        mem := mem[x := mem[x].(entry := Some(Entry(newscore, cur.ele)))];
        items := items[p := n];
        return x;
      }
      r := Reinsert(cur, newscore, lvl, node, x, update, rank, p);
    }

    /** Take the entry out and insert it again with the new score, in a new node. */
    method Reinsert(cur: Entry, newscore: real, lvl: nat, node: Ptr, x: Ptr, update: seq<Ptr>, ghost rank: seq<nat>,
                    ghost p: nat)
      returns (r: Ptr)
      requires Valid() && cur in items && 1 <= lvl <= ZSKIPLIST_MAXLEVEL && node !in mem && node != NULL
      requires Entry(newscore, cur.ele) == cur || Entry(newscore, cur.ele) !in items
      requires p == Rank(items, cur) && p + 1 < |path| && x == path[p + 1] && x in mem
      requires Marks(path, h, level, update, rank, 0, p)
      modifies this
      ensures Valid() && items == Inserted(Deleted(old(items), cur), Entry(newscore, cur.ele))
      ensures r in mem && mem[r].entry == Some(Entry(newscore, cur.ele))
      ensures r == node && mem.Keys == old(mem.Keys) - {x} + {node}
    {
      hide Next, Last, Linked, Named, Backs, Towers, Rank, Less, Sorted, Marks, Heights, Prefix, Ins, Del, Inserted,
           Deleted, Reached;
      ghost var s, n := items, Entry(newscore, cur.ele);
      Header();
      DeletedIs(items, cur);
      DeleteNode(x, update, rank, p);
      DeletedSorted(s, cur);
      ghost var path0 := path;
      r := Insert(Entry(newscore, cur.ele), lvl, node);
      InsertKeeps(path0, path, Rank(Deleted(s, cur), n), node, x);
      InsertedAt(Deleted(s, cur), n);
      EntryAt(Rank(Deleted(s, cur), n) + 1);
      FreeNode(x);
    }

    /** The nodes next to node `j`. */
    lemma Neighbours(j: nat)
      requires Valid() && 1 <= j < |path|
      ensures path[j] in mem && 0 < |mem[path[j]].levels| && path[j] != NULL
      ensures var (b, f) := (mem[path[j]].backward, Forward(path[j], 0));
              && (if j == 1 then b == NULL
                  else b == path[j - 1] && b != NULL && b in mem && mem[b].entry == Some(items[j - 2]))
              && (if j + 1 == |path| then f == NULL
                  else f == path[j + 1] && f != NULL && f in mem && mem[f].entry == Some(items[j]))
    {
      hide Next;
      Ahead(j, 0);
      LowestNext(j);
    }
  }

  lemma OneLess(mem: Cells, x: Ptr)
    requires x in mem
    ensures |mem - {x}| == |mem| - 1
  {
    assert (mem - {x}).Keys == mem.Keys - {x};
  }

  lemma SameSize(m: Cells, n: Cells)
    requires m.Keys == n.Keys
    ensures |m| == |n|
  {
  }

  /** Only the links back of `x` and of the node after it have changed. */
  ghost predicate BackLinked(mem: Cells, mem': Cells, x: Ptr, u: Ptr) {
    && mem'.Keys == mem.Keys && x in mem && 0 < |mem[x].levels|
    && (forall a | a in mem :: mem'[a].entry == mem[a].entry && mem'[a].levels == mem[a].levels)
    && var f := mem[x].levels[0].forward;
       forall a | a in mem ::
         mem'[a].backward == if a == f && f != NULL then x
                             else if a == x then (if u == HDR then NULL else u) else mem[a].backward
  }

  lemma InsertBacks(mem2: Cells, mem3: Cells, mem4: Cells, path: seq<Ptr>, tail: Ptr, tail': Ptr, p: nat, x: Ptr)
    requires Backs(mem2, path, tail) && p < |path| && path[0] == HDR && x !in path && NULL !in path && x != NULL
    requires forall j, k | 0 <= j < k < |path| :: path[j] != path[k]
    requires mem3.Keys == mem2.Keys && forall a | a in mem2 :: mem3[a].backward == mem2[a].backward
    requires BackLinked(mem3, mem4, x, path[p])
    requires mem3[x].levels[0].forward == if p + 1 < |path| then path[p + 1] else NULL
    requires tail' == if p + 1 < |path| then tail else x
    ensures Backs(mem4, Ins(path, p, x), tail')
  {
    hide Ins;
    var t := Ins(path, p, x);
    forall j | 1 <= j < |t| ensures mem4[t[j]].backward == if j == 1 then NULL else t[j - 1] {
      if j == p + 1 {
        assert t[p] == path[p];
      } else if j == p + 2 {
        assert t[j] == path[p + 1];
      } else if j <= p {
        assert t[j] == path[j] && t[j - 1] == path[j - 1];
      } else {
        assert t[j] == path[j - 1] && t[j - 1] == path[j - 2];
      }
    }
  }

  lemma InsertNamed(mem2: Cells, mem3: Cells, mem4: Cells, path: seq<Ptr>, items: seq<Entry>, p: nat, x: Ptr, e: Entry)
    requires Named(mem2, path, items) && p < |path| && p == Rank(items, e) && x in mem2 && mem2[x].entry == Some(e)
    requires mem3.Keys == mem2.Keys == mem4.Keys
    requires forall a | a in mem2 :: mem3[a].entry == mem2[a].entry && mem4[a].entry == mem3[a].entry
    ensures Named(mem4, Ins(path, p, x), Inserted(items, e))
  {
    hide Ins, Rank;
    var (t, s) := (Ins(path, p, x), Inserted(items, e));
    forall j | 1 <= j < |t| ensures mem4[t[j]].entry == Some(s[j - 1]) {
      if j <= p { assert t[j] == path[j]; } else if j > p + 1 { assert t[j] == path[j - 1]; }
    }
  }

  lemma InsertTowers(mem2: Cells, mem3: Cells, mem4: Cells, path: seq<Ptr>, h: seq<nat>, p: nat, x: Ptr, v: nat,
                     level: nat)
    requires Towers(mem2, path, h) && Heights(mem2, h, level) && Kept(mem2, mem3, level) && p < |h|
    requires x in mem2 && x !in path && x != NULL && |mem2[x].levels| == v && 1 <= v <= level
    requires Linked(mem3, Ins(path, p, x), Ins(h, p, v), level)
    requires mem4.Keys == mem3.Keys && forall a | a in mem3 :: mem4[a].levels == mem3[a].levels
    ensures Towers(mem4, Ins(path, p, x), Ins(h, p, v)) && Heights(mem4, Ins(h, p, v), level)
    ensures Linked(mem4, Ins(path, p, x), Ins(h, p, v), level)
  {
    hide Ins, LinkAt;
    var (t, g) := (Ins(path, p, x), Ins(h, p, v));
    forall j, k | 0 <= j < k < |t| ensures t[j] != t[k] {
      InsApart(path, p, x, j, k);
    }
    forall j | 0 <= j < |t| ensures t[j] != NULL && t[j] in mem4 && |mem4[t[j]].levels| == g[j] {
      if j <= p { assert t[j] == path[j]; } else if j > p + 1 { assert t[j] == path[j - 1]; }
    }
    forall j: nat, l: nat | j < |g| && l < g[j] && l < level ensures RightLink(mem4, t, g, j, l) {
      assert RightLink(mem3, t, g, j, l);
    }
  }

  lemma InsertDone(mem2: Cells, mem3: Cells, mem4: Cells, path: seq<Ptr>, h: seq<nat>, items: seq<Entry>, tail: Ptr,
                   tail': Ptr,
                   p: nat, x: Ptr, v: nat, level: nat, e: Entry)
    requires Towers(mem2, path, h) && Named(mem2, path, items) && Backs(mem2, path, tail) && Heights(mem2, h, level)
    requires Kept(mem2, mem3, level) && p < |h| && p == Rank(items, e)
    requires x in mem2 && x !in path && x != NULL && |mem2[x].levels| == v && 1 <= v <= level
             && mem2[x].entry == Some(e)
    requires Linked(mem3, Ins(path, p, x), Ins(h, p, v), level) && BackLinked(mem3, mem4, x, path[p])
    requires mem3[x].levels[0].forward == if p + 1 < |path| then path[p + 1] else NULL
    requires tail' == if p + 1 < |path| then tail else x
    ensures Towers(mem4, Ins(path, p, x), Ins(h, p, v)) && Named(mem4, Ins(path, p, x), Inserted(items, e))
    ensures Backs(mem4, Ins(path, p, x), tail') && Heights(mem4, Ins(h, p, v), level)
    ensures Linked(mem4, Ins(path, p, x), Ins(h, p, v), level) && mem4.Keys == mem2.Keys
  {
    hide Ins, Linked, Rank;
    InsertBacks(mem2, mem3, mem4, path, tail, tail', p, x);
    InsertNamed(mem2, mem3, mem4, path, items, p, x, e);
    InsertTowers(mem2, mem3, mem4, path, h, p, x, v, level);
  }

  lemma InsertedAt(s: seq<Entry>, e: Entry)
    ensures Rank(s, e) < |Inserted(s, e)| && Inserted(s, e)[Rank(s, e)] == e
  {
  }

  lemma InsertedLength(s: seq<Entry>, e: Entry)
    ensures |Inserted(s, e)| == |s| + 1
  {
  }

  lemma DelTowers(mem: Cells, path: seq<Ptr>, h: seq<nat>, d: nat)
    requires Towers(mem, path, h) && 0 < d < |path|
    ensures Towers(mem, Del(path, d), Del(h, d)) && path[d] !in Del(path, d) && path[d] in mem && path[d] != NULL
  {
    hide Del;
    var t := Del(path, d);
    forall j, k | 0 <= j < k < |t| ensures t[j] != t[k] {
      var (a, b) := (if j < d then j else j + 1, if k < d then k else k + 1);
      assert t[j] == path[a] && t[k] == path[b];
    }
  }

  lemma DeletedEnds(mem: Cells, path: seq<Ptr>, h: seq<nat>, items: seq<Entry>, p: nat, level: nat)
    requires Towers(mem, path, h) && Heights(mem, h, level) && p + 1 < |path| && |items| == |path| - 1 && Sorted(items)
    ensures Sorted(items[..p] + items[p + 1..]) && |items[..p] + items[p + 1..]| == |items| - 1
    ensures path[p + 1] !in Del(path, p + 1) && Heights(mem, Del(h, p + 1), level)
  {
    hide Less, Del;
    DelTowers(mem, path, h, p + 1);
  }

  /** What lies ahead of the deleted node. */
  lemma DeleteAhead(mem0: Cells, mem1: Cells, path: seq<Ptr>, h: seq<nat>, p: nat, level: nat)
    requires Towers(mem0, path, h) && Linked(mem0, path, h, level) && Heights(mem0, h, level) && p + 1 < |path|
    requires Kept(mem0, mem1, level) && path[p + 1] in mem1 && mem1[path[p + 1]] == mem0[path[p + 1]]
    ensures 0 < |mem1[path[p + 1]].levels| && HDR in mem1 && |mem1[HDR].levels| == ZSKIPLIST_MAXLEVEL
    ensures mem1[path[p + 1]].levels[0].forward == if p + 2 < |path| then path[p + 2] else NULL
    ensures p + 2 < |path| ==> path[p + 2] in mem1 && path[p + 2] != NULL
  {
    hide Next;
    assert RightLink(mem0, path, h, p + 1, 0);
    NextIs(h, p + 1, 0, p + 2);
  }

  /** Nodes that agree except for the link back of one of them. */
  ghost predicate OneBack(mem1: Cells, mem2: Cells, f: Ptr, b: Ptr) {
    && mem2.Keys == mem1.Keys
    && forall a | a in mem1 ::
         && mem2[a].entry == mem1[a].entry && mem2[a].levels == mem1[a].levels
         && mem2[a].backward == if a == f && f != NULL then b else mem1[a].backward
  }

  lemma DelLinked(mem1: Cells, mem2: Cells, f: Ptr, b: Ptr, path: seq<Ptr>, h: seq<nat>, level: nat)
    requires OneBack(mem1, mem2, f, b) && Linked(mem1, path, h, level) && Towers(mem1, path, h)
    ensures Linked(mem2, path, h, level) && Towers(mem2, path, h)
  {
    hide LinkAt;
    forall j: nat, l: nat | j < |h| && l < h[j] && l < level ensures RightLink(mem2, path, h, j, l) {
      assert RightLink(mem1, path, h, j, l);
    }
  }

  lemma DelNamed(mem0: Cells, mem1: Cells, mem2: Cells, f: Ptr, b: Ptr, path: seq<Ptr>, items: seq<Entry>, p: nat,
                 level: nat)
    requires OneBack(mem1, mem2, f, b) && Kept(mem0, mem1, level) && Named(mem0, path, items) && p + 1 < |path|
    ensures Named(mem2, Del(path, p + 1), items[..p] + items[p + 1..])
  {
    hide Del;
    var (t, s) := (Del(path, p + 1), items[..p] + items[p + 1..]);
    assert t[0] == path[0];
    forall j | 1 <= j < |t| ensures t[j] in mem2 && mem2[t[j]].entry == Some(s[j - 1]) {
      if j <= p { assert t[j] == path[j]; } else { assert t[j] == path[j + 1]; }
    }
  }

  lemma DelBacks(mem0: Cells, mem1: Cells, mem2: Cells, f: Ptr, b: Ptr, path: seq<Ptr>, h: seq<nat>,
                 tail: Ptr, tail': Ptr, p: nat, level: nat)
    requires OneBack(mem1, mem2, f, b) && Kept(mem0, mem1, level) && Backs(mem0, path, tail) && p + 1 < |path|
    requires Towers(mem0, path, h) && b == mem0[path[p + 1]].backward
    requires f == (if p + 2 < |path| then path[p + 2] else NULL) && tail' == (if p + 2 < |path| then tail else b)
    ensures Backs(mem2, Del(path, p + 1), tail')
  {
    hide Del;
    var t := Del(path, p + 1);
    forall j | 0 <= j < |t| ensures t[j] in mem2 {
      if j <= p { assert t[j] == path[j]; } else { assert t[j] == path[j + 1]; }
    }
    forall j | 1 <= j < |t| ensures mem2[t[j]].backward == if j == 1 then NULL else t[j - 1] {
      if j <= p {
        assert t[j] == path[j] && t[j - 1] == path[j - 1];
      } else if j == p + 1 {
        assert t[j] == path[p + 2] && t[p] == path[p];
      } else {
        assert t[j] == path[j + 1] && t[j - 1] == path[j];
      }
    }
  }

  lemma DeleteDone(mem0: Cells, mem1: Cells, mem2: Cells, path: seq<Ptr>, h: seq<nat>, items: seq<Entry>,
                   tail: Ptr, tail': Ptr, p: nat, level: nat)
    requires Towers(mem0, path, h) && Named(mem0, path, items) && Backs(mem0, path, tail)
    requires p + 1 < |path| && Kept(mem0, mem1, level)
    requires Linked(mem1, Del(path, p + 1), Del(h, p + 1), level) && Towers(mem1, Del(path, p + 1), Del(h, p + 1))
    requires Heights(mem0, Del(h, p + 1), level) && path[p + 1] in mem1
    requires OneBack(mem1, mem2, if p + 2 < |path| then path[p + 2] else NULL, mem1[path[p + 1]].backward)
    requires tail' == if p + 2 < |path| then tail else mem1[path[p + 1]].backward
    ensures Linked(mem2, Del(path, p + 1), Del(h, p + 1), level) && Towers(mem2, Del(path, p + 1), Del(h, p + 1))
    ensures Named(mem2, Del(path, p + 1), items[..p] + items[p + 1..]) && Backs(mem2, Del(path, p + 1), tail')
    ensures Heights(mem2, Del(h, p + 1), level) && mem2.Keys == mem0.Keys
  {
    hide Del, Linked, Named, Backs;
    var b := mem1[path[p + 1]].backward;
    var f := if p + 2 < |path| then path[p + 2] else NULL;
    DelLinked(mem1, mem2, f, b, Del(path, p + 1), Del(h, p + 1), level);
    DelNamed(mem0, mem1, mem2, f, b, path, items, p, level);
    DelBacks(mem0, mem1, mem2, f, b, path, h, tail, tail', p, level);
  }

  /** A level that leads nowhere is not in use. */
  lemma LowerLevel(mem: Cells, path: seq<Ptr>, h: seq<nat>, level: nat)
    requires Linked(mem, path, h, level) && Heights(mem, h, level) && Towers(mem, path, h) && level > 1
    requires mem[HDR].levels[level - 1].forward == NULL
    ensures Linked(mem, path, h, level - 1) && Heights(mem, h, level - 1)
  {
    hide Next;
    assert RightLink(mem, path, h, 0, level - 1);
    var k := Next(h, 0, level - 1);
    assert forall m | 0 <= m < |path| :: path[m] != NULL;
  }

  lemma Freed(mem: Cells, x: Ptr, path: seq<Ptr>, h: seq<nat>, items: seq<Entry>, tail: Ptr, level: nat)
    requires Towers(mem, path, h) && Linked(mem, path, h, level) && x !in path
    requires Named(mem, path, items) && Backs(mem, path, tail) && Heights(mem, h, level)
    ensures Towers(mem - {x}, path, h) && Linked(mem - {x}, path, h, level)
    ensures Named(mem - {x}, path, items) && Backs(mem - {x}, path, tail) && Heights(mem - {x}, h, level)
  {
    hide LinkAt;
    var m := mem - {x};
    forall j: nat, l: nat | j < |h| && l < h[j] && l < level ensures RightLink(m, path, h, j, l) {
      assert RightLink(mem, path, h, j, l);
    }
    assert forall j | 0 <= j < |path| :: path[j] in path;
  }

  const LONG_MAX: int := 0x7FFF_FFFF_FFFF_FFFF
  const ULONG: int := 0x1_0000_0000_0000_0000
  const ZSKIPLIST_MAX_SEARCH: int := 10

  lemma Removed(s: seq<Entry>, p: nat, q: nat, removed: nat)
    requires q <= |s| && p + removed <= |s| && (p + removed == |s| || q <= p + removed)
             && (removed > 0 ==> p + removed <= q)
    ensures s[..p] + s[p + removed..] == if p < q then s[..p] + s[q..] else s
    ensures removed == if p < q then |s[p..q]| else 0
  {
  }

  lemma AtMost(s: seq<Entry>, range: Range, q: nat, i: nat)
    requires Prefix(s, UpToMax(range), q) && i < |s|
    ensures ValueLteMax(s[i].score, range) <==> i < q
  {
    assert UpToMax(range)(s[i]) <==> i < q;
  }

  lemma AtLeast(s: seq<Entry>, range: Range, p: nat, i: nat)
    requires Prefix(s, BelowMin(range), p) && i < |s|
    ensures ValueGteMin(s[i].score, range) <==> p <= i
  {
    assert BelowMin(range)(s[i]) <==> i < p;
  }

  /** A negative distance in an unsigned variable is larger than any list. */
  lemma WrappedRank(d: int)
    requires -LONG_MAX <= d <= LONG_MAX
    ensures d % ULONG == if d >= 0 then d else d + ULONG
  {
  }

  lemma SliceAgain(s: seq<Entry>, p: nat, k: nat)
    requires p <= k < |s|
    ensures var t := s[..p] + s[k..]; t[..p] + t[p + 1..] == s[..p] + s[k + 1..]
  {
  }

  lemma Rescored(mem: Cells, x: Ptr, path: seq<Ptr>, h: seq<nat>, items: seq<Entry>, tail: Ptr, level: nat, p: nat,
                 n: Entry)
    requires Towers(mem, path, h) && Linked(mem, path, h, level) && p + 1 < |path| && x == path[p + 1]
    requires Named(mem, path, items) && Backs(mem, path, tail) && Heights(mem, h, level)
    ensures var m := mem[x := mem[x].(entry := Some(n))];
            && Towers(m, path, h) && Linked(m, path, h, level) && Named(m, path, items[p := n])
            && Backs(m, path, tail) && Heights(m, h, level)
  {
    hide LinkAt;
    var m := mem[x := mem[x].(entry := Some(n))];
    forall j: nat, l: nat | j < |h| && l < h[j] && l < level ensures RightLink(m, path, h, j, l) {
      assert RightLink(mem, path, h, j, l);
    }
    assert path[0] != x;
    forall j | 1 <= j < |path| && j != p + 1 ensures path[j] != x { }
  }

  lemma InsertKeeps(path0: seq<Ptr>, path: seq<Ptr>, p: nat, node: Ptr, x: Ptr)
    requires p < |path0| && path == Ins(path0, p, node) && x !in path0 && x != node
    ensures x !in path
  {
  }

  lemma InsApart(path: seq<Ptr>, p: nat, x: Ptr, j: nat, k: nat)
    requires p < |path| && x !in path && j < k <= |path|
    requires forall a, b | 0 <= a < b < |path| :: path[a] != path[b]
    ensures Ins(path, p, x)[j] != Ins(path, p, x)[k]
  {
    hide Ins;
    var a := if j <= p then j else j - 1;
    var b := if k <= p then k else k - 1;
    if j != p + 1 { assert Ins(path, p, x)[j] == path[a]; }
    if k != p + 1 { assert Ins(path, p, x)[k] == path[b]; }
  }

  lemma HigherLevel(mem: Cells, h: seq<nat>, level: nat, lvl: nat)
    requires Heights(mem, h, level) && level <= lvl <= ZSKIPLIST_MAXLEVEL
    ensures Heights(mem, h, lvl) && forall j | 1 <= j < |h| :: h[j] >= 1
  {
  }

  lemma Unmoved(mem: Cells, n: nat)
    ensures Kept(mem, mem, n)
  {
  }

  /** A new node leaves the list as it was. */
  lemma NodeAdded(mem0: Cells, mem: Cells, path: seq<Ptr>, h: seq<nat>, items: seq<Entry>, tail: Ptr, level: nat,
                  x: Ptr, nd: SkipNode)
    requires Towers(mem0, path, h) && Named(mem0, path, items) && Backs(mem0, path, tail) && Heights(mem0, h, level)
    requires Kept(mem0, mem, level) && Linked(mem, path, h, level) && x !in mem0
    ensures var m := mem[x := nd];
            && Towers(m, path, h) && Named(m, path, items) && Backs(m, path, tail) && Heights(m, h, level)
            && Linked(m, path, h, level) && x !in path && m.Keys == mem0.Keys + {x}
  {
    var m := mem[x := nd];
    forall j: nat, l: nat | j < |h| && l < h[j] && l < level ensures RightLink(m, path, h, j, l) {
      assert RightLink(mem, path, h, j, l);
    }
  }

  /** What lies ahead of the new node. */
  lemma InsertAhead(mem: Cells, mem': Cells, path: seq<Ptr>, h: seq<nat>, p: nat, x: Ptr, v: nat, level: nat)
    requires Towers(mem, path, h) && Kept(mem, mem', level) && p < |h| && x in mem && |mem[x].levels| == v >= 1
             && x !in path
    requires Linked(mem', Ins(path, p, x), Ins(h, p, v), level) && level >= 1 && forall j | 1 <= j < |h| :: h[j] >= 1
    ensures x in mem' && 0 < |mem'[x].levels|
    ensures mem'[x].levels[0].forward == if p + 1 < |path| then path[p + 1] else NULL
    ensures p + 1 < |path| ==> path[p + 1] in mem' && path[p + 1] != x && path[p + 1] != NULL
  {
    hide Next;
    var (path', h') := (Ins(path, p, x), Ins(h, p, v));
    assert RightLink(mem', path', h', p + 1, 0);
    NextIs(h', p + 1, 0, p + 2);
  }

  /** No tower but the header reaches level `i`, and the header leads nowhere from there on. */
  ghost predicate Free(mem: Cells, h: seq<nat>, i: nat) {
    && HDR in mem && |mem[HDR].levels| == ZSKIPLIST_MAXLEVEL
    && (forall j | 1 <= j < |h| :: h[j] <= i)
    && forall l | i <= l < ZSKIPLIST_MAXLEVEL :: mem[HDR].levels[l].forward == NULL
  }

  lemma Idle(mem: Cells, path: seq<Ptr>, h: seq<nat>, level: nat, lvl: nat)
    requires Heights(mem, h, level)
    ensures Free(mem, h, level) && Kept(mem, mem, lvl)
  {
  }

  lemma FreeLast(mem: Cells, h: seq<nat>, p: nat, i: nat)
    requires Free(mem, h, i) && p < |h| && h[0] > i
    ensures Last(h, p, i) == 0
  {
    LastIs(h, p, i, 0);
  }

  /** The header's link at a level that no other tower reaches. */
  lemma GrowLevel(mem0: Cells, mem: Cells, path: seq<Ptr>, h: seq<nat>, i: nat, n: nat, lvl: nat)
    requires Towers(mem, path, h) && Linked(mem, path, h, i) && i < lvl <= ZSKIPLIST_MAXLEVEL && n + 1 == |h|
    requires Free(mem, h, i) && Kept(mem0, mem, lvl)
    ensures var mem' := SetLink(mem, HDR, i, mem[HDR].levels[i].(span := n));
            Towers(mem', path, h) && Linked(mem', path, h, i + 1) && Free(mem', h, i + 1) && Kept(mem0, mem', lvl)
  {
    hide Next;
    var mem' := SetLink(mem, HDR, i, mem[HDR].levels[i].(span := n));
    NextIs(h, 0, i, |h|);
    forall j: nat, l: nat | j < |h| && l < h[j] && l < i + 1 ensures RightLink(mem', path, h, j, l) {
      if l < i { assert RightLink(mem, path, h, j, l); }
    }
  }
}
