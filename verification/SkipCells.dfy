/** Nodes of a skip list in memory, src/list/skiplist.c, and what it means that they hold towers. */
module SkipCells {
  import opened Options
  import opened SkipLevels

  const ZSKIPLIST_MAXLEVEL: nat := 32

  datatype Entry = Entry(score: real, ele: int)

  /** The order of the list: by score, then by element. */
  predicate Less(a: Entry, b: Entry) {
    a.score < b.score || (a.score == b.score && a.ele < b.ele)
  }

  datatype SkipNode = SkipNode(entry: Option<Entry>, backward: Ptr, levels: seq<Level>)

  type Cells = map<Ptr, SkipNode>

  /** Write one link. */
  function SetLink(mem: Cells, p: Ptr, i: nat, k: Level): Cells
    requires p in mem && i < |mem[p].levels|
  {
    mem[p := mem[p].(levels := mem[p].levels[i := k])]
  }

  /** The addresses of the towers are apart, and each tower is as high as it should be. */
  ghost predicate Towers(mem: Cells, path: seq<Ptr>, h: seq<nat>) {
    && |path| == |h| > 0 && path[0] == HDR && h[0] == ZSKIPLIST_MAXLEVEL
    && (forall j, k | 0 <= j < k < |path| :: path[j] != path[k])
    && (forall j | 0 <= j < |path| :: path[j] != NULL && path[j] in mem && |mem[path[j]].levels| == h[j])
  }

  /** The link at level `l` of tower `j` is right. */
  predicate RightLink(mem: Cells, path: seq<Ptr>, h: seq<nat>, j: nat, l: nat)
    requires |path| == |h| && j < |h|
  {
    path[j] in mem && l < |mem[path[j]].levels| && mem[path[j]].levels[l] == LinkAt(path, h, j, l)
  }

  /** All links below `level` are right. */
  ghost predicate Linked(mem: Cells, path: seq<Ptr>, h: seq<nat>, level: nat) {
    |path| == |h| && forall j: nat, l: nat | j < |h| && l < h[j] && l < level :: RightLink(mem, path, h, j, l)
  }

  /** Half way through the insertion of tower `x` of height `v` after place `p`: the links below
      level `i` are the new ones, the others are the old ones. */
  ghost predicate Threading(mem: Cells, path: seq<Ptr>, h: seq<nat>, p: nat, x: Ptr, v: nat, level: nat, i: nat) {
    && |path| == |h| && p < |h|
    && (forall j: nat, l: nat | j <= |h| && l < Ins(h, p, v)[j] && l < i ::
       RightLink(mem, Ins(path, p, x), Ins(h, p, v), j, l))
    && (forall j: nat, l: nat | j < |h| && l < h[j] && i <= l < level :: RightLink(mem, path, h, j, l))
  }

  /** Two memories whose nodes agree except for the links at one level of two of them. */
  ghost predicate OneLevel(mem: Cells, mem': Cells, x: Ptr, u: Ptr, i: nat) {
    && mem'.Keys == mem.Keys
    && forall a | a in mem ::
         && mem'[a].entry == mem[a].entry && mem'[a].backward == mem[a].backward
         && |mem'[a].levels| == |mem[a].levels|
         && forall l | 0 <= l < |mem[a].levels| && ((a != x && a != u) || l != i) ::
            mem'[a].levels[l] == mem[a].levels[l]
  }

  lemma LinkWritten(mem: Cells, p: Ptr, i: nat, k: Level, x: Ptr)
    requires p in mem && i < |mem[p].levels|
    ensures OneLevel(mem, SetLink(mem, p, i, k), x, p, i) && OneLevel(mem, SetLink(mem, p, i, k), p, x, i)
    ensures SetLink(mem, p, i, k)[p].levels[i] == k
  {
  }

  /** A right link stays right when its cell is not written. */
  lemma LinkStays(mem: Cells, mem': Cells, x: Ptr, u: Ptr, i: nat, path: seq<Ptr>, h: seq<nat>, j: nat, l: nat)
    requires OneLevel(mem, mem', x, u, i) && |path| == |h| && j < |h| && RightLink(mem, path, h, j, l)
    requires l != i || (path[j] != x && path[j] != u)
    ensures RightLink(mem', path, h, j, l)
  {
    hide LinkAt;
  }

  /** One level of an insertion: `u` is the last tower before the place that reaches level `i`. */
  lemma ThreadStep(mem: Cells, mem': Cells, path: seq<Ptr>, h: seq<nat>, p: nat, x: Ptr, v: nat, level: nat, i: nat)
    requires Threading(mem, path, h, p, x, v, level, i) && Towers(mem, path, h) && i < level <= ZSKIPLIST_MAXLEVEL
    requires x in mem && x !in path && |mem[x].levels| == v
    requires OneLevel(mem, mem', x, path[Last(h, p, i)], i)
    requires var u := Last(h, p, i);
             && i < |mem'[path[u]].levels|
             && mem'[path[u]].levels[i] == LinkAt(Ins(path, p, x), Ins(h, p, v), u, i)
             && (i < v ==> mem'[x].levels[i] == LinkAt(Ins(path, p, x), Ins(h, p, v), p + 1, i))
    ensures Threading(mem', path, h, p, x, v, level, i + 1)
  {
    hide LinkAt, Last, Ins;
    var (path', h', u) := (Ins(path, p, x), Ins(h, p, v), Last(h, p, i));
    forall j: nat, l: nat | j <= |h| && l < h'[j] && l < i + 1 ensures RightLink(mem', path', h', j, l) {
      if l < i {
        LinkStays(mem, mem', x, path[u], i, path', h', j, l);
      } else if j != p + 1 && j != u {
        var k := if j <= p then j else j - 1;
        assert h[k] == h'[j] && path'[j] == path[k] && RightLink(mem, path, h, k, i);
        LinkElsewhere(path, h, p, x, v, k, i);
      }
    }
    forall j: nat, l: nat | j < |h| && l < h[j] && i + 1 <= l < level ensures RightLink(mem', path, h, j, l) {
      LinkStays(mem, mem', x, path[u], i, path, h, j, l);
    }
  }

  /** Half way through the deletion of tower `x` after place `p`: the links below level `i` no
      longer count it, the others do. */
  ghost predicate Unthreading(mem: Cells, path: seq<Ptr>, h: seq<nat>, p: nat, x: Ptr, v: nat, level: nat, i: nat) {
    && |path| == |h| && p < |h|
    && (forall j: nat, l: nat | j < |h| && l < h[j] && l < i :: RightLink(mem, path, h, j, l))
    && (forall j: nat, l: nat | j <= |h| && l < Ins(h, p, v)[j] && i <= l < level ::
       RightLink(mem, Ins(path, p, x), Ins(h, p, v), j, l))
  }

  lemma UnthreadStep(mem: Cells, mem': Cells, path: seq<Ptr>, h: seq<nat>, p: nat, x: Ptr, v: nat, level: nat, i: nat)
    requires Unthreading(mem, path, h, p, x, v, level, i) && Towers(mem, path, h) && i < level <= ZSKIPLIST_MAXLEVEL
    requires x !in path && OneLevel(mem, mem', path[Last(h, p, i)], path[Last(h, p, i)], i)
    requires var u := Last(h, p, i);
             i < |mem'[path[u]].levels| && mem'[path[u]].levels[i] == LinkAt(path, h, u, i)
    ensures Unthreading(mem', path, h, p, x, v, level, i + 1)
  {
    hide LinkAt, Last, Ins;
    var (path', h', u) := (Ins(path, p, x), Ins(h, p, v), Last(h, p, i));
    forall j: nat, l: nat | j < |h| && l < h[j] && l < i + 1 ensures RightLink(mem', path, h, j, l) {
      if l < i {
        LinkStays(mem, mem', path[u], path[u], i, path, h, j, l);
      } else if j != u {
        var k := if j <= p then j else j + 1;
        assert h'[k] == h[j] && path'[k] == path[j] && RightLink(mem, path', h', k, i);
        LinkElsewhere(path, h, p, x, v, j, i);
      }
    }
    forall j: nat, l: nat | j <= |h| && l < h'[j] && i + 1 <= l < level ensures RightLink(mem', path', h', j, l) {
      LinkStays(mem, mem', path[u], path[u], i, path', h', j, l);
    }
  }

  /** Nodes that agree except for their links below level `n`. */
  ghost predicate Kept(mem: Cells, mem': Cells, n: nat) {
    && mem'.Keys == mem.Keys
    && forall a | a in mem ::
         && mem'[a].entry == mem[a].entry && mem'[a].backward == mem[a].backward
         && |mem'[a].levels| == |mem[a].levels|
         && forall l | n <= l < |mem[a].levels| :: mem'[a].levels[l] == mem[a].levels[l]
  }

  lemma KeptStep(mem0: Cells, mem: Cells, mem': Cells, x: Ptr, u: Ptr, i: nat, n: nat)
    requires Kept(mem0, mem, n) && OneLevel(mem, mem', x, u, i) && i < n
    ensures Kept(mem0, mem', n)
  {
  }

  /** Two links written at one level. */
  lemma TwoWritten(mem: Cells, x: Ptr, u: Ptr, i: nat, a: Level, b: Level)
    requires x in mem && u in mem && x != u && i < |mem[x].levels| && i < |mem[u].levels|
    ensures var m1 := SetLink(mem, x, i, a);
            && u in m1 && i < |m1[u].levels|
            && var m2 := SetLink(m1, u, i, b);
               OneLevel(mem, m2, x, u, i) && m2[x].levels[i] == a && m2[u].levels[i] == b
               && x in m2 && u in m2 && |m2[x].levels| == |mem[x].levels| && |m2[u].levels| == |mem[u].levels|
  {
  }

  lemma ThreadStart(mem: Cells, path: seq<Ptr>, h: seq<nat>, p: nat, x: Ptr, v: nat, level: nat)
    requires Linked(mem, path, h, level) && p < |h|
    ensures Threading(mem, path, h, p, x, v, level, 0) && Kept(mem, mem, level)
  {
    hide LinkAt;
  }

  lemma ThreadEnd(mem: Cells, path: seq<Ptr>, h: seq<nat>, p: nat, x: Ptr, v: nat, level: nat)
    requires Threading(mem, path, h, p, x, v, level, level)
    ensures Linked(mem, Ins(path, p, x), Ins(h, p, v), level)
  {
    hide LinkAt;
  }

  lemma KeptTowers(mem: Cells, mem': Cells, x: Ptr, u: Ptr, i: nat, path: seq<Ptr>, h: seq<nat>)
    requires Towers(mem, path, h) && OneLevel(mem, mem', x, u, i)
    ensures Towers(mem', path, h)
  {
  }

  /** The writes of the insertion at level `i`. */
  function ThreadWrites(mem: Cells, x: Ptr, u: Ptr, i: nat, n: nat, v: nat): Cells
    requires x in mem && u in mem && x != u && i < |mem[u].levels|
             && (i < v ==> i < |mem[x].levels| && mem[u].levels[i].span >= n)
  {
    var f := mem[u].levels[i];
    if i < v then
      var m1 := SetLink(mem, x, i, Level(f.forward, f.span - n));
      SetLink(m1, u, i, Level(x, n + 1))
    else SetLink(mem, u, i, Level(f.forward, f.span + 1))
  }

  lemma ThreadAt(mem0: Cells, mem: Cells, path: seq<Ptr>, h: seq<nat>, p: nat, x: Ptr, v: nat, level: nat, i: nat)
    requires Threading(mem, path, h, p, x, v, level, i) && Towers(mem, path, h) && i < level <= ZSKIPLIST_MAXLEVEL
    requires x in mem && x !in path && x != NULL && |mem[x].levels| == v && Kept(mem0, mem, level)
    ensures var (u, n) := (Last(h, p, i), p - Last(h, p, i));
            && u < |path| && path[u] in mem && path[u] != x && i < |mem[path[u]].levels|
            && (i < v ==> mem[path[u]].levels[i].span >= n)
            && var mem' := ThreadWrites(mem, x, path[u], i, n, v);
               && Threading(mem', path, h, p, x, v, level, i + 1) && Towers(mem', path, h) && Kept(mem0, mem', level)
               && x in mem' && |mem'[x].levels| == v
  {
    hide LinkAt, Last, Ins, SetLink, OneLevel, Kept;
    var (u, n) := (Last(h, p, i), p - Last(h, p, i));
    assert RightLink(mem, path, h, u, i);
    LinkNew(path, h, p, x, v, i);
    LinkOver(path, h, p, x, v, i);
    var f := mem[path[u]].levels[i];
    if i < v {
      TwoWritten(mem, x, path[u], i, Level(f.forward, f.span - n), Level(x, n + 1));
    } else {
      LinkWritten(mem, path[u], i, Level(f.forward, f.span + 1), x);
      HeightKept(mem, path[u], i, Level(f.forward, f.span + 1), x);
    }
    var mem' := ThreadWrites(mem, x, path[u], i, n, v);
    ThreadStep(mem, mem', path, h, p, x, v, level, i);
    KeptTowers(mem, mem', x, path[u], i, path, h);
    KeptStep(mem0, mem, mem', x, path[u], i, level);
  }

  lemma HeightKept(mem: Cells, p: Ptr, i: nat, k: Level, x: Ptr)
    requires p in mem && i < |mem[p].levels| && x in mem
    ensures var m := SetLink(mem, p, i, k);
            x in m && p in m && |m[x].levels| == |mem[x].levels| && |m[p].levels| == |mem[p].levels|
    ensures x != p ==> SetLink(mem, p, i, k)[x] == mem[x]
  {
  }

  /** The writes of a deletion at level `i`: `u` is the last tower before `x`. */
  function UnthreadWrites(mem: Cells, x: Ptr, u: Ptr, i: nat): Cells
    requires x in mem && u in mem && i < |mem[u].levels|
    requires mem[u].levels[i].forward == x ==> i < |mem[x].levels| && mem[u].levels[i].span + mem[x].levels[i].span >= 1
    requires mem[u].levels[i].forward != x ==> mem[u].levels[i].span >= 1
  {
    var f := mem[u].levels[i];
    if f.forward == x then SetLink(mem, u, i, Level(mem[x].levels[i].forward, f.span + mem[x].levels[i].span - 1))
    else SetLink(mem, u, i, Level(f.forward, f.span - 1))
  }

  lemma UnthreadAt(mem0: Cells, mem: Cells, path: seq<Ptr>, h: seq<nat>, p: nat, x: Ptr, v: nat, level: nat, i: nat)
    requires Unthreading(mem, path, h, p, x, v, level, i) && Towers(mem, path, h) && i < level <= ZSKIPLIST_MAXLEVEL
    requires x in mem && x !in path && x != NULL && Kept(mem0, mem, level)
    ensures var u := Last(h, p, i);
            && u < |path| && path[u] in mem && path[u] != x && i < |mem[path[u]].levels|
            && (mem[path[u]].levels[i].forward == x ==>
                  i < |mem[x].levels| && mem[path[u]].levels[i].span + mem[x].levels[i].span >= 1)
            && (mem[path[u]].levels[i].forward != x ==> mem[path[u]].levels[i].span >= 1)
            && var mem' := UnthreadWrites(mem, x, path[u], i);
               && Unthreading(mem', path, h, p, x, v, level, i + 1) && Towers(mem', path, h) && Kept(mem0, mem', level)
               && x in mem' && mem'[x] == mem[x]
  {
    hide LinkAt, Last, Ins, SetLink, OneLevel, Kept;
    var u := Last(h, p, i);
    assert Ins(path, p, x)[u] == path[u] && Ins(h, p, v)[u] == h[u];
    assert RightLink(mem, Ins(path, p, x), Ins(h, p, v), u, i);
    if i < v { assert RightLink(mem, Ins(path, p, x), Ins(h, p, v), p + 1, i); }
    LinkNew(path, h, p, x, v, i);
    LinkOver(path, h, p, x, v, i);
    LinkLeads(path, h, p, x, v, i);
    var f := mem[path[u]].levels[i];
    var k := if f.forward == x then Level(mem[x].levels[i].forward, f.span + mem[x].levels[i].span - 1)
             else Level(f.forward, f.span - 1);
    LinkWritten(mem, path[u], i, k, path[u]);
    HeightKept(mem, path[u], i, k, x);
    var mem' := UnthreadWrites(mem, x, path[u], i);
    UnthreadStep(mem, mem', path, h, p, x, v, level, i);
    KeptTowers(mem, mem', path[u], path[u], i, path, h);
    KeptStep(mem0, mem, mem', path[u], path[u], i, level);
  }

  lemma UnthreadStart(mem: Cells, path: seq<Ptr>, h: seq<nat>, p: nat, x: Ptr, v: nat, level: nat)
    requires |path| == |h| && p < |h| && Linked(mem, Ins(path, p, x), Ins(h, p, v), level)
    ensures Unthreading(mem, path, h, p, x, v, level, 0) && Kept(mem, mem, level)
  {
    hide LinkAt;
  }

  lemma UnthreadEnd(mem: Cells, path: seq<Ptr>, h: seq<nat>, p: nat, x: Ptr, v: nat, level: nat)
    requires Unthreading(mem, path, h, p, x, v, level, level)
    ensures Linked(mem, path, h, level)
  {
    hide LinkAt;
  }

  /** The sequence without its element at `d`. */
  function Del<T>(s: seq<T>, d: nat): (t: seq<T>)
    requires 0 < d < |s|
    ensures |t| == |s| - 1 && Ins(t, d - 1, s[d]) == s
    ensures forall j | 0 <= j < d :: t[j] == s[j]
    ensures forall j | d <= j < |t| :: t[j] == s[j + 1]
  {
    s[..d] + s[d + 1..]
  }

  lemma LastOfDel(h: seq<nat>, d: nat, l: nat)
    requires 0 < d < |h| && h[0] > l
    ensures Last(Del(h, d), d - 1, l) == Last(h, d - 1, l)
  {
    hide Last, Del;
    LastIs(Del(h, d), d - 1, l, Last(h, d - 1, l));
  }

  // ---------------------------------------------------------------- the order

  ghost predicate Sorted(s: seq<Entry>) {
    forall i, j | 0 <= i < j < |s| :: Less(s[i], s[j])
  }

  /** The number of entries in front that satisfy `below`. */
  ghost predicate Prefix(s: seq<Entry>, below: Entry -> bool, p: nat) {
    p <= |s| && forall i | 0 <= i < |s| :: below(s[i]) <==> i < p
  }

  /** The number of entries below `x`. */
  function Rank(s: seq<Entry>, x: Entry): (p: nat)
    ensures p <= |s|
  {
    if s == [] || !Less(s[0], x) then 0 else 1 + Rank(s[1..], x)
  }

  lemma {:induction false} RankIsPrefix(s: seq<Entry>, x: Entry)
    requires Sorted(s)
    ensures Prefix(s, y => Less(y, x), Rank(s, x))
    ensures x in s <==> Rank(s, x) < |s| && s[Rank(s, x)] == x
  {
    if s != [] && Less(s[0], x) {
      RankIsPrefix(s[1..], x);
      forall i | 0 <= i < |s| ensures Less(s[i], x) <==> i < Rank(s, x) {
        if i > 0 { assert s[i] == s[1..][i - 1]; }
      }
      assert x in s <==> x in s[1..];
    }
  }

  /** The number of entries up to `x`. */
  function RankUpTo(s: seq<Entry>, x: Entry): nat {
    if x in s then Rank(s, x) + 1 else Rank(s, x)
  }

  predicate UpTo(y: Entry, x: Entry) {
    Less(y, x) || y == x
  }

  lemma RankUpToIsPrefix(s: seq<Entry>, x: Entry)
    requires Sorted(s)
    ensures Prefix(s, y => UpTo(y, x), RankUpTo(s, x))
    ensures forall i | 0 <= i < |s| && s[i] == x :: Rank(s, x) == i && RankUpTo(s, x) == i + 1
  {
    hide Rank, Less;
    RankIsPrefix(s, x);
    var f := y => Less(y, x);
    var r := Rank(s, x);
    forall i | 0 <= i < |s| ensures UpTo(s[i], x) <==> i < RankUpTo(s, x) {
      assert f(s[i]) <==> i < r;
      Total(s[i], x);
      if x in s { Total(s[i], s[r]); }
    }
    forall i | 0 <= i < |s| && s[i] == x ensures r == i {
      assert f(s[i]) <==> i < r;
      Total(x, x);
    }
  }

  function Inserted(s: seq<Entry>, x: Entry): seq<Entry> {
    s[..Rank(s, x)] + [x] + s[Rank(s, x)..]
  }

  function Deleted(s: seq<Entry>, x: Entry): seq<Entry> {
    if Rank(s, x) < |s| && s[Rank(s, x)] == x then s[..Rank(s, x)] + s[Rank(s, x) + 1..] else s
  }

  lemma Total(a: Entry, b: Entry)
    ensures Less(a, b) || Less(b, a) || a == b
    ensures !(Less(a, b) && Less(b, a)) && !Less(a, a)
  {
  }

  /** Where an entry that is not there belongs. */
  lemma Around(s: seq<Entry>, x: Entry)
    requires Sorted(s) && x !in s
    ensures forall i | 0 <= i < |s| :: if i < Rank(s, x) then Less(s[i], x) else Less(x, s[i])
  {
    hide Rank, Less;
    RankIsPrefix(s, x);
    var f := y => Less(y, x);
    forall i | 0 <= i < |s| ensures if i < Rank(s, x) then Less(s[i], x) else Less(x, s[i]) {
      assert f(s[i]) == Less(s[i], x);
      Total(s[i], x);
    }
  }

  lemma InsertedSorted(s: seq<Entry>, x: Entry)
    requires Sorted(s) && x !in s
    ensures Sorted(Inserted(s, x)) && forall y :: y in Inserted(s, x) <==> y in s || y == x
  {
    hide Rank, Less;
    Around(s, x);
    assert s == s[..Rank(s, x)] + s[Rank(s, x)..];
  }

  lemma DeletedSorted(s: seq<Entry>, x: Entry)
    requires Sorted(s) && x in s
    ensures Sorted(Deleted(s, x)) && forall y :: y in Deleted(s, x) <==> y in s && y != x
  {
    hide Rank, Less;
    RankIsPrefix(s, x);
    var p := Rank(s, x);
    assert s == s[..p] + [s[p]] + s[p + 1..];
    forall i | 0 <= i < |s| && i != p ensures s[i] != x {
      Total(s[i], x);
    }
  }

  lemma DeletedIs(s: seq<Entry>, x: Entry)
    requires Sorted(s) && x in s
    ensures Rank(s, x) < |s| && s[Rank(s, x)] == x && Deleted(s, x) == s[..Rank(s, x)] + s[Rank(s, x) + 1..]
  {
    hide Rank, Less;
    RankIsPrefix(s, x);
  }

  lemma RankIs(s: seq<Entry>, x: Entry, p: nat)
    requires Sorted(s) && Prefix(s, y => Less(y, x), p)
    ensures Rank(s, x) == p
  {
    hide Rank, Less;
    RankIsPrefix(s, x);
    var (f, r) := (y => Less(y, x), Rank(s, x));
    if s != [] {
      var a := if r < |s| then r else 0;
      var b := if p < |s| then p else 0;
      assert f(s[a]) <==> a < r;
      assert f(s[b]) <==> b < r;
    }
  }

  /** A new score that keeps the entry between its neighbours: the entry can stay where it is. */
  lemma ScoreInPlace(s: seq<Entry>, p: nat, score: real)
    requires Sorted(s) && p < |s| && (p == 0 || s[p - 1].score < score) && (p + 1 == |s| || s[p + 1].score > score)
    ensures var n := Entry(score, s[p].ele);
            s[p := n] == Inserted(Deleted(s, s[p]), n) && Sorted(s[p := n])
  {
    hide Rank;
    var (x, n) := (s[p], Entry(score, s[p].ele));
    ScoresGrow(s);
    RankUpToIsPrefix(s, x);
    var t := Deleted(s, x);
    assert t == s[..p] + s[p + 1..];
    DeletedSorted(s, x);
    forall i | 0 <= i < |t| ensures Less(t[i], n) <==> i < p {
      assert t[i] == if i < p then s[i] else s[i + 1];
    }
    RankIs(t, n, p);
    RescoredSorted(s, p, n);
  }

  lemma RescoredSorted(s: seq<Entry>, p: nat, n: Entry)
    requires Sorted(s) && p < |s| && n.ele == s[p].ele
    requires (p == 0 || s[p - 1].score < n.score) && (p + 1 == |s| || s[p + 1].score > n.score)
    ensures Sorted(s[p := n])
  {
    ScoresGrow(s);
    var u := s[p := n];
    forall i, j | 0 <= i < j < |u| ensures Less(u[i], u[j]) {
      assert Less(s[i], s[j]);
    }
  }

  // ---------------------------------------------------------------- ranges of scores

  datatype Range = Range(min: real, max: real, minex: bool, maxex: bool)

  predicate ValueGteMin(value: real, spec: Range) {
    if spec.minex then value > spec.min else value >= spec.min
  }

  predicate ValueLteMax(value: real, spec: Range) {
    if spec.maxex then value < spec.max else value <= spec.max
  }

  predicate InRange(y: Entry, spec: Range) {
    ValueGteMin(y.score, spec) && ValueLteMax(y.score, spec)
  }

  function Inside(s: seq<Entry>, spec: Range): seq<Entry> {
    if s == [] then []
    else if InRange(s[0], spec) then [s[0]] + Inside(s[1..], spec)
    else Inside(s[1..], spec)
  }

  function Outside(s: seq<Entry>, spec: Range): seq<Entry> {
    if s == [] then []
    else if InRange(s[0], spec) then Outside(s[1..], spec)
    else [s[0]] + Outside(s[1..], spec)
  }

  /** The number of leading entries that satisfy `below`. */
  function Count(s: seq<Entry>, below: Entry -> bool): (p: nat)
    ensures p <= |s|
  {
    if s == [] || !below(s[0]) then 0 else 1 + Count(s[1..], below)
  }

  lemma {:induction false} CountIsPrefix(s: seq<Entry>, below: Entry -> bool)
    requires forall i, j | 0 <= i < j < |s| && below(s[j]) :: below(s[i])
    ensures Prefix(s, below, Count(s, below))
  {
    if s != [] && below(s[0]) {
      CountIsPrefix(s[1..], below);
      forall i | 0 <= i < |s| ensures below(s[i]) <==> i < Count(s, below) {
        if i > 0 { assert s[i] == s[1..][i - 1]; }
      }
    }
  }

  function BelowMin(spec: Range): Entry -> bool {
    (y: Entry) => !ValueGteMin(y.score, spec)
  }

  function UpToMax(spec: Range): Entry -> bool {
    (y: Entry) => ValueLteMax(y.score, spec)
  }

  lemma ScoresGrow(s: seq<Entry>)
    requires Sorted(s)
    ensures forall i, j | 0 <= i < j < |s| :: s[i].score <= s[j].score
  {
  }

  lemma RangePrefixes(s: seq<Entry>, spec: Range)
    requires Sorted(s)
    ensures Prefix(s, BelowMin(spec), Count(s, BelowMin(spec)))
    ensures Prefix(s, UpToMax(spec), Count(s, UpToMax(spec)))
  {
    ScoresGrow(s);
    CountIsPrefix(s, BelowMin(spec));
    CountIsPrefix(s, UpToMax(spec));
  }

  lemma FirstInRange(s: seq<Entry>, spec: Range, p: nat, q: nat)
    requires s != [] && Prefix(s, BelowMin(spec), p) && Prefix(s, UpToMax(spec), q)
    ensures InRange(s[0], spec) <==> p == 0 && 0 < q
    ensures Prefix(s[1..], BelowMin(spec), if p > 0 then p - 1 else 0)
    ensures Prefix(s[1..], UpToMax(spec), if q > 0 then q - 1 else 0)
  {
    TailPrefix(s, BelowMin(spec), p);
    TailPrefix(s, UpToMax(spec), q);
    assert BelowMin(spec)(s[0]) <==> 0 < p;
    assert UpToMax(spec)(s[0]) <==> 0 < q;
  }

  lemma TailPrefix(s: seq<Entry>, below: Entry -> bool, p: nat)
    requires s != [] && Prefix(s, below, p)
    ensures Prefix(s[1..], below, if p > 0 then p - 1 else 0)
  {
    var t := s[1..];
    forall i | 0 <= i < |t| ensures below(t[i]) <==> i < if p > 0 then p - 1 else 0 {
      assert t[i] == s[i + 1];
    }
  }

  /** On a sorted list a range is a slice: from the first entry that is not below the minimum to the
      last one that is not above the maximum. */
  lemma {:induction false} RangeIsSlice(s: seq<Entry>, spec: Range, p: nat, q: nat)
    requires Prefix(s, BelowMin(spec), p) && Prefix(s, UpToMax(spec), q)
    ensures p <= |s| && q <= |s|
    ensures Inside(s, spec) == if p < q then s[p..q] else []
    ensures Outside(s, spec) == if p < q then s[..p] + s[q..] else s
    decreases |s|
  {
    hide InRange;
    PrefixBound(s, BelowMin(spec), p);
    PrefixBound(s, UpToMax(spec), q);
    if s != [] {
      hide Prefix;
      FirstInRange(s, spec, p, q);
      RangeIsSlice(s[1..], spec, if p > 0 then p - 1 else 0, if q > 0 then q - 1 else 0);
      SliceStep(s, p, q);
    }
  }

  lemma PrefixBound(s: seq<Entry>, below: Entry -> bool, p: nat)
    requires Prefix(s, below, p)
    ensures p <= |s|
  {
  }

  lemma SliceStep(s: seq<Entry>, p: nat, q: nat)
    requires s != [] && p <= |s| && q <= |s|
    ensures 0 < p < q ==>
            s[1..][p - 1..q - 1] == s[p..q] && s[..p] + s[q..] == [s[0]] + (s[1..][..p - 1] + s[1..][q - 1..])
    ensures 0 == p < q ==> [s[0]] + s[1..][..q - 1] == s[..q] && s[1..][q - 1..] == s[q..]
    ensures s == [s[0]] + s[1..]
  {
  }

  /** A range that the source does not reject at once. */
  predicate Proper(spec: Range) {
    !(spec.min > spec.max || (spec.min == spec.max && (spec.minex || spec.maxex)))
  }

  lemma {:induction false} ImproperEmpty(s: seq<Entry>, spec: Range)
    requires !Proper(spec)
    ensures Inside(s, spec) == []
  {
    if s != [] { ImproperEmpty(s[1..], spec); }
  }

  lemma ProperOrder(s: seq<Entry>, spec: Range, p: nat, q: nat)
    requires Proper(spec) && Prefix(s, BelowMin(spec), p) && Prefix(s, UpToMax(spec), q)
    ensures p <= q
  {
    if 0 < p {
      assert BelowMin(spec)(s[p - 1]);
      assert UpToMax(spec)(s[p - 1]);
    }
  }
}
