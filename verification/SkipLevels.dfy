/** Towers and links of a skip list, as values.

    A list is a sequence of towers: `h[j]` is the height of tower `j`, and tower 0 is the header.
    At level `l` a tower links to the next tower that is higher than `l`; the link records how many
    places it skips, counting to the last tower when there is no next one. */
module SkipLevels {

  type Ptr = nat

  const NULL: Ptr := 0
  const HDR: Ptr := 1

  datatype Level = Level(forward: Ptr, span: nat)

  /** The next tower after `j` that is higher than `l`, or the length. */
  function Next(h: seq<nat>, j: nat, l: nat): (k: nat)
    requires j < |h|
    ensures j < k <= |h| && (k < |h| ==> h[k] > l)
    ensures forall m | j < m < k :: h[m] <= l
    decreases |h| - j
  {
    if j + 1 == |h| || h[j + 1] > l then j + 1 else Next(h, j + 1, l)
  }

  /** The last tower up to `p` that is higher than `l`. */
  function Last(h: seq<nat>, p: nat, l: nat): (j: nat)
    requires p < |h| && h[0] > l
    ensures j <= p && h[j] > l
    ensures forall m | j < m <= p :: h[m] <= l
  {
    if h[p] > l then p else Last(h, p - 1, l)
  }

  lemma NextIs(h: seq<nat>, j: nat, l: nat, k: nat)
    requires j < k <= |h| && (k < |h| ==> h[k] > l) && forall m | j < m < k :: h[m] <= l
    ensures Next(h, j, l) == k
  {
    hide Next;
    var n := Next(h, j, l);
    assert n < |h| ==> h[n] > l;
  }

  lemma LastIs(h: seq<nat>, p: nat, l: nat, j: nat)
    requires p < |h| && h[0] > l && j <= p && h[j] > l && forall m | j < m <= p :: h[m] <= l
    ensures Last(h, p, l) == j
  {
    hide Last;
    var n := Last(h, p, l);
    assert h[n] > l;
  }

  lemma NextFromLast(h: seq<nat>, p: nat, l: nat)
    requires p < |h| && h[0] > l
    ensures Next(h, Last(h, p, l), l) == Next(h, p, l)
  {
    hide Next, Last;
    NextIs(h, Last(h, p, l), l, Next(h, p, l));
  }

  /** A tower below the last one links to a place up to it. */
  lemma NextBeforeLast(h: seq<nat>, p: nat, l: nat, j: nat)
    requires p < |h| && h[0] > l && j <= p && h[j] > l
    ensures j <= Last(h, p, l) && (j < Last(h, p, l) ==> Next(h, j, l) <= p)
  {
    hide Next, Last;
    var u := Last(h, p, l);
    if j < u {
      var k := Next(h, j, l);
      assert h[u] > l;
    }
  }

  /** An element put after place `p`. */
  function Ins<T>(s: seq<T>, p: nat, x: T): (t: seq<T>)
    requires p < |s|
    ensures |t| == |s| + 1
    ensures forall m | 0 <= m <= p :: t[m] == s[m]
    ensures t[p + 1] == x
    ensures forall m | p < m < |s| :: t[m + 1] == s[m]
    ensures forall m | p + 1 < m <= |s| :: t[m] == s[m - 1]
  {
    s[..p + 1] + [x] + s[p + 1..]
  }

  lemma NextInsBefore(h: seq<nat>, p: nat, v: nat, j: nat, l: nat)
    requires j <= p < |h|
    ensures var k := Next(h, j, l);
            Next(Ins(h, p, v), j, l) == if k <= p then k else if v > l then p + 1 else k + 1
  {
    hide Next, Ins;
    var (k, t) := (Next(h, j, l), Ins(h, p, v));
    if k <= p {
      NextIs(t, j, l, k);
    } else if v > l {
      NextIs(t, j, l, p + 1);
    } else {
      NextIs(t, j, l, k + 1);
    }
  }

  lemma NextInsAfter(h: seq<nat>, p: nat, v: nat, j: nat, l: nat)
    requires p <= j < |h|
    ensures Next(Ins(h, p, v), j + 1, l) == Next(h, j, l) + 1
  {
    hide Next, Ins;
    NextIs(Ins(h, p, v), j + 1, l, Next(h, j, l) + 1);
  }

  /** The link of tower `j` at level `l`. */
  function LinkAt(path: seq<Ptr>, h: seq<nat>, j: nat, l: nat): Level
    requires |path| == |h| && j < |h|
  {
    var k := Next(h, j, l);
    if k < |h| then Level(path[k], k - j) else Level(NULL, |h| - 1 - j)
  }

  /** The last tower before the place sees the same next tower from further away. */
  lemma LinkFromLast(path: seq<Ptr>, h: seq<nat>, p: nat, l: nat)
    requires |path| == |h| && p < |h| && h[0] > l
    ensures var (a, b, u) := (LinkAt(path, h, Last(h, p, l), l), LinkAt(path, h, p, l), Last(h, p, l));
            a.forward == b.forward && a.span == b.span + (p - u)
  {
    hide Next, Last;
    NextFromLast(h, p, l);
  }

  /** A new tower of height `v` after place `p` changes the link of the last tower before it, ... */
  lemma LinkOver(path: seq<Ptr>, h: seq<nat>, p: nat, x: Ptr, v: nat, l: nat)
    requires |path| == |h| && p < |h| && h[0] > l
    ensures var (u, a) := (Last(h, p, l), LinkAt(path, h, Last(h, p, l), l));
            LinkAt(Ins(path, p, x), Ins(h, p, v), u, l)
            == if v > l then Level(x, p - u + 1) else Level(a.forward, a.span + 1)
  {
    hide Next, Last, Ins;
    var u := Last(h, p, l);
    NextInsBefore(h, p, v, u, l);
    NextFromLast(h, p, l);
  }

  /** ... takes over what that tower saw, ... */
  lemma LinkNew(path: seq<Ptr>, h: seq<nat>, p: nat, x: Ptr, v: nat, l: nat)
    requires |path| == |h| && p < |h| && h[0] > l
    ensures var (u, a) := (Last(h, p, l), LinkAt(path, h, Last(h, p, l), l));
            a.span >= p - u && LinkAt(Ins(path, p, x), Ins(h, p, v), p + 1, l) == Level(a.forward, a.span - (p - u))
  {
    hide Next, Last, Ins;
    NextInsAfter(h, p, v, p, l);
    LinkFromLast(path, h, p, l);
  }

  /** ... and changes no other link. */
  lemma LinkElsewhere(path: seq<Ptr>, h: seq<nat>, p: nat, x: Ptr, v: nat, j: nat, l: nat)
    requires |path| == |h| && p < |h| && h[0] > l && j < |h| && h[j] > l && j != Last(h, p, l)
    ensures LinkAt(Ins(path, p, x), Ins(h, p, v), if j <= p then j else j + 1, l) == LinkAt(path, h, j, l)
  {
    hide Next, Last, Ins;
    if j <= p {
      NextBeforeLast(h, p, l, j);
      NextInsBefore(h, p, v, j, l);
    } else {
      NextInsAfter(h, p, v, j, l);
    }
  }

  /** A link leads to the new tower exactly when the tower reaches the level. */
  lemma LinkLeads(path: seq<Ptr>, h: seq<nat>, p: nat, x: Ptr, v: nat, l: nat)
    requires |path| == |h| && p < |h| && h[0] > l && x !in path && x != NULL
    ensures LinkAt(Ins(path, p, x), Ins(h, p, v), Last(h, p, l), l).forward == x <==> v > l
  {
    hide Next, Last, Ins;
    LinkOver(path, h, p, x, v, l);
  }
}
