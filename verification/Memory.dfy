/** Blocks of bytes, and what the C library does to them. */
module Memory {
  import opened Bytes

  /** Bytes written over a part of a block. */
  function Patched(b: seq<Byte>, off: nat, s: seq<Byte>): (r: seq<Byte>)
    requires off + |s| <= |b|
    ensures |r| == |b|
  {
    b[..off] + s + b[off + |s|..]
  }

  /** Writing twice in a row is one longer write. */
  lemma PatchedTwice(m: seq<Byte>, off: nat, a: seq<Byte>, b: seq<Byte>)
    requires off + |a| + |b| <= |m|
    ensures Patched(Patched(m, off, a), off + |a|, b) == Patched(m, off, a + b)
  {
    var n := Patched(m, off, a);
    assert n[..off + |a|] == m[..off] + a;
    assert n[off + |a| + |b|..] == m[off + |a| + |b|..];
  }

  /** A run of bytes moved, as if through a copy. */
  function Moved(b: seq<Byte>, from: nat, to: nat, n: nat): (r: seq<Byte>)
    requires from + n <= |b| && to + n <= |b|
    ensures |r| == |b|
  {
    Patched(b, to, b[from..from + n])
  }

  lemma MovedSlice(b: seq<Byte>, from: nat, to: nat, n: nat, x: nat, w: nat)
    requires from + n <= |b| && to + n <= |b| && x + w <= n
    ensures Moved(b, from, to, n)[to + x..to + x + w] == b[from + x..from + x + w]
  {
    var (c, u, v) := (Moved(b, from, to, n), Moved(b, from, to, n)[to + x..to + x + w], b[from + x..from + x + w]);
    forall i | 0 <= i < w ensures u[i] == v[i] {
      assert u[i] == c[to + x + i] == b[from..from + n][x + i] == v[i];
    }
  }

  lemma NotMoved(b: seq<Byte>, from: nat, to: nat, n: nat, x: nat, w: nat)
    requires from + n <= |b| && to + n <= |b| && x + w <= |b| && (x + w <= to || to + n <= x)
    ensures Moved(b, from, to, n)[x..x + w] == b[x..x + w]
  {
    var (c, u, v) := (Moved(b, from, to, n), Moved(b, from, to, n)[x..x + w], b[x..x + w]);
    forall i | 0 <= i < w ensures u[i] == v[i] {
      assert u[i] == c[x + i] == b[x + i] == v[i];
    }
  }

  /** Two blocks that agree as far as both go. */
  predicate SamePrefix(b: seq<Byte>, c: seq<Byte>) {
    forall i | 0 <= i < |b| && i < |c| :: c[i] == b[i]
  }

  method MemCopy(a: array<Byte>, off: nat, s: seq<Byte>)
    requires off + |s| <= a.Length
    modifies a
    ensures a[..] == Patched(old(a[..]), off, s)
  {
    forall i | 0 <= i < |s| {
      a[off + i] := s[i];
    }
  }

  method MemMove(a: array<Byte>, dst: nat, src: nat, n: nat)
    requires src + n <= a.Length && dst + n <= a.Length
    modifies a
    ensures a[..] == Moved(old(a[..]), src, dst, n)
  {
    var run := a[src..src + n];
    forall i | 0 <= i < n {
      a[dst + i] := run[i];
    }
  }

  /** The new bytes of a larger block hold anything. */
  method Realloc(a: array<Byte>, n: nat) returns (b: array<Byte>)
    ensures fresh(b) && b.Length == n && SamePrefix(a[..], b[..])
  {
    b := new Byte[n];
    forall i | 0 <= i < n && i < a.Length {
      b[i] := a[i];
    }
  }
}
