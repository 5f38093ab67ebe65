/** Strictly sorted sequences of keyed items: what the search trees stand for. */
module SortedItems {
  import opened Options

  datatype Item<V> = Item(key: int, val: V)

  ghost predicate Sorted<V>(s: seq<Item<V>>) {
    forall i, j | 0 <= i < j < |s| :: s[i].key < s[j].key
  }

  ghost predicate AllBelow<V>(s: seq<Item<V>>, key: int) {
    forall y | y in s :: y.key < key
  }

  ghost predicate AllAbove<V>(s: seq<Item<V>>, key: int) {
    forall y | y in s :: key < y.key
  }

  /** The item with this key. */
  function Seek<V>(s: seq<Item<V>>, key: int): Option<Item<V>> {
    if s == [] then None else if s[0].key == key then Some(s[0]) else Seek(s[1..], key)
  }

  /** Put an item in its place; an item with the same key stays where it is. */
  function Insert<V>(s: seq<Item<V>>, x: Item<V>): seq<Item<V>> {
    if s == [] || x.key < s[0].key then [x] + s
    else if s[0].key == x.key then s
    else [s[0]] + Insert(s[1..], x)
  }

  function Remove<V>(s: seq<Item<V>>, key: int): seq<Item<V>> {
    if s == [] then [] else if s[0].key == key then s[1..] else [s[0]] + Remove(s[1..], key)
  }

  lemma {:induction false} SeekBetween<V>(a: seq<Item<V>>, b: seq<Item<V>>, key: int)
    requires AllBelow(a, key) && AllAbove(b, key)
    ensures Seek(a + b, key) == None
  {
    if a != [] {
      assert (a + b)[1..] == a[1..] + b;
      SeekBetween(a[1..], b, key);
    } else if b != [] {
      assert a + b == b;
      assert [] + b[1..] == b[1..];
      SeekBetween([], b[1..], key);
    }
  }

  lemma {:induction false} SeekAt<V>(a: seq<Item<V>>, x: Item<V>, b: seq<Item<V>>)
    requires AllBelow(a, x.key)
    ensures Seek(a + [x] + b, x.key) == Some(x)
  {
    if a != [] {
      assert (a + [x] + b)[1..] == a[1..] + [x] + b;
      SeekAt(a[1..], x, b);
    }
  }

  lemma {:induction false} InsertBetween<V>(a: seq<Item<V>>, x: Item<V>, b: seq<Item<V>>)
    requires AllBelow(a, x.key) && AllAbove(b, x.key)
    ensures Insert(a + b, x) == a + [x] + b
  {
    if a == [] {
      assert a + b == b;
    } else {
      assert (a + b)[1..] == a[1..] + b;
      InsertBetween(a[1..], x, b);
    }
  }

  lemma {:induction false} InsertExisting<V>(a: seq<Item<V>>, y: Item<V>, b: seq<Item<V>>, x: Item<V>)
    requires AllBelow(a, x.key) && y.key == x.key
    ensures Insert(a + [y] + b, x) == a + [y] + b
  {
    if a != [] {
      assert (a + [y] + b)[1..] == a[1..] + [y] + b;
      InsertExisting(a[1..], y, b, x);
    }
  }

  lemma {:induction false} RemoveAt<V>(a: seq<Item<V>>, x: Item<V>, b: seq<Item<V>>)
    requires AllBelow(a, x.key)
    ensures Remove(a + [x] + b, x.key) == a + b
  {
    if a == [] {
      assert (a + [x] + b)[1..] == b;
    } else {
      assert (a + [x] + b)[1..] == a[1..] + [x] + b;
      RemoveAt(a[1..], x, b);
      assert [a[0]] + (a[1..] + b) == a + b;
    }
  }

  lemma {:induction false} RemoveAbsent<V>(a: seq<Item<V>>, b: seq<Item<V>>, key: int)
    requires AllBelow(a, key) && AllAbove(b, key)
    ensures Remove(a + b, key) == a + b
  {
    if a != [] {
      assert (a + b)[1..] == a[1..] + b;
      RemoveAbsent(a[1..], b, key);
    } else if b != [] {
      assert a + b == b;
      assert [] + b[1..] == b[1..];
      RemoveAbsent([], b[1..], key);
    }
  }

  /** The sequence as a map. */
  function ToMap<V>(s: seq<Item<V>>): map<int, V> {
    if s == [] then map[] else ToMap(s[1..])[s[0].key := s[0].val]
  }

  lemma {:induction false} MapSeek<V>(s: seq<Item<V>>, key: int)
    ensures key in ToMap(s) <==> Seek(s, key).Some?
    ensures key in ToMap(s) ==> Seek(s, key) == Some(Item(key, ToMap(s)[key]))
  {
    if s != [] { MapSeek(s[1..], key); }
  }

  lemma SeekAbove<V>(s: seq<Item<V>>, key: int)
    requires AllAbove(s, key)
    ensures Seek(s, key) == None
  {
    assert [] + s == s;
    SeekBetween([], s, key);
  }

  lemma TailSorted<V>(s: seq<Item<V>>)
    requires Sorted(s) && s != []
    ensures Sorted(s[1..]) && AllAbove(s[1..], s[0].key)
  {
  }

  lemma ConsSorted<V>(x: Item<V>, s: seq<Item<V>>)
    requires Sorted(s) && AllAbove(s, x.key)
    ensures Sorted([x] + s)
  {
  }

  lemma {:induction false} SeekInsert<V>(s: seq<Item<V>>, x: Item<V>, k: int)
    requires Sorted(s)
    ensures Seek(Insert(s, x), k) == if k == x.key && Seek(s, k) == None then Some(x) else Seek(s, k)
  {
    if s == [] || x.key < s[0].key {
      assert ([x] + s)[1..] == s;
      SeekAbove(s, x.key);
    } else {
      TailSorted(s);
      SeekInsert(s[1..], x, k);
    }
  }

  lemma {:induction false} SeekRemove<V>(s: seq<Item<V>>, key: int, k: int)
    requires Sorted(s)
    ensures Seek(Remove(s, key), k) == if k == key then None else Seek(s, k)
  {
    if s != [] {
      TailSorted(s);
      if s[0].key == key { SeekAbove(s[1..], key); } else { SeekRemove(s[1..], key, k); }
    }
  }

  lemma {:induction false} InsertSorted<V>(s: seq<Item<V>>, x: Item<V>)
    requires Sorted(s)
    ensures Sorted(Insert(s, x))
    ensures forall y | y in Insert(s, x) :: y in s || y == x
  {
    if s == [] || x.key < s[0].key {
      ConsSorted(x, s);
    } else if s[0].key != x.key {
      TailSorted(s);
      InsertSorted(s[1..], x);
      ConsSorted(s[0], Insert(s[1..], x));
    }
  }

  lemma {:induction false} RemoveSorted<V>(s: seq<Item<V>>, key: int)
    requires Sorted(s)
    ensures Sorted(Remove(s, key))
    ensures forall y | y in Remove(s, key) :: y in s
  {
    if s != [] {
      TailSorted(s);
      if s[0].key != key {
        RemoveSorted(s[1..], key);
        ConsSorted(s[0], Remove(s[1..], key));
      }
    }
  }

  lemma {:induction false} RemoveLength<V>(s: seq<Item<V>>, key: int)
    ensures |Remove(s, key)| == if Seek(s, key).Some? then |s| - 1 else |s|
  {
    if s != [] && s[0].key != key { RemoveLength(s[1..], key); }
  }

  /** On sorted sequences `Insert` and `Remove` are the map operations. */
  lemma InsertIsUpdate<V>(s: seq<Item<V>>, x: Item<V>)
    requires Sorted(s)
    ensures ToMap(Insert(s, x)) == if x.key in ToMap(s) then ToMap(s) else ToMap(s)[x.key := x.val]
  {
    hide Insert, Seek, ToMap, Sorted;
    MapSeek(s, x.key);
    var m := if x.key in ToMap(s) then ToMap(s) else ToMap(s)[x.key := x.val];
    forall k
      ensures k in m <==> k in ToMap(Insert(s, x))
      ensures k in m ==> m[k] == ToMap(Insert(s, x))[k]
    {
      MapSeek(s, k);
      MapSeek(Insert(s, x), k);
      SeekInsert(s, x, k);
    }
  }

  lemma RemoveIsDeletion<V>(s: seq<Item<V>>, key: int)
    requires Sorted(s)
    ensures ToMap(Remove(s, key)) == ToMap(s) - {key}
  {
    hide Remove, Seek, ToMap, Sorted;
    forall k
      ensures k in ToMap(s) - {key} <==> k in ToMap(Remove(s, key))
      ensures k in ToMap(s) - {key} ==> ToMap(s)[k] == ToMap(Remove(s, key))[k]
    {
      MapSeek(s, k);
      MapSeek(Remove(s, key), k);
      SeekRemove(s, key, k);
    }
  }

  /** Around one item of a sorted sequence. */
  lemma SortedAround<V>(a: seq<Item<V>>, l: seq<Item<V>>, x: Item<V>, r: seq<Item<V>>, b: seq<Item<V>>)
    requires Sorted(a + (l + [x] + r) + b)
    ensures AllBelow(a, x.key) && AllBelow(l, x.key) && AllAbove(r, x.key) && AllAbove(b, x.key)
  {
    var s := a + (l + [x] + r) + b;
    var n := |a| + |l|;
    assert s[n] == x;
    forall y | y in a ensures y.key < x.key { var i :| 0 <= i < |a| && a[i] == y; assert s[i] == y; }
    forall y | y in l ensures y.key < x.key { var i :| 0 <= i < |l| && l[i] == y; assert s[|a| + i] == y; }
    forall y | y in r ensures x.key < y.key { var i :| 0 <= i < |r| && r[i] == y; assert s[n + 1 + i] == y; }
    forall y | y in b ensures x.key < y.key { var i :| 0 <= i < |b| && b[i] == y; assert s[n + 1 + |r| + i] == y; }
  }
}
