/** Lookup and insertion in the on-disk B-tree of src/tree/btree.c.  New nodes go to blocks that nothing
    points to; one pointer write makes them part of the tree; only then are the old blocks released. */
module BtreeOperations {
  import opened Bytes
  import opened Options
  import opened LittleEndian
  import opened Memory
  import opened DiskImages
  import opened DiskLedger
  import opened DiskSteps
  import opened DiskAllocator
  import opened BtreeNodes
  import opened BtreeShape
  import opened BtreeOnDisk
  import opened BtreeRuns

  /** The file stands for M through the tree t. */
  ghost predicate Stands(s: State, t: Tree, h: nat, M: Dict) {
    Rooted(s, t, h) && Agrees(s.img, Items(t), M)
  }

  /** The blocks in use are those of the tree and the rest. */
  ghost predicate Holding(book: Book, t: Tree, rest: multiset<nat>) {
    multiset(Live(book)) == Foot(t) + rest
  }

  /** All blocks in use but one stayed as they were. */
  ghost predicate Same(s: State, u: State, p: nat) {
    forall q | q in Live(s.book) && q != p :: q in u.book && u.book[q] == s.book[q] && Kept(s.img, u.img, q)
  }

  lemma LeadsSame(s: State, a: seq<State>, u: State, b: seq<State>, keep: set<nat>, p: nat)
    requires Leads(s, a, u, b, keep) && Live(s.book) - {p} <= keep
    ensures Same(s, u, p)
  {
    hide Sound, Kept;
  }

  lemma SameAt(s: State, u: State, p: nat, q: nat)
    requires Same(s, u, p) && q in Live(s.book) && q != p
    ensures q in Live(u.book) && u.book[q] == s.book[q] && Kept(s.img, u.img, q)
  {
    hide Kept;
  }

  lemma StandsRooted(s: State, t: Tree, h: nat, M: Dict)
    requires Stands(s, t, h, M)
    ensures Sound(s) && Recovers(s, M) && Occupies(Foot(t), s.book)
  {
    hide Sound, Sorted, Items, Foot, Occupies, RootShape, Holds, Agrees;
  }

  lemma FootLive(s: State, t: Tree, h: nat, M: Dict)
    requires Stands(s, t, h, M)
    ensures forall p | p in Foot(t) :: p in Live(s.book)
  {
    hide Sound, Sorted, Items, Foot, RootShape, Holds, Agrees;
    forall p | p in Foot(t) ensures p in Live(s.book) { Occupied(Foot(t), s.book, p); }
  }

  /** A block in use that the tree does not occupy. */
  ghost predicate Spare(book: Book, t: Tree, rest: multiset<nat>, p: nat) {
    p in rest && Holding(book, t, rest)
  }

  lemma SpareApart(book: Book, t: Tree, rest: multiset<nat>, p: nat)
    requires Spare(book, t, rest, p)
    ensures p in Live(book) && p !in Foot(t)
  {
    hide Foot;
    assert multiset(Live(book))[p] == (Foot(t) + rest)[p];
    assert multiset(Live(book))[p] <= 1;
  }

  lemma NotZero(s: State)
    requires Sound(s)
    ensures 0 !in Live(s.book)
  {
    hide Sound, SizeOf;
    assert 0 !in s.book by {
      if 0 in s.book { ChunksApart(s, 0, 0); }
    }
  }

  // ---------------------------------------------------------------- steps that leave the map as it is

  /** `btree_alloc` beside a tree. */
  method Obtain(bt: Btree, size: nat, ghost t: Tree, ghost h: nat, ghost M: Dict, ghost rest: multiset<nat>)
                returns (ptr: nat)
    requires Stands(bt.Now(), t, h, M) && Holding(bt.book, t, rest) && size + 8 <= BTREE_PREALLOC_SIZE
    requires bt.rootptr == Word(bt.file, BTREE_HDR_ROOTPTR_POS)
    modifies bt
    ensures ptr == 0 ==> bt.Now() == old(bt.Now()) && bt.trail == old(bt.trail) && bt.refusals > old(bt.refusals)
    ensures ptr != 0 ==>
              && ptr >= 8 && Booked(bt.book, ptr - 8, Chunk(ClassOf(size), InUse)) && Word(bt.file, ptr - 8) == size
                 && bt.refusals == old(bt.refusals)
              && Holding(bt.book, t, rest + multiset{ptr - 8}) && ptr - 8 !in Live(old(bt.book))
    ensures Stands(bt.Now(), t, h, M) && Trail(old(bt.trail), bt.trail, M) && Same(old(bt.Now()), bt.Now(), 0)
    ensures bt.rootptr == Word(bt.file, BTREE_HDR_ROOTPTR_POS)
            && (ClassOf(size) != BLOCK_CLASS ==> HasRoom(bt.lists, ClassOf(size)))
  {
    hide Stands, Leads, Steady, Word, SizeOf, ClassOf, Foot, Trail, Same, Sound, HasRoom;
    ghost var (s, a) := (bt.Now(), bt.trail);
    StandsRooted(s, t, h, M);
    FootLive(s, t, h, M);
    ptr := bt.Alloc(size);
    StandsStay(s, a, bt.Now(), bt.trail, t, h, M, Live(s.book));
    LeadsSame(s, a, bt.Now(), bt.trail, Live(s.book), 0);
  }

  lemma StandsStay(s: State, a: seq<State>, u: State, b: seq<State>, t: Tree, h: nat, M: Dict, keep: set<nat>)
    requires Stands(s, t, h, M) && Leads(s, a, u, b, keep) && forall p | p in Foot(t) :: p in keep
    ensures Stands(u, t, h, M) && Trail(a, b, M)
            && Word(u.img, BTREE_HDR_ROOTPTR_POS) == Word(s.img, BTREE_HDR_ROOTPTR_POS)
  {
    hide Rooted, Agrees, Sound, Foot, Word, Trail;
    Stays(s, a, u, b, t, h, M, keep);
  }

  lemma LiveBooked(book: Book, p: nat)
    requires p in Live(book)
    ensures p in book
  {
  }

  /** The last block of the list that this block belongs to is full. */
  ghost predicate NoRoomFor(lists: seq<FreeList>, book: Book, p: nat) {
    p in book && !HasRoom(lists, book[p].cls)
  }

  /** `btree_free` of a block that the tree does not occupy. */
  method Discard(bt: Btree, ptr: nat, ghost t: Tree, ghost h: nat, ghost M: Dict, ghost rest: multiset<nat>)
                 returns (ok: bool)
    requires Stands(bt.Now(), t, h, M) && ptr >= 8 && Spare(bt.book, t, rest, ptr - 8)
    requires bt.rootptr == Word(bt.file, BTREE_HDR_ROOTPTR_POS)
    modifies bt
    ensures ok ==> Holding(bt.book, t, rest - multiset{ptr - 8}) && bt.refusals == old(bt.refusals)
    ensures !ok ==>
            Holding(bt.book, t, rest) && bt.refusals > old(bt.refusals)
            && NoRoomFor(old(bt.lists), old(bt.book), ptr - 8)
    ensures Stands(bt.Now(), t, h, M) && Trail(old(bt.trail), bt.trail, M) && Same(old(bt.Now()), bt.Now(), ptr - 8)
    ensures bt.rootptr == Word(bt.file, BTREE_HDR_ROOTPTR_POS)
  {
    hide Stands, Leads, Steady, Word, SizeOf, ClassOf, Foot, Trail, Same, Sound, Live, HasRoom;
    ghost var (s, a, p) := (bt.Now(), bt.trail, ptr - 8);
    StandsRooted(s, t, h, M);
    FootLive(s, t, h, M);
    SpareApart(s.book, t, rest, p);
    ok := bt.Free(ptr);
    LiveBooked(s.book, p);
    StandsStay(s, a, bt.Now(), bt.trail, t, h, M, Live(s.book) - {p});
    LeadsSame(s, a, bt.Now(), bt.trail, Live(s.book) - {p}, p);
    if ok { Taken(Live(s.book), p, Foot(t), rest); }
  }

  lemma Taken(live: set<nat>, p: nat, f: multiset<nat>, rest: multiset<nat>)
    requires multiset(live) == f + rest && p in rest && p in live
    ensures multiset(live - {p}) == f + (rest - multiset{p})
  {
    assert multiset(live - {p}) == multiset(live) - multiset{p};
  }

  /** One write into a block in use, behind its label. */
  lemma PayloadLeads(s: State, a: seq<State>, p: nat, buf: seq<Byte>) returns (u: State)
    requires Sound(s) && p in Live(s.book) && 8 + |buf| <= SizeOf(s.book[p].cls)
    ensures p + 8 + |buf| <= |s.img| && u == s.(img := Patched(s.img, p + 8, buf))
    ensures Leads(s, a, u, a + [u], Live(s.book) - {p})
    ensures Word(u.img, p) == Word(s.img, p) && u.img[p + 8..p + 8 + |buf|] == buf
  {
    hide Sound, Word, Patched, SizeOf, Elsewhere, Steady, Leads;
    ChunkBound(s, p);
    PatchElsewhere(s.img, p + 8, buf);
    u := s.(img := Patched(s.img, p + 8, buf));
    PayloadUnread(s, p, p + 8, |buf|);
    UnreadSound(s, u.img, p + 8, |buf|);
    PayloadSteady(s, u.img, p, p + 8, |buf|);
    WordElsewhere(s.img, u.img, p + 8, |buf|, p);
    LeadsOne(s, a, u, s.book.Keys - {p});
    LeadsLess(s, a, u, a + [u], s.book.Keys - {p}, Live(s.book) - {p});
  }

  lemma RoomFor(s: State, p: nat, n: nat)
    requires Sound(s) && p in s.book && n <= Word(s.img, p)
    ensures 8 + n <= SizeOf(s.book[p].cls)
  {
    hide Word, SizeOf, Framed, ListsOk, Chained, SlotsBooked, BlocksBooked, UsesListed, Apart;
  }

  /** Write the value that a block was obtained for. */
  method WriteValue(bt: Btree, val: seq<Byte>, ptr: nat, ghost t: Tree, ghost h: nat, ghost M: Dict,
                    ghost rest: multiset<nat>)
    requires Stands(bt.Now(), t, h, M) && ptr >= 8 && Spare(bt.book, t, rest, ptr - 8)
             && Word(bt.file, ptr - 8) == |val|
    requires bt.rootptr == Word(bt.file, BTREE_HDR_ROOTPTR_POS)
    modifies bt`file, bt`trail
    ensures Load(bt.file, ptr) == val && Stands(bt.Now(), t, h, M) && Trail(old(bt.trail), bt.trail, M)
    ensures bt.rootptr == Word(bt.file, BTREE_HDR_ROOTPTR_POS)
  {
    hide Stands, Leads, Steady, Word, SizeOf, Foot, Trail, Same, Sound, Patched;
    ghost var (s, a, p) := (bt.Now(), bt.trail, ptr - 8);
    StandsRooted(s, t, h, M);
    FootLive(s, t, h, M);
    SpareApart(s.book, t, rest, p);
    RoomFor(s, p, |val|);
    ghost var u := PayloadLeads(s, a, p, val);
    bt.Pwrite(val, ptr, u);
    StandsStay(s, a, u, bt.trail, t, h, M, Live(s.book) - {p});
  }

  /** Obtain a block for a value, and write it. */
  method StoreValue(bt: Btree, val: seq<Byte>, ghost t: Tree, ghost h: nat, ghost M: Dict, ghost rest: multiset<nat>)
                    returns (ptr: nat)
    requires Stands(bt.Now(), t, h, M) && Holding(bt.book, t, rest) && |val| + 8 <= BTREE_PREALLOC_SIZE
    requires bt.rootptr == Word(bt.file, BTREE_HDR_ROOTPTR_POS)
    modifies bt
    ensures ptr == 0 ==> Holding(bt.book, t, rest) && bt.refusals > old(bt.refusals)
    ensures ptr != 0 ==>
              && 8 <= ptr < POW63 && ptr - 8 in Live(bt.book) && Holding(bt.book, t, rest + multiset{ptr - 8})
              && Load(bt.file, ptr) == val && bt.refusals == old(bt.refusals)
    ensures Stands(bt.Now(), t, h, M) && Trail(old(bt.trail), bt.trail, M)
            && bt.rootptr == Word(bt.file, BTREE_HDR_ROOTPTR_POS)
  {
    hide Stands, Holding, Word, SizeOf, ClassOf, Foot, Trail, Same, Sound, Live, Load;
    ghost var a := bt.trail;
    TrailSelf(a, M);
    ptr := Obtain(bt, |val|, t, h, M, rest);
    if ptr == 0 {
      return;
    }
    ghost var (s, b) := (bt.Now(), bt.trail);
    BookedLive(s.book, ptr - 8, ClassOf(|val|));
    StandsRooted(s, t, h, M);
    PtrBound(s, ptr);
    WriteValue(bt, val, ptr, t, h, M, rest + multiset{ptr - 8});
    TrailTwice(a, b, bt.trail, M);
  }

  /** `btree_write_node` into a block obtained for a node. */
  method WriteNode(bt: Btree, r: Rec, ptr: nat, ghost t: Tree, ghost h: nat, ghost M: Dict, ghost rest: multiset<nat>)
    requires Stands(bt.Now(), t, h, M) && ptr >= 8 && Spare(bt.book, t, rest, ptr - 8)
             && Word(bt.file, ptr - 8) == BTREE_NODE_SIZE && Storable(r)
    requires bt.rootptr == Word(bt.file, BTREE_HDR_ROOTPTR_POS)
    modifies bt`file, bt`trail, bt`mark
    ensures RecAt(bt.file, ptr) == Some(r) && Word(bt.file, ptr - 8) == BTREE_NODE_SIZE
    ensures bt.mark == (old(bt.mark) + 1) % 0x1_0000_0000
    ensures ptr + BTREE_NODE_SIZE <= |bt.file| && bt.file[ptr..ptr + BTREE_NODE_SIZE] == EncodeNode(bt.mark, r)
    ensures Stands(bt.Now(), t, h, M) && Trail(old(bt.trail), bt.trail, M) && Same(old(bt.Now()), bt.Now(), ptr - 8)
    ensures bt.rootptr == Word(bt.file, BTREE_HDR_ROOTPTR_POS)
  {
    hide Stands, Leads, Steady, Word, SizeOf, Foot, Trail, Same, Sound, Patched, EncodeNode, RecAt;
    ghost var (s, a, p) := (bt.Now(), bt.trail, ptr - 8);
    StandsRooted(s, t, h, M);
    FootLive(s, t, h, M);
    SpareApart(s.book, t, rest, p);
    RoomFor(s, p, BTREE_NODE_SIZE);
    bt.mark := (bt.mark + 1) % 0x1_0000_0000;
    ChunkBound(s, p);
    NodeWritten(s.img, ptr, bt.mark, r);
    ghost var u := PayloadLeads(s, a, p, EncodeNode(bt.mark, r));
    bt.Pwrite(EncodeNode(bt.mark, r), ptr, u);
    StandsStay(s, a, u, bt.trail, t, h, M, Live(s.book) - {p});
    LeadsSame(s, a, u, bt.trail, Live(s.book) - {p}, p);
  }

  method ReadNode(bt: Btree, off: nat) returns (r: Option<Rec>)
    requires off + BTREE_NODE_SIZE <= |bt.file|
    ensures r == RecAt(bt.file, off)
  {
    r := DecodeNode(bt.file[off..off + BTREE_NODE_SIZE]);
  }

  // ---------------------------------------------------------------- the one write that counts

  /** The path, with the new tree stored beside it, is ready to take the tree in. */
  ghost predicate Ready(s: State, k: Path, u: Tree, h: nat, N: Dict) {
    && Sound(s) && Proper(k) && StoredPath(s.img, k) && Stored(s.img, u) && Occupies(PathFoot(k) + Foot(u), s.book)
       && u.off < 2 * POW63
    && PathShape(k, h) && HoleShape(k, u, h) && Sorted(Items(Plug(k, u))) && Agrees(s.img, Items(Plug(k, u)), N)
  }

  method Link(bt: Btree, ptr: nat, pointedby: nat, ghost k: Path, ghost u: Tree, ghost h: nat, ghost N: Dict)
    requires Ready(bt.Now(), k, u, h, N) && u.off == ptr && pointedby == Hook(k)
             && bt.rootptr == Word(bt.file, BTREE_HDR_ROOTPTR_POS)
    modifies bt`file, bt`trail, bt`rootptr
    ensures Stands(bt.Now(), Plug(k, u), h + Depth(k), N)
    ensures bt.rootptr == Word(bt.file, BTREE_HDR_ROOTPTR_POS) && bt.trail == old(bt.trail) + [bt.Now()]
  {
    hide Sound, Word, Patched, Stored, StoredPath, Items, Foot, PathFoot, Agrees, Sorted, Shape, PathShape, HoleShape,
         Rooted, Plug, Hook;
    ghost var s := bt.Now();
    Commit(s, k, u, h, N);
    bt.PwriteU64(ptr, pointedby, s.(img := Patched(s.img, Hook(k), Big(u.off, 8))));
    if pointedby == BTREE_HDR_ROOTPTR_POS {
      bt.rootptr := ptr;
    }
  }

  /** What came of an insertion: the file stands for N, which is the new map after a success and the old
      map after an error; writes up to some point give the old map, writes from then on give N; if the
      file could grow, the outcome is the wanted one and no block is lost. */
  ghost predicate Outcome(s: State, a: seq<State>, b: seq<State>, M: Dict, key: Key, val: seq<Byte>, wanted: bool,
                          ok: bool, refused: bool,
                          N: Dict, rest: multiset<nat>, left: multiset<nat>) {
    && Represents(s, N, left) && Switches(a, b, M, N)
    && N == (if ok then M[key := val] else M) && (ok ==> wanted)
    && (!refused ==> ok == wanted && left == rest)
  }

  lemma NothingDone(s: State, a: seq<State>, b: seq<State>, t: Tree, h: nat, M: Dict, key: Key, val: seq<Byte>,
                    wanted: bool, refused: bool,
                    rest: multiset<nat>, left: multiset<nat>)
    requires Stands(s, t, h, M) && Holding(s.book, t, left) && Trail(a, b, M)
    requires refused || (!wanted && left == rest)
    ensures Outcome(s, a, b, M, key, val, wanted, false, refused, M, rest, left)
  {
    hide Rooted, Agrees, Foot, Trail, Items;
    TrailSelf(b, M);
  }

  // ---------------------------------------------------------------- a new key in a leaf

  /** `btree_node_insert_key_at`: what lies behind position i moves up by one. */
  function InsertKeyAt(r: Rec, i: nat, key: Key, valoff: nat): Rec
    requires i <= r.numkeys < |r.keys| == |r.values|
  {
    var n := r.numkeys;
    r.(numkeys := n + 1, keys := r.keys[..i] + [key] + r.keys[i..n] + r.keys[n + 1..],
       values := r.values[..i] + [valoff] + r.values[i..n] + r.values[n + 1..])
  }

  ghost function WithPair(t: Tree, i: nat, p: Pair, off: nat): Tree
    requires i <= |t.pairs|
  {
    Tree(off, t.pairs[..i] + [p] + t.pairs[i..], t.kids)
  }

  lemma RecStorable(img: Image, off: nat)
    requires RecAt(img, off).Some?
    ensures Storable(RecAt(img, off).value)
  {
    hide Number;
    var (b, r) := (img[off..off + BTREE_NODE_SIZE], RecAt(img, off).value);
    Widths();
    NumberBound(b[4..8]);
    NumberBound(b[8..12]);
    forall i | 0 <= i < 7 ensures r.values[i] < 2 * POW63 {
      NumberBound(b[VALUES_POS + 8 * i..VALUES_POS + 8 * i + 8]);
    }
    forall i | 0 <= i < 8 ensures r.children[i] < 2 * POW63 {
      NumberBound(b[CHILDREN_POS + 8 * i..CHILDREN_POS + 8 * i + 8]);
    }
  }

  lemma InsertMatches(r: Rec, t: Tree, i: nat, p: Pair, off: nat)
    requires Matches(r, t, -1) && Storable(r) && |t.pairs| < BTREE_MAX_KEYS && i <= |t.pairs| && p.val < 2 * POW63
    ensures var q := InsertKeyAt(r, i, p.key, p.val); Matches(q, WithPair(t, i, p, off), -1) && Storable(q)
  {
    var (q, u) := (InsertKeyAt(r, i, p.key, p.val), WithPair(t, i, p, off));
    forall j | 0 <= j < |u.pairs| ensures q.keys[j] == u.pairs[j].key && q.values[j] == u.pairs[j].val {
      if j < i {
        assert u.pairs[j] == t.pairs[j];
      } else if j > i {
        assert u.pairs[j] == t.pairs[j - 1];
      }
    }
    forall v | v in q.values ensures v < 2 * POW63 {
      assert v in r.values || v == p.val;
    }
  }

  /** The items of the tree with the new leaf. */
  lemma LeafItems(img: Image, k: Path, t: Tree, i: nat, p: Pair, off: nat, M: Dict)
    requires Proper(k) && t.kids == [] && Between(t, i, p.key) && Sorted(Items(Plug(k, t)))
             && Agrees(img, Items(Plug(k, t)), M)
    requires Below(Before(k), p.key) && Above(After(k), p.key)
    ensures var w := Items(Plug(k, WithPair(t, i, p, off)));
            p.key !in M && Sorted(w) && Agrees(img, w, M[p.key := Load(img, p.val)])
  {
    hide Load, Below, Above, Before, After, Plug, Agrees, Sorted;
    var (u, a, b) := (WithPair(t, i, p, off), Before(k) + t.pairs[..i], t.pairs[i..] + After(k));
    LeafOrder(k, t, i, p.key);
    SortedWith(a, p, b);
    AgreesInsert(img, a, p, b, M);
    PlugItems(k, u);
    Regroup5(Before(k), t.pairs[..i], [p], t.pairs[i..], After(k));
    Regroup4(Before(k) + t.pairs[..i], [p], t.pairs[i..], After(k));
  }

  /** The new leaf is ready to be linked. */
  lemma LeafReady(s: State, k: Path, t: Tree, i: nat, p: Pair, off: nat, M: Dict, rest: multiset<nat>)
    requires Proper(k) && Stands(s, Plug(k, t), Depth(k), M)
             && Holding(s.book, Plug(k, t), rest + multiset{Start(p.val)} + multiset{Start(off)})
    requires PathShape(k, 0) && HoleShape(k, t, 0) && |t.pairs| < BTREE_MAX_KEYS && Between(t, i, p.key)
    requires Below(Before(k), p.key) && Above(After(k), p.key) && i <= |t.pairs|
    requires off < 2 * POW63 && NodeOn(s.img, WithPair(t, i, p, off), -1)
    ensures var u := WithPair(t, i, p, off);
            p.key !in M && Ready(s, k, u, 0, M[p.key := Load(s.img, p.val)])
              && Holding(s.book, Plug(k, u), rest + multiset{Start(t.off)})
  {
    hide Sound, StoredPath, NodeOn, Load, Below, Above, Before, After, Plug, Foot, Items, PathFoot, PathShape, Agrees,
         Sorted, Occupies;
    var u := WithPair(t, i, p, off);
    LeafItems(s.img, k, t, i, p, off, M);
    HoldsDown(s.img, k, t);
    LeafFoot(k, t, i, p, off);
    PlugFoot(k, u);
    Swapped(multiset(Live(s.book)), Foot(Plug(k, t)), Foot(Plug(k, u)), rest,
      multiset{Start(p.val)} + multiset{Start(off)}, multiset{Start(t.off)});
    OccupiesPart(s, Foot(Plug(k, u)), rest + multiset{Start(t.off)});
  }

  lemma OccupiesPart(s: State, f: multiset<nat>, rest: multiset<nat>)
    requires multiset(Live(s.book)) == f + rest
    ensures Occupies(f, s.book)
  {
  }

  lemma LeafFoot(k: Path, t: Tree, i: nat, p: Pair, off: nat)
    requires Proper(k) && i <= |t.pairs|
    ensures Foot(Plug(k, WithPair(t, i, p, off))) + multiset{Start(t.off)} == Foot(Plug(k, t))
            + (multiset{Start(p.val)} + multiset{Start(off)})
  {
    hide Foot, PairsFoot, KidsFoot, Plug, PathFoot;
    var u := WithPair(t, i, p, off);
    PlugFoot(k, t);
    PlugFoot(k, u);
    FootIs(t);
    FootIs(u);
    PairsFootWith(t.pairs, i, p);
    Moved4(PathFoot(k), multiset{Start(off)}, multiset{Start(t.off)}, multiset{Start(p.val)}, PairsFoot(t.pairs),
      KidsFoot(t.kids));
  }

  lemma Moved4(a: multiset<nat>, n: multiset<nat>, o: multiset<nat>, v: multiset<nat>, p: multiset<nat>,
               k: multiset<nat>)
    ensures (a + (n + (p + v) + k)) + o == (a + (o + p + k)) + (v + n)
  {
  }

  lemma Swapped(all: multiset<nat>, f: multiset<nat>, g: multiset<nat>, rest: multiset<nat>, x: multiset<nat>,
                y: multiset<nat>)
    requires (all == f + (rest + x) || all == f + rest + x) && g + y == f + x
    ensures all == g + (rest + y)
  {
    assert f + (rest + x) == (f + x) + rest && f + rest + x == (f + x) + rest && g + (rest + y) == (g + y) + rest;
  }

  lemma NodeClass()
    ensures ClassOf(BTREE_NODE_SIZE) != BLOCK_CLASS && SizeOf(ClassOf(BTREE_NODE_SIZE)) == 512
            && ClassOf(BTREE_NODE_SIZE) < BTREE_FREELIST_COUNT
  {
    assert Pow2(4) == 16;
    assert SizeOf(4) == 256 && SizeOf(5) == 512 && SizeOf(6) == 1024;
    ClassIs(ClassOf(BTREE_NODE_SIZE), 5, BTREE_NODE_SIZE + 8);
  }

  lemma NodeLabel(s: State, k: Path, t: Tree, h: nat, M: Dict)
    requires Proper(k) && Stands(s, Plug(k, t), h, M)
    ensures t.off >= 8 && Word(s.img, t.off - 8) == BTREE_NODE_SIZE
  {
    hide Sound, StoredPath, RecAt, Word, Plug, Foot, Items, Agrees, Sorted, Occupies, RootShape, Matches;
    HoldsDown(s.img, k, t);
  }

  /** The block of a node belongs to the class of nodes. */
  lemma NodeBooked(s: State, k: Path, t: Tree, h: nat, M: Dict)
    requires Proper(k) && Stands(s, Plug(k, t), h, M)
    ensures t.off >= 8 && t.off - 8 in s.book && s.book[t.off - 8].cls == ClassOf(BTREE_NODE_SIZE)
  {
    hide Stands, Sound, Word, Plug, Foot, PathFoot, Occupies, ClassOf;
    NodeLabel(s, k, t, h, M);
    StandsRooted(s, Plug(k, t), h, M);
    PlugFoot(k, t);
    FootIs(t);
    Occupied(Foot(Plug(k, t)), s.book, t.off - 8);
    SoundLabel(s, t.off - 8);
  }

  /** Insert a new key into a leaf that has room.  The release of the old leaf needs no new free list
      block, because a block of that class was obtained just before. */
  method InsertLeaf(bt: Btree, r: Rec, nodeptr: nat, pointedby: nat, i: nat, key: Key, val: seq<Byte>,
                    ghost k: Path, ghost t: Tree, ghost M: Dict, ghost rest: multiset<nat>)
    returns (ok: bool, ghost N: Dict, ghost left: multiset<nat>)
    requires Proper(k) && Stands(bt.Now(), Plug(k, t), Depth(k), M) && Holding(bt.book, Plug(k, t), rest)
    requires bt.rootptr == Word(bt.file, BTREE_HDR_ROOTPTR_POS) && |val| + 8 <= BTREE_PREALLOC_SIZE
    requires PathShape(k, 0) && HoleShape(k, t, 0) && |t.pairs| < BTREE_MAX_KEYS && Between(t, i, key)
    requires Below(Before(k), key) && Above(After(k), key)
    requires t.off == nodeptr && pointedby == Hook(k) && RecAt(bt.file, nodeptr) == Some(r)
    modifies bt
    ensures key !in M && Outcome(bt.Now(), old(bt.trail), bt.trail, M, key, val, true, ok,
            bt.refusals > old(bt.refusals), N, rest, left)
    ensures bt.rootptr == Word(bt.file, BTREE_HDR_ROOTPTR_POS) && bt.refusals >= old(bt.refusals)
  {
    hide Sound, Stands, Holding, Word, Kept, Same, Trail, Switches, Represents, Ready, RecAt, Matches, Storable, Load,
         Live, Outcome, NodeOn,
         Below, Above, Before, After, Plug, Foot, PathFoot, PathShape, HoleShape, Agrees, Hook, Between, SizeOf,
           ClassOf;
    ghost var (w, a, h) := (Plug(k, t), bt.trail, Depth(k));
    LeafStart(bt.Now(), k, t, r, i, key, M);
    N, left := M, rest;
    var valoff := StoreValue(bt, val, w, h, M, rest);
    if valoff == 0 {
      NothingDone(bt.Now(), a, bt.trail, w, h, M, key, val, true, true, rest, left);
      return false, N, left;
    }
    left := rest + multiset{valoff - 8};
    ghost var (b, p) := (bt.trail, Pair(key, valoff));
    var newoff := StoreLeaf(bt, r, i, key, valoff, t, w, h, M, left);
    TrailTwice(a, b, bt.trail, M);
    if newoff == 0 {
      NothingDone(bt.Now(), a, bt.trail, w, h, M, key, val, true, true, rest, left);
      return false, N, left;
    }
    ghost var (s, c, u) := (bt.Now(), bt.trail, WithPair(t, i, p, newoff));
    LeafReady(s, k, t, i, p, newoff, M, rest);
    NodeBooked(s, k, t, h, M);
    N := M[key := val];
    Link(bt, newoff, pointedby, k, u, 0, N);
    left := rest + multiset{nodeptr - 8};
    Switched(a, c, bt.trail, bt.Now(), Plug(k, u), h, M, N);
    ok, left := ReleaseOld(bt, nodeptr, a, Plug(k, u), h, M, N, rest);
    Finished(bt.Now(), a, bt.trail, Plug(k, u), h, M, N, key, val, ok, bt.refusals > old(bt.refusals), rest, left);
  }

  /** Obtain a block for the leaf with the new pair, and write it. */
  method StoreLeaf(bt: Btree, r: Rec, i: nat, key: Key, valoff: nat,
                   ghost t: Tree, ghost w: Tree, ghost h: nat, ghost M: Dict, ghost rest: multiset<nat>)
    returns (newoff: nat)
    requires Stands(bt.Now(), w, h, M) && Holding(bt.book, w, rest)
             && bt.rootptr == Word(bt.file, BTREE_HDR_ROOTPTR_POS)
    requires Matches(r, t, -1) && Storable(r) && |t.pairs| < BTREE_MAX_KEYS && i <= |t.pairs|
    requires 8 <= valoff < POW63 && valoff - 8 in Live(bt.book)
    modifies bt
    ensures newoff == 0 ==> Holding(bt.book, w, rest) && bt.refusals > old(bt.refusals)
    ensures newoff != 0 ==>
              && 8 <= newoff < POW63 && Holding(bt.book, w, rest + multiset{newoff - 8})
                 && bt.refusals == old(bt.refusals)
              && HasRoom(bt.lists, ClassOf(BTREE_NODE_SIZE))
              && NodeOn(bt.file, WithPair(t, i, Pair(key, valoff), newoff), -1)
                 && Load(bt.file, valoff) == Load(old(bt.file), valoff)
    ensures Stands(bt.Now(), w, h, M) && Trail(old(bt.trail), bt.trail, M)
            && bt.rootptr == Word(bt.file, BTREE_HDR_ROOTPTR_POS)
  {
    hide Sound, Stands, Holding, Word, Kept, Same, Trail, RecAt, Storable, Load, Live, NodeOn, Foot, SizeOf, ClassOf,
         HasRoom;
    ghost var (s1, a) := (bt.Now(), bt.trail);
    NodeClass();
    newoff := Obtain(bt, BTREE_NODE_SIZE, w, h, M, rest);
    if newoff == 0 {
      return;
    }
    ghost var (s2, b, p) := (bt.Now(), bt.trail, Pair(key, valoff));
    BookedLive(s2.book, newoff - 8, ClassOf(BTREE_NODE_SIZE));
    StandsRooted(s1, w, h, M);
    StandsRooted(s2, w, h, M);
    NotZero(s1);
    ValueStays(s1, s2, valoff, 0);
    PtrBound(s2, newoff);
    InsertMatches(r, t, i, p, newoff);
    WriteNode(bt, InsertKeyAt(r, i, key, valoff), newoff, w, h, M, rest + multiset{newoff - 8});
    TrailTwice(a, b, bt.trail, M);
    ValueStays(s2, bt.Now(), valoff, newoff - 8);
    NodeIs(bt.file, WithPair(t, i, p, newoff), InsertKeyAt(r, i, key, valoff));
  }

  /** Release a block that a commit took out of the tree. */
  method ReleaseOld(bt: Btree, ptr: nat, ghost a: seq<State>, ghost w: Tree, ghost h: nat, ghost M: Dict,
                    ghost N: Dict, ghost rest: multiset<nat>)
    returns (ok: bool, ghost left: multiset<nat>)
    requires Stands(bt.Now(), w, h, N) && ptr >= 8 && Holding(bt.book, w, rest + multiset{ptr - 8})
    requires bt.rootptr == Word(bt.file, BTREE_HDR_ROOTPTR_POS) && Switches(a, bt.trail, M, N)
    modifies bt
    ensures Stands(bt.Now(), w, h, N) && Holding(bt.book, w, left) && Switches(a, bt.trail, M, N)
    ensures bt.rootptr == Word(bt.file, BTREE_HDR_ROOTPTR_POS) && bt.refusals >= old(bt.refusals)
    ensures if ok then left == rest && bt.refusals == old(bt.refusals)
            else bt.refusals > old(bt.refusals) && NoRoomFor(old(bt.lists), old(bt.book), ptr - 8)
  {
    hide Stands, Holding, Word, Same, Trail, Live, Foot, Switches, NoRoomFor;
    ghost var b := bt.trail;
    left := rest + multiset{ptr - 8};
    ok := Discard(bt, ptr, w, h, N, left);
    SwitchesMore(a, b, bt.trail, M, N);
    if ok { left := left - multiset{ptr - 8}; }
  }

  lemma Finished(s: State, a: seq<State>, b: seq<State>, t: Tree, h: nat, M: Dict, N: Dict, key: Key, val: seq<Byte>,
                 ok: bool, refused: bool,
                 rest: multiset<nat>, left: multiset<nat>)
    requires Stands(s, t, h, N) && Holding(s.book, t, left) && Switches(a, b, M, N) && N == M[key := val]
    requires ok && (refused || left == rest)
    ensures Outcome(s, a, b, M, key, val, true, ok, refused, N, rest, left)
  {
    hide Rooted, Agrees, Foot, Switches, Items;
  }

  /** What a leaf under a path holds. */
  lemma LeafStart(s: State, k: Path, t: Tree, r: Rec, i: nat, key: Key, M: Dict)
    requires Proper(k) && Stands(s, Plug(k, t), Depth(k), M) && HoleShape(k, t, 0) && RecAt(s.img, t.off) == Some(r)
             && Between(t, i, key)
    requires Below(Before(k), key) && Above(After(k), key)
    ensures Matches(r, t, -1) && Storable(r) && t.kids == [] && i <= |t.pairs| && key !in M && t.off >= 8
    ensures r.numkeys == |t.pairs| && |r.keys| == |r.values| == BTREE_MAX_KEYS
  {
    hide Sound, StoredPath, Word, Below, Above, Before, After, Plug, Foot, Agrees, Sorted, Occupies, RecAt, Storable,
         Load;
    HoldsDown(s.img, k, t);
    RecStorable(s.img, t.off);
    LeafOrder(k, t, i, key);
    AgreesGap(s.img, Before(k) + t.pairs[..i], t.pairs[i..] + After(k), M, key);
  }

  lemma PtrBound(s: State, ptr: nat)
    requires Sound(s) && ptr >= 8 && ptr - 8 in Live(s.book)
    ensures ptr < POW63
  {
    hide Sound, SizeOf;
    ChunkBound(s, ptr - 8);
  }

  lemma BookedLive(b: Book, p: nat, c: nat)
    requires Booked(b, p, Chunk(c, InUse))
    ensures p in Live(b)
  {
  }

  lemma ValueStays(s: State, u: State, v: nat, p: nat)
    requires Same(s, u, p) && v >= 8 && v - 8 in Live(s.book) && v - 8 != p
    ensures Load(u.img, v) == Load(s.img, v) && v - 8 in Live(u.book)
  {
    hide Kept, Load, Live;
    SameAt(s, u, p, v - 8);
    LoadKept(s.img, u.img, v);
  }

  lemma NodeIs(img: Image, u: Tree, q: Rec)
    requires u.off >= 8 && RecAt(img, u.off) == Some(q) && Matches(q, u, -1) && Word(img, u.off - 8) == BTREE_NODE_SIZE
    ensures NodeOn(img, u, -1)
  {
  }

  lemma Switched(a: seq<State>, b: seq<State>, c: seq<State>, s: State, t: Tree, h: nat, M: Dict, N: Dict)
    requires Trail(a, b, M) && c == b + [s] && Stands(s, t, h, N)
    ensures Switches(a, c, M, N)
  {
    hide Trail, Rooted, Agrees;
    TrailOne(b, s, t, h, N);
  }

  lemma SwitchesMore(a: seq<State>, b: seq<State>, c: seq<State>, M: Dict, N: Dict)
    requires Switches(a, b, M, N) && Trail(b, c, N)
    ensures Switches(a, c, M, N)
  {
    hide Trail;
    var d :| Trail(a, d, M) && Trail(d, b, N);
    TrailTwice(d, b, c, N);
  }

  // ---------------------------------------------------------------- a new value for a key

  ghost function WithValue(t: Tree, i: nat, v: nat): Tree
    requires i < |t.pairs|
  {
    t.(pairs := t.pairs[i := Pair(t.pairs[i].key, v)])
  }

  lemma SortedSwap(a: seq<Pair>, o: Pair, b: seq<Pair>, p: Pair)
    requires Sorted(a + [o] + b) && p.key == o.key
    ensures Sorted(a + [p] + b)
  {
    var (s, t) := (a + [o] + b, a + [p] + b);
    forall i, j | 0 <= i < j < |t| ensures Rank(t[i].key) < Rank(t[j].key) {
      assert s[i].key == t[i].key && s[j].key == t[j].key;
    }
  }

  lemma OverItems(img: Image, k: Path, t: Tree, i: nat, v: nat, M: Dict)
    requires Proper(k) && i < |t.pairs| && (t.kids == [] || |t.kids| == |t.pairs| + 1)
    requires Sorted(Items(Plug(k, t))) && Agrees(img, Items(Plug(k, t)), M)
    ensures var w := Items(Plug(k, WithValue(t, i, v)));
            t.pairs[i].key in M && Sorted(w) && Agrees(img, w, M[t.pairs[i].key := Load(img, v)])
  {
    hide Load, Items, Plug, Ahead, Behind, Agrees, Sorted, Below, Above;
    var (a, o, b) := (Ahead(k, t, i), t.pairs[i], Behind(k, t, i));
    PairSplit(k, t, i);
    PairReplaced(k, t, i, v);
    SortedParts(a, o, b);
    SortedSwap(a, o, b, Pair(o.key, v));
    AgreesReplace(img, a, o, b, M, v);
  }

  lemma OverFoot(k: Path, t: Tree, i: nat, v: nat)
    requires Proper(k) && i < |t.pairs|
    ensures Foot(Plug(k, WithValue(t, i, v))) + multiset{Start(t.pairs[i].val)} == Foot(Plug(k, t)) + multiset{Start(v)}
    ensures PathFoot(k) + Foot(WithValue(t, i, v)) == Foot(Plug(k, WithValue(t, i, v)))
            && PathFoot(k) + Foot(t) == Foot(Plug(k, t))
  {
    hide Foot, PairsFoot, KidsFoot, Plug, PathFoot;
    var u := WithValue(t, i, v);
    PlugFoot(k, t);
    PlugFoot(k, u);
    FootIs(t);
    FootIs(u);
    PairsFootAt(t.pairs, i);
    PairsFootAt(u.pairs, i);
    assert u.pairs[..i] == t.pairs[..i] && u.pairs[i + 1..] == t.pairs[i + 1..];
    Moved6(PathFoot(k), multiset{Start(t.off)}, KidsFoot(t.kids), PairsFoot(t.pairs[..i]), PairsFoot(t.pairs[i + 1..]),
      multiset{Start(v)}, multiset{Start(t.pairs[i].val)});
  }

  lemma Moved6(a: multiset<nat>, n: multiset<nat>, k: multiset<nat>, l: multiset<nat>, r: multiset<nat>,
               v: multiset<nat>, o: multiset<nat>)
    ensures (a + (n + (l + v + r) + k)) + o == (a + (n + (l + o + r) + k)) + v
  {
  }

  /** The new value is ready to be pointed to. */
  ghost predicate ReadyOver(s: State, k: Path, t: Tree, i: nat, v: nat, h: nat, N: Dict) {
    && Sound(s) && Holds(s.img, k, t) && i < |t.pairs| && v < 2 * POW63 && PathShape(k, h) && HoleShape(k, t, h)
    && Occupies(PathFoot(k) + Foot(t), s.book) && Occupies(PathFoot(k) + Foot(WithValue(t, i, v)), s.book)
    && Sorted(Items(Plug(k, WithValue(t, i, v)))) && Agrees(s.img, Items(Plug(k, WithValue(t, i, v))), N)
  }

  lemma OverReady(s: State, k: Path, t: Tree, i: nat, v: nat, h: nat, M: Dict, rest: multiset<nat>)
    requires Proper(k) && Stands(s, Plug(k, t), h + Depth(k), M)
             && Holding(s.book, Plug(k, t), rest + multiset{Start(v)})
    requires PathShape(k, h) && HoleShape(k, t, h) && i < |t.pairs| && v < 2 * POW63
    ensures t.pairs[i].key in M && ReadyOver(s, k, t, i, v, h, M[t.pairs[i].key := Load(s.img, v)])
    ensures Holding(s.book, Plug(k, WithValue(t, i, v)), rest + multiset{Start(t.pairs[i].val)})
  {
    hide Sound, StoredPath, Stored, Word, Load, Plug, Foot, Items, PathFoot, PathShape, Agrees, Sorted, Occupies, Hook;
    OverItems(s.img, k, t, i, v, M);
    HoldsDown(s.img, k, t);
    OverFoot(k, t, i, v);
    var u := WithValue(t, i, v);
    Swapped(multiset(Live(s.book)), Foot(Plug(k, t)), Foot(Plug(k, u)), rest, multiset{Start(v)},
      multiset{Start(t.pairs[i].val)});
    OccupiesPart(s, Foot(Plug(k, u)), rest + multiset{Start(t.pairs[i].val)});
  }

  /** The pointer to a value is overwritten. */
  method LinkValue(bt: Btree, v: nat, nodeptr: nat, i: nat, ghost k: Path, ghost t: Tree, ghost h: nat, ghost N: Dict)
    requires ReadyOver(bt.Now(), k, t, i, v, h, N) && t.off == nodeptr
             && bt.rootptr == Word(bt.file, BTREE_HDR_ROOTPTR_POS)
    modifies bt`file, bt`trail
    ensures Stands(bt.Now(), Plug(k, WithValue(t, i, v)), h + Depth(k), N)
    ensures bt.rootptr == Word(bt.file, BTREE_HDR_ROOTPTR_POS) && bt.trail == old(bt.trail) + [bt.Now()]
  {
    hide Sound, Word, Patched, Stored, StoredPath, Items, Foot, PathFoot, Agrees, Sorted, Shape, PathShape, HoleShape,
         Rooted, Plug, Hook;
    ghost var s := bt.Now();
    CommitOver(s, k, t, i, v, h, N);
    bt.PwriteU64(v, nodeptr + VALUES_POS + 8 * i, s.(img := Patched(s.img, t.off + VALUES_POS + 8 * i, Big(v, 8))));
  }

  /** Replace the value of a key that a node holds; a failure to release the old value is passed over. */
  method Overwrite(bt: Btree, nodeptr: nat, i: nat, oldvaloff: nat, key: Key, val: seq<Byte>,
                   ghost k: Path, ghost t: Tree, ghost h: nat, ghost M: Dict, ghost rest: multiset<nat>)
    returns (ok: bool, ghost N: Dict, ghost left: multiset<nat>)
    requires Proper(k) && Stands(bt.Now(), Plug(k, t), h + Depth(k), M) && Holding(bt.book, Plug(k, t), rest)
    requires bt.rootptr == Word(bt.file, BTREE_HDR_ROOTPTR_POS) && |val| + 8 <= BTREE_PREALLOC_SIZE
    requires PathShape(k, h) && HoleShape(k, t, h) && i < |t.pairs| && t.off == nodeptr
             && t.pairs[i] == Pair(key, oldvaloff)
    modifies bt
    ensures key in M && Outcome(bt.Now(), old(bt.trail), bt.trail, M, key, val, true, ok,
            bt.refusals > old(bt.refusals), N, rest, left)
    ensures bt.rootptr == Word(bt.file, BTREE_HDR_ROOTPTR_POS) && bt.refusals >= old(bt.refusals)
  {
    hide Sound, Stands, Holding, Word, Kept, Same, Trail, Switches, Represents, ReadyOver, Load, Live, Outcome, Plug,
         Foot, PathFoot, PathShape, HoleShape, Agrees, SizeOf, ClassOf;
    ghost var (w, a, hh) := (Plug(k, t), bt.trail, h + Depth(k));
    OldValue(bt.Now(), k, t, i, h, M);
    N, left := M, rest;
    var newvaloff := StoreValue(bt, val, w, hh, M, rest);
    if newvaloff == 0 {
      NothingDone(bt.Now(), a, bt.trail, w, hh, M, key, val, true, true, rest, left);
      return false, N, left;
    }
    ghost var (s, b, u) := (bt.Now(), bt.trail, WithValue(t, i, newvaloff));
    OverReady(s, k, t, i, newvaloff, h, M, rest);
    N := M[key := val];
    LinkValue(bt, newvaloff, nodeptr, i, k, t, h, N);
    Switched(a, b, bt.trail, bt.Now(), Plug(k, u), hh, M, N);
    var released;
    released, left := ReleaseOld(bt, oldvaloff, a, Plug(k, u), hh, M, N, rest);
    ok := true;
    Finished(bt.Now(), a, bt.trail, Plug(k, u), hh, M, N, key, val, ok, bt.refusals > old(bt.refusals), rest, left);
  }

  lemma OldValue(s: State, k: Path, t: Tree, i: nat, h: nat, M: Dict)
    requires Proper(k) && Stands(s, Plug(k, t), h + Depth(k), M) && i < |t.pairs| && HoleShape(k, t, h)
    ensures t.pairs[i].val >= 8 && t.pairs[i].key in M
  {
    hide Sound, Agrees, Items, Foot, Sorted, Holds, Occupies, Plug, Ahead, Behind, RootShape, Load;
    PairSplit(k, t, i);
    assert t.pairs[i] in Items(Plug(k, t));
    ValueAt8(s, Plug(k, t), h + Depth(k), t.pairs[i]);
    AgreesHas(s.img, Items(Plug(k, t)), M, t.pairs[i]);
  }

  lemma AgreesHas(img: Image, items: seq<Pair>, M: Dict, p: Pair)
    requires Agrees(img, items, M) && p in items
    ensures p.key in M && M[p.key] == Load(img, p.val)
  {
    hide Load, HasKey;
  }

  // ---------------------------------------------------------------- splitting a full kid

  /** `memcpy` of the first half of a full node into a fresh one. */
  function LeftRec(c: Rec): Rec
    requires Lengths(c)
  {
    var z := FreshRec();
    Rec(HALF, c.isleaf, c.keys[..HALF] + z.keys[HALF..], c.values[..HALF] + z.values[HALF..],
      c.children[..HALF + 1] + z.children[HALF + 1..])
  }

  /** The same for the second half. */
  function RightRec(c: Rec): Rec
    requires Lengths(c)
  {
    var z := FreshRec();
    Rec(HALF, c.isleaf, c.keys[HALF + 1..] + z.keys[HALF..], c.values[HALF + 1..] + z.values[HALF..],
      c.children[HALF + 1..] + z.children[HALF + 1..])
  }

  /** The parent with the key in the middle, and the new kids around it; the rest moves up by one. */
  function ParentRec(r: Rec, i: nat, key: Key, val: nat, loff: nat, roff: nat): Rec
    requires Lengths(r) && i <= r.numkeys < BTREE_MAX_KEYS
  {
    var n := r.numkeys;
    InsertKeyAt(r, i, key, val).(children := r.children[..i] + [loff, roff] + r.children[i + 1..n + 1]
      + r.children[n + 2..])
  }

  predicate Lengths(r: Rec) {
    |r.keys| == BTREE_MAX_KEYS && |r.values| == BTREE_MAX_KEYS && |r.children| == BTREE_MAX_KEYS + 1
  }

  lemma LeftMatches(r: Rec, c: Tree, off: nat)
    requires Matches(r, c, -1) && Storable(r) && |c.pairs| == BTREE_MAX_KEYS
             && (c.kids == [] || |c.kids| == BTREE_MAX_KEYS + 1)
    ensures Matches(LeftRec(r), LeftHalf(c, off), -1) && Storable(LeftRec(r))
  {
    var q := LeftRec(r);
    forall v | v in q.values ensures v < 2 * POW63 { assert v in r.values || v == 0; }
    forall v | v in q.children ensures v < 2 * POW63 { assert v in r.children || v == 0; }
  }

  lemma RightMatches(r: Rec, c: Tree, off: nat)
    requires Matches(r, c, -1) && Storable(r) && |c.pairs| == BTREE_MAX_KEYS
             && (c.kids == [] || |c.kids| == BTREE_MAX_KEYS + 1)
    ensures Matches(RightRec(r), RightHalf(c, off), -1) && Storable(RightRec(r))
  {
    var q := RightRec(r);
    forall v | v in q.values ensures v < 2 * POW63 { assert v in r.values || v == 0; }
    forall v | v in q.children ensures v < 2 * POW63 { assert v in r.children || v == 0; }
  }

  lemma ParentCounts(r: Rec, n: Tree, i: nat, m: Pair, loff: nat, roff: nat)
    requires Matches(r, n, i) && |n.kids| == |n.pairs| + 1 && i < |n.kids| && |n.pairs| < BTREE_MAX_KEYS
    ensures Lengths(r) && i <= r.numkeys < BTREE_MAX_KEYS
    ensures var q := ParentRec(r, i, m.key, m.val, loff, roff);
            q.numkeys == |n.pairs| + 1 && q.isleaf == r.isleaf == 0 && |q.keys| == BTREE_MAX_KEYS
              && |q.values| == BTREE_MAX_KEYS
  {
  }

  lemma ParentPairs(r: Rec, n: Tree, i: nat, m: Pair, loff: nat, roff: nat)
    requires Matches(r, n, i) && |n.kids| == |n.pairs| + 1 && i < |n.kids| && |n.pairs| < BTREE_MAX_KEYS
    ensures var (q, ps) := (ParentRec(r, i, m.key, m.val, loff, roff), n.pairs[..i] + [m] + n.pairs[i..]);
            forall j | 0 <= j < |ps| :: q.keys[j] == ps[j].key && q.values[j] == ps[j].val
  {
    var (q, ps) := (ParentRec(r, i, m.key, m.val, loff, roff), n.pairs[..i] + [m] + n.pairs[i..]);
    forall j | 0 <= j < |ps| ensures q.keys[j] == ps[j].key && q.values[j] == ps[j].val {
      if j < i {
        assert ps[j] == n.pairs[j];
      } else if j > i {
        assert ps[j] == n.pairs[j - 1];
      }
    }
  }

  lemma ParentKids(r: Rec, n: Tree, i: nat, m: Pair, l: Tree, t: Tree)
    requires Matches(r, n, i) && |n.kids| == |n.pairs| + 1 && i < |n.kids| && |n.pairs| < BTREE_MAX_KEYS
    ensures var (q, ks) := (ParentRec(r, i, m.key, m.val, l.off, t.off), n.kids[..i] + [l, t] + n.kids[i + 1..]);
            |q.children| == BTREE_MAX_KEYS + 1 && forall j | 0 <= j < |ks| :: q.children[j] == ks[j].off
  {
    var (q, ks) := (ParentRec(r, i, m.key, m.val, l.off, t.off), n.kids[..i] + [l, t] + n.kids[i + 1..]);
    forall j | 0 <= j < |ks| ensures q.children[j] == ks[j].off {
      if j < i {
        assert ks[j] == n.kids[j];
      } else if j > i + 1 {
        assert ks[j] == n.kids[j - 1];
      }
    }
  }

  lemma ParentStorable(r: Rec, i: nat, key: Key, val: nat, loff: nat, roff: nat)
    requires Storable(r) && i <= r.numkeys < BTREE_MAX_KEYS && val < 2 * POW63 && loff < 2 * POW63 && roff < 2 * POW63
    ensures Storable(ParentRec(r, i, key, val, loff, roff))
  {
    var q := ParentRec(r, i, key, val, loff, roff);
    forall v | v in q.values ensures v < 2 * POW63 { assert v in r.values || v == val; }
    forall v | v in q.children ensures v < 2 * POW63 { assert v in r.children || v == loff || v == roff; }
  }

  lemma ParentMatches(r: Rec, n: Tree, i: nat, loff: nat, roff: nat, poff: nat, h: nat)
    requires Matches(r, n, i) && Splittable(n, i, h) && |n.kids| == |n.pairs| + 1
    ensures var (m, g) := (n.kids[i].pairs[HALF], Parted(n, i, loff, roff, poff));
            Matches(ParentRec(r, i, m.key, m.val, loff, roff), g, -1)
  {
    hide Shape, LeftHalf, RightHalf, ParentRec, Lengths;
    var (m, g) := (n.kids[i].pairs[HALF], Parted(n, i, loff, roff, poff));
    HalfOffs(n.kids[i], loff, roff);
    ParentCounts(r, n, i, m, loff, roff);
    ParentPairs(r, n, i, m, loff, roff);
    ParentKids(r, n, i, m, LeftHalf(n.kids[i], loff), RightHalf(n.kids[i], roff));
    var (q, ps) := (ParentRec(r, i, m.key, m.val, loff, roff), n.pairs[..i] + [m] + n.pairs[i..]);
    assert g.pairs == ps;
    forall j | 0 <= j < |g.pairs| ensures q.keys[j] == g.pairs[j].key && q.values[j] == g.pairs[j].val {
      assert q.keys[j] == ps[j].key && q.values[j] == ps[j].val;
    }
  }

  lemma HalfOffs(c: Tree, loff: nat, roff: nat)
    requires |c.pairs| == BTREE_MAX_KEYS && (c.kids == [] || |c.kids| == BTREE_MAX_KEYS + 1)
    ensures LeftHalf(c, loff).off == loff && RightHalf(c, roff).off == roff
  {
  }

  /** n is the node at the hook, or a new root above it that nothing points to yet. */
  ghost predicate Parent(k: Path, f: Tree, n: Tree) {
    f == n || (k.Top? && n.pairs == [] && n.kids == [f])
  }

  lemma ParentItems(k: Path, f: Tree, n: Tree)
    requires Parent(k, f, n)
    ensures Items(n) == Items(f)
  {
  }

  lemma SplitStored(img: Image, k: Path, f: Tree, n: Tree, i: nat, loff: nat, roff: nat, poff: nat, h: nat)
    requires Stored(img, f) && Parent(k, f, n) && Splittable(n, i, h) && |n.kids| == |n.pairs| + 1
    requires var c := n.kids[i]; NodeOn(img, LeftHalf(c, loff), -1) && NodeOn(img, RightHalf(c, roff), -1)
    requires NodeOn(img, Parted(n, i, loff, roff, poff), -1)
    ensures Stored(img, Parted(n, i, loff, roff, poff))
  {
    hide NodeOn, Shape;
    var (c, g) := (n.kids[i], Parted(n, i, loff, roff, poff));
    var (l, r) := (LeftHalf(c, loff), RightHalf(c, roff));
    forall m | m in n.kids ensures Stored(img, m) {
    }
    assert Stored(img, c);
    forall m | m in l.kids ensures Stored(img, m) { assert m in c.kids; }
    forall m | m in r.kids ensures Stored(img, m) { assert m in c.kids; }
    forall m | m in g.kids ensures Stored(img, m) {
      assert m in n.kids[..i] || m == l || m == r || m in n.kids[i + 1..];
      assert m == l || m == r || m in n.kids;
    }
  }

  /** The blocks that are left beside the tree with n as its node. */
  ghost function Base(f: Tree, n: Tree, rest: multiset<nat>): multiset<nat> {
    if f == n then rest else rest - multiset{Start(n.off)}
  }

  lemma SplitFoot(book: Book, k: Path, f: Tree, n: Tree, i: nat, loff: nat, roff: nat, poff: nat, h: nat,
                  rest: multiset<nat>)
    requires Proper(k) && Parent(k, f, n) && Splittable(n, i, h) && |n.kids| == |n.pairs| + 1
             && (f == n || Start(n.off) in rest)
    requires Holding(book, Plug(k, f), rest + multiset{Start(loff)} + multiset{Start(roff)} + multiset{Start(poff)})
    ensures Holding(book, Plug(k, Parted(n, i, loff, roff, poff)),
            Base(f, n, rest) + multiset{Start(n.off)} + multiset{Start(n.kids[i].off)})
  {
    hide Foot, PathFoot, Plug, Shape, Live;
    var g := Parted(n, i, loff, roff, poff);
    PlugFoot(k, f);
    PlugFoot(k, g);
    PartedFoot(n, i, loff, roff, poff, h);
    Two(Start(n.off), Start(n.kids[i].off));
    Three(Start(poff), Start(loff), Start(roff));
    ParentFoot(k, f, n);
    SplitSums(multiset(Live(book)), PathFoot(k), Foot(f), Foot(n), Foot(g), multiset{Start(loff)},
      multiset{Start(roff)}, multiset{Start(poff)},
              multiset{Start(n.off)}, multiset{Start(n.kids[i].off)}, rest, Base(f, n, rest));
  }

  lemma ParentFoot(k: Path, f: Tree, n: Tree)
    requires Parent(k, f, n)
    ensures f == n || Foot(n) == multiset{Start(n.off)} + Foot(f)
  {
    hide Foot;
    FootIs(n);
    if f != n {
      assert PairsFoot(n.pairs) == multiset{};
      KidsStep(f, []);
      EmptyFoot([]);
      assert [f] + [] == [f];
    }
  }

  lemma SplitSums(all: multiset<nat>, a: multiset<nat>, f: multiset<nat>, n: multiset<nat>, g: multiset<nat>,
                  l: multiset<nat>, r: multiset<nat>, p: multiset<nat>,
                  o: multiset<nat>, c: multiset<nat>, rest: multiset<nat>, base: multiset<nat>)
    requires all == (a + f) + (rest + l + r + p) && g + (o + c) == n + (p + l + r)
    requires (f == n && base == rest) || (n == o + f && rest == base + o)
    ensures all == (a + g) + (base + o + c)
  {
    assert f + rest == n + base;
    forall x: nat ensures all[x] == ((a + g) + (base + o + c))[x] {
      assert (f + rest)[x] == (n + base)[x];
      assert (g + (o + c))[x] == (n + (p + l + r))[x];
    }
  }

  /** The parent with the two halves below it is ready to be linked. */
  lemma SplitReady(s: State, k: Path, f: Tree, n: Tree, i: nat, loff: nat, roff: nat, poff: nat, h: nat, H: nat,
                   M: Dict, rest: multiset<nat>)
    requires Proper(k) && Stands(s, Plug(k, f), H, M) && Parent(k, f, n) && Splittable(n, i, h)
             && |n.kids| == |n.pairs| + 1
    requires f == n || Start(n.off) in rest
    requires Holding(s.book, Plug(k, f), rest + multiset{Start(loff)} + multiset{Start(roff)} + multiset{Start(poff)})
    requires PathShape(k, h + 1) && (k.Under? ==> |n.pairs| >= HALF) && poff < 2 * POW63
    requires var c := n.kids[i]; NodeOn(s.img, LeftHalf(c, loff), -1) && NodeOn(s.img, RightHalf(c, roff), -1)
    requires NodeOn(s.img, Parted(n, i, loff, roff, poff), -1)
    ensures var g := Parted(n, i, loff, roff, poff);
            && Ready(s, k, g, h + 1, M) && |g.pairs| == |n.pairs| + 1
            && Holding(s.book, Plug(k, g), Base(f, n, rest) + multiset{Start(n.off)} + multiset{Start(n.kids[i].off)})
  {
    hide Sound, StoredPath, Stored, NodeOn, Word, Plug, Foot, Items, PathFoot, PathShape, Agrees, Sorted, Occupies,
         Hook, Shape, Base, Before, After;
    var g := Parted(n, i, loff, roff, poff);
    HoldsDown(s.img, k, f);
    SplitStored(s.img, k, f, n, i, loff, roff, poff, h);
    SplitFoot(s.book, k, f, n, i, loff, roff, poff, h, rest);
    PartedItems(n, i, loff, roff, poff, h);
    ParentItems(k, f, n);
    PlugItems(k, f);
    PlugItems(k, g);
    PlugFoot(k, g);
    PartedShape(n, i, loff, roff, poff, h);
    OccupiesPart(s, Foot(Plug(k, g)), Base(f, n, rest) + multiset{Start(n.off)} + multiset{Start(n.kids[i].off)});
  }

  lemma NodeStays(s: State, u: State, t: Tree, p: nat)
    requires Same(s, u, p) && NodeOn(s.img, t, -1) && Start(t.off) in Live(s.book) && Start(t.off) != p
    ensures NodeOn(u.img, t, -1) && Start(t.off) in Live(u.book)
  {
    hide Kept, NodeOn, Live;
    SameAt(s, u, p, Start(t.off));
    NodeKept(s.img, u.img, t, -1);
  }

  /** What the records of the two nodes say before the split. */
  lemma SplitStart(s: State, k: Path, f: Tree, n: Tree, i: nat, h: nat, H: nat, M: Dict, rest: multiset<nat>)
    requires Proper(k) && Stands(s, Plug(k, f), H, M) && Parent(k, f, n) && Splittable(n, i, h)
             && Holding(s.book, Plug(k, f), rest)
    requires NodeOn(s.img, n, i) && (f == n || Start(n.off) in rest)
    ensures |n.kids| == |n.pairs| + 1 && i < |n.kids| && n.off >= 8 && n.kids[i].off >= 8 && Halvable(n.kids[i])
    ensures n.off + BTREE_NODE_SIZE <= |s.img| && n.kids[i].off + BTREE_NODE_SIZE <= |s.img|
    ensures RecAt(s.img, n.off).Some? && Matches(RecAt(s.img, n.off).value, n, i) && Storable(RecAt(s.img, n.off).value)
    ensures RecAt(s.img, n.kids[i].off).Some? && Matches(RecAt(s.img, n.kids[i].off).value, n.kids[i], -1)
            && Storable(RecAt(s.img, n.kids[i].off).value)
  {
    hide Sound, StoredPath, Word, Plug, Foot, Items, Agrees, Sorted, Occupies, Matches, Storable, Live;
    HoldsDown(s.img, k, f);
    SplitShape(n, h);
    assert n.kids[i] in n.kids;
    assert Stored(s.img, n.kids[i]);
    RecStorable(s.img, n.off);
    RecStorable(s.img, n.kids[i].off);
  }

  ghost predicate Halvable(c: Tree) {
    |c.pairs| == BTREE_MAX_KEYS && (c.kids == [] || |c.kids| == BTREE_MAX_KEYS + 1)
  }

  /** Obtain blocks for the two halves of a node, and write them. */
  method StoreHalves(bt: Btree, r: Rec, ghost c: Tree, ghost w: Tree, ghost H: nat, ghost M: Dict,
                     ghost rest: multiset<nat>)
    returns (loff: nat, roff: nat, ghost left: multiset<nat>)
    requires Stands(bt.Now(), w, H, M) && Holding(bt.book, w, rest)
             && bt.rootptr == Word(bt.file, BTREE_HDR_ROOTPTR_POS)
    requires Halvable(c) && Matches(r, c, -1) && Storable(r)
    modifies bt
    ensures Trail(old(bt.trail), bt.trail, M) && bt.rootptr == Word(bt.file, BTREE_HDR_ROOTPTR_POS)
    ensures Stands(bt.Now(), w, H, M) && Holding(bt.book, w, left) && Same(old(bt.Now()), bt.Now(), 0)
    ensures bt.refusals >= old(bt.refusals) && (roff == 0 ==> bt.refusals > old(bt.refusals))
    ensures roff != 0 ==>
              && NodeOn(bt.file, LeftHalf(c, loff), -1) && NodeOn(bt.file, RightHalf(c, roff), -1)
              && loff >= 8 && loff - 8 in Live(bt.book) && roff >= 8 && roff - 8 in Live(bt.book)
              && left == rest + multiset{loff - 8} + multiset{roff - 8}
    ensures forall p | p in rest :: p in left
  {
    hide Sound, Stands, Holding, Word, Kept, Same, Trail, RecAt, Matches, Storable, Live, Lengths, Foot, SizeOf,
         ClassOf, LeftRec, RightRec, LeftHalf, RightHalf, NodeOn;
    ghost var (s0, a) := (bt.Now(), bt.trail);
    StandsRooted(s0, w, H, M);
    NotZero(s0);
    SameSelf(s0);
    TrailSelf(a, M);
    LengthsOf(r, c);
    var (lnode, rnode) := (LeftRec(r), RightRec(r));
    left, roff := rest, 0;
    loff := Obtain(bt, BTREE_NODE_SIZE, w, H, M, rest);
    if loff == 0 {
      return;
    }
    left := rest + multiset{loff - 8};
    ghost var (s1, a1) := (bt.Now(), bt.trail);
    BookedLive(s1.book, loff - 8, ClassOf(BTREE_NODE_SIZE));
    roff := Obtain(bt, BTREE_NODE_SIZE, w, H, M, left);
    TrailTwice(a, a1, bt.trail, M);
    ghost var (s2, a2) := (bt.Now(), bt.trail);
    StandsRooted(s1, w, H, M);
    NotZero(s1);
    SameTwice(s0, s1, s2, 0);
    if roff == 0 {
      return;
    }
    BookedLive(s2.book, roff - 8, ClassOf(BTREE_NODE_SIZE));
    left := left + multiset{roff - 8};
    SameLabel(s1, s2, loff);
    LeftMatches(r, c, loff);
    RightMatches(r, c, roff);
    HalfOffs(c, loff, roff);
    WriteNode(bt, lnode, loff, w, H, M, left);
    TrailTwice(a, a2, bt.trail, M);
    ghost var (s3, a3) := (bt.Now(), bt.trail);
    NodeIs(s3.img, LeftHalf(c, loff), lnode);
    SameLabel3(s2, s3, roff, loff - 8);
    WriteNode(bt, rnode, roff, w, H, M, left);
    TrailTwice(a, a3, bt.trail, M);
    ghost var s4 := bt.Now();
    NodeIs(s4.img, RightHalf(c, roff), rnode);
    NodeStays(s3, s4, LeftHalf(c, loff), roff - 8);
    SameFresh(s0, s2, s3, loff - 8);
    NotBefore(s0, s1, roff - 8);
    SameFresh(s0, s3, s4, roff - 8);
  }

  lemma NotBefore(s: State, t: State, p: nat)
    requires Same(s, t, 0) && 0 !in Live(s.book) && p !in Live(t.book)
    ensures p !in Live(s.book)
  {
    hide Kept;
  }

  lemma LengthsOf(r: Rec, c: Tree)
    requires Matches(r, c, -1)
    ensures Lengths(r)
  {
  }

  lemma SameSelf(s: State)
    requires Sound(s)
    ensures Same(s, s, 0)
  {
    hide Sound, Steady, Kept;
    SteadySelf(s, Live(s.book));
    SteadyKept(s, s, Live(s.book));
  }

  lemma SteadyKept(s: State, t: State, keep: set<nat>)
    requires Steady(s, t, keep)
    ensures forall p | p in keep :: Kept(s.img, t.img, p)
  {
    hide Kept, Word;
  }

  lemma SameTwice(s: State, t: State, u: State, p: nat)
    requires Same(s, t, 0) && Same(t, u, p) && p !in Live(s.book) && 0 !in Live(s.book)
    ensures Same(s, u, 0)
  {
    hide Kept;
    forall q | q in Live(s.book) ensures q in u.book && u.book[q] == s.book[q] && Kept(s.img, u.img, q) {
      assert q in Live(t.book);
      KeptTwice(s.img, t.img, u.img, q);
    }
  }

  /** A write into a block that was not in use before. */
  lemma SameFresh(s: State, t: State, u: State, p: nat)
    requires Same(s, t, 0) && Same(t, u, p) && p !in Live(s.book) && 0 !in Live(s.book)
    ensures Same(s, u, 0)
  {
    hide Same;
    SameTwice(s, t, u, p);
  }

  lemma SameLabel(s: State, u: State, o: nat)
    requires Sound(s) && Same(s, u, 0) && o >= 8 && o - 8 in Live(s.book)
    ensures Word(u.img, o - 8) == Word(s.img, o - 8) && o - 8 in Live(u.book)
  {
    hide Sound, Live, Kept, Word;
    NotZero(s);
    SameAt(s, u, 0, o - 8);
    KeptLabel(s.img, u.img, o - 8);
  }

  lemma SameLabel3(s: State, u: State, o: nat, p: nat)
    requires Same(s, u, p) && o >= 8 && o - 8 in Live(s.book) && o - 8 != p
    ensures Word(u.img, o - 8) == Word(s.img, o - 8) && o - 8 in Live(u.book)
  {
    hide Live, Kept, Word;
    SameAt(s, u, p, o - 8);
    KeptLabel(s.img, u.img, o - 8);
  }

  /** Obtain a block for the changed parent, and write it. */
  method StoreParent(bt: Btree, p: Rec, c: Rec, i: nat, loff: nat, roff: nat,
                     ghost n: Tree, ghost h: nat, ghost w: Tree, ghost H: nat, ghost M: Dict, ghost rest: multiset<nat>)
    returns (poff: nat)
    requires Stands(bt.Now(), w, H, M) && Holding(bt.book, w, rest)
             && bt.rootptr == Word(bt.file, BTREE_HDR_ROOTPTR_POS)
    requires Splittable(n, i, h) && |n.kids| == |n.pairs| + 1 && i < |n.kids| && Halvable(n.kids[i])
    requires Matches(p, n, i) && Storable(p) && Matches(c, n.kids[i], -1) && Storable(c)
    requires NodeOn(bt.file, LeftHalf(n.kids[i], loff), -1) && NodeOn(bt.file, RightHalf(n.kids[i], roff), -1)
    requires loff >= 8 && loff - 8 in Live(bt.book) && roff >= 8 && roff - 8 in Live(bt.book)
    modifies bt
    ensures Trail(old(bt.trail), bt.trail, M) && bt.rootptr == Word(bt.file, BTREE_HDR_ROOTPTR_POS)
    ensures Stands(bt.Now(), w, H, M) && bt.refusals >= old(bt.refusals)
    ensures poff == 0 ==> bt.refusals > old(bt.refusals) && Holding(bt.book, w, rest)
    ensures poff != 0 ==>
              && NodeOn(bt.file, LeftHalf(n.kids[i], loff), -1) && NodeOn(bt.file, RightHalf(n.kids[i], roff), -1)
              && NodeOn(bt.file, Parted(n, i, loff, roff, poff), -1)
              && 8 <= poff < POW63 && Holding(bt.book, w, rest + multiset{poff - 8})
  {
    hide Sound, Stands, Holding, Word, Kept, Same, Trail, RecAt, Matches, Storable, Live, NodeOn, Splittable, Lengths,
         Foot, SizeOf, ClassOf, LeftHalf, RightHalf, Parted;
    ghost var (s1, a, k) := (bt.Now(), bt.trail, n.kids[i]);
    SplitFacts(n, i, h, p, c);
    var pnode := ParentRec(p, i, c.keys[HALF], c.values[HALF], loff, roff);
    poff := Obtain(bt, BTREE_NODE_SIZE, w, H, M, rest);
    if poff == 0 {
      return;
    }
    ghost var (s2, a2) := (bt.Now(), bt.trail);
    BookedLive(s2.book, poff - 8, ClassOf(BTREE_NODE_SIZE));
    StandsRooted(s1, w, H, M);
    StandsRooted(s2, w, H, M);
    NotZero(s1);
    PtrBound(s1, loff);
    PtrBound(s1, roff);
    PtrBound(s2, poff);
    HalfOffs(k, loff, roff);
    NodeStays(s1, s2, LeftHalf(k, loff), 0);
    NodeStays(s1, s2, RightHalf(k, roff), 0);
    ParentMatches(p, n, i, loff, roff, poff, h);
    ParentStorable(p, i, c.keys[HALF], c.values[HALF], loff, roff);
    WriteNode(bt, pnode, poff, w, H, M, rest + multiset{poff - 8});
    TrailTwice(a, a2, bt.trail, M);
    ghost var s3 := bt.Now();
    NodeStays(s2, s3, LeftHalf(k, loff), poff - 8);
    NodeStays(s2, s3, RightHalf(k, roff), poff - 8);
    PartedOff(n, i, loff, roff, poff);
    NodeIs(s3.img, Parted(n, i, loff, roff, poff), pnode);
  }

  lemma PartedOff(n: Tree, i: nat, loff: nat, roff: nat, poff: nat)
    requires |n.kids| == |n.pairs| + 1 && i < |n.kids| && Halvable(n.kids[i])
    ensures Parted(n, i, loff, roff, poff).off == poff
  {
  }

  /** Split the i-th kid of a node; the parent moves as well, and takes the place of what `pointedby` leads to. */
  method SplitChild(bt: Btree, pointedby: nat, parentoff: nat, i: nat, childoff: nat,
                    ghost k: Path, ghost f: Tree, ghost n: Tree, ghost h: nat, ghost H: nat, ghost M: Dict,
                      ghost rest: multiset<nat>)
    returns (ok: bool, newparent: nat, ghost g: Tree, ghost left: multiset<nat>)
    requires Proper(k) && Stands(bt.Now(), Plug(k, f), H, M) && Holding(bt.book, Plug(k, f), rest)
    requires bt.rootptr == Word(bt.file, BTREE_HDR_ROOTPTR_POS)
    requires Parent(k, f, n) && Splittable(n, i, h) && (f == n || Start(n.off) in rest) && NodeOn(bt.file, n, i)
    requires PathShape(k, h + 1) && (k.Under? ==> |n.pairs| >= HALF)
    requires n.off == parentoff && n.kids[i].off == childoff && pointedby == Hook(k)
    modifies bt
    ensures Trail(old(bt.trail), bt.trail, M) && bt.rootptr == Word(bt.file, BTREE_HDR_ROOTPTR_POS)
    ensures ok ==>
              && Stands(bt.Now(), Plug(k, g), h + 1 + Depth(k), M) && Holding(bt.book, Plug(k, g), left)
              && HoleShape(k, g, h + 1) && |g.pairs| == |n.pairs| + 1 && g.off == newparent
                 && IsParted(g, n, i, newparent)
              && (bt.refusals > old(bt.refusals) || left == Base(f, n, rest))
    ensures !ok ==> Stands(bt.Now(), Plug(k, f), H, M) && Holding(bt.book, Plug(k, f), left)
    ensures bt.refusals >= old(bt.refusals) && (!ok ==> bt.refusals > old(bt.refusals))
  {
    hide Sound, Stands, Holding, Word, Kept, Same, Trail, Ready, RecAt, Matches, Storable, Live, NodeOn, Splittable,
         Parent, Lengths, Parted, LeftHalf, RightHalf, IsParted,
         Plug, Foot, PathFoot, PathShape, HoleShape, Hook, SizeOf, ClassOf, Base;
    ghost var (w, a) := (Plug(k, f), bt.trail);
    g, left, newparent := f, rest, 0;
    SplitStart(bt.Now(), k, f, n, i, h, H, M, rest);
    var parent := ReadNode(bt, parentoff);
    var child := ReadNode(bt, childoff);
    ghost var (s0, c) := (bt.Now(), n.kids[i]);
    SplitFacts(n, i, h, parent.value, child.value);
    var loff, roff;
    loff, roff, left := StoreHalves(bt, child.value, c, w, H, M, rest);
    if roff == 0 {
      return false, 0, g, left;
    }
    ghost var (s1, a1) := (bt.Now(), bt.trail);
    var poff := StoreParent(bt, parent.value, child.value, i, loff, roff, n, h, w, H, M, left);
    TrailTwice(a, a1, bt.trail, M);
    if poff == 0 {
      return false, 0, g, left;
    }
    ghost var (s3, a3) := (bt.Now(), bt.trail);
    g := Parted(n, i, loff, roff, poff);
    SplitReady(s3, k, f, n, i, loff, roff, poff, h, H, M, rest);
    newparent := poff;
    ReadyHole(s3, k, g, h + 1, M);
    PartedIs(n, i, loff, roff, poff);
    left := Relink(bt, pointedby, parentoff, childoff, poff, k, g, h + 1, M, Base(f, n, rest));
    TrailTwice(a, a3, bt.trail, M);
    ok := true;
  }

  lemma PartedIs(n: Tree, i: nat, loff: nat, roff: nat, poff: nat)
    requires |n.kids| == |n.pairs| + 1 && i < |n.kids| && Halvable(n.kids[i])
    ensures IsParted(Parted(n, i, loff, roff, poff), n, i, poff) && Parted(n, i, loff, roff, poff).off == poff
  {
    var g := Parted(n, i, loff, roff, poff);
    hide Parted;
    assert g == Parted(n, i, loff, roff, poff);
  }

  /** Point to the new parent, then release the old parent and the old kid; failures to do so are passed over. */
  method Relink(bt: Btree, pointedby: nat, parentoff: nat, childoff: nat, poff: nat,
                ghost k: Path, ghost g: Tree, ghost h: nat, ghost M: Dict, ghost base: multiset<nat>)
    returns (ghost left: multiset<nat>)
    requires Proper(k) && Ready(bt.Now(), k, g, h, M) && g.off == poff && pointedby == Hook(k)
             && bt.rootptr == Word(bt.file, BTREE_HDR_ROOTPTR_POS)
    requires parentoff >= 8 && childoff >= 8
             && Holding(bt.book, Plug(k, g), base + multiset{parentoff - 8} + multiset{childoff - 8})
    modifies bt
    ensures Trail(old(bt.trail), bt.trail, M) && bt.rootptr == Word(bt.file, BTREE_HDR_ROOTPTR_POS)
    ensures Stands(bt.Now(), Plug(k, g), h + Depth(k), M) && Holding(bt.book, Plug(k, g), left)
    ensures bt.refusals >= old(bt.refusals) && (bt.refusals > old(bt.refusals) || left == base)
  {
    hide Stands, Holding, Word, Same, Trail, Ready, Live, Plug, Hook, Foot;
    ghost var (a, w, H) := (bt.trail, Plug(k, g), h + Depth(k));
    ReadyHole(bt.Now(), k, g, h, M);
    Link(bt, poff, pointedby, k, g, h, M);
    SwitchSame(a, a, bt.trail, bt.Now(), w, H, M);
    ghost var b := bt.trail;
    left := DiscardTwo(bt, parentoff, childoff, w, H, M, base);
    TrailTwice(a, b, bt.trail, M);
  }

  /** Release two blocks, passing over failures to do so. */
  method DiscardTwo(bt: Btree, x: nat, y: nat, ghost w: Tree, ghost H: nat, ghost M: Dict, ghost base: multiset<nat>)
    returns (ghost left: multiset<nat>)
    requires Stands(bt.Now(), w, H, M) && bt.rootptr == Word(bt.file, BTREE_HDR_ROOTPTR_POS)
    requires x >= 8 && y >= 8 && Holding(bt.book, w, base + multiset{x - 8} + multiset{y - 8})
    modifies bt
    ensures Trail(old(bt.trail), bt.trail, M) && bt.rootptr == Word(bt.file, BTREE_HDR_ROOTPTR_POS)
    ensures Stands(bt.Now(), w, H, M) && Holding(bt.book, w, left)
    ensures bt.refusals >= old(bt.refusals) && (bt.refusals > old(bt.refusals) || left == base)
  {
    hide Stands, Holding, Word, Same, Trail, Live, Foot;
    ghost var a := bt.trail;
    LastTwo(base, x - 8, y - 8);
    left := base + multiset{x - 8} + multiset{y - 8};
    var released := Discard(bt, x, w, H, M, left);
    if released { left := base + multiset{y - 8}; }
    ghost var b := bt.trail;
    released := Discard(bt, y, w, H, M, left);
    TrailTwice(a, b, bt.trail, M);
    if released { left := left - multiset{y - 8}; }
  }

  lemma LastTwo(base: multiset<nat>, x: nat, y: nat)
    ensures x in base + multiset{x} + multiset{y} && y in base + multiset{x} + multiset{y} && y in base + multiset{y}
    ensures base + multiset{x} + multiset{y} - multiset{x} == base + multiset{y}
            && base + multiset{y} - multiset{y} == base
  {
  }

  lemma SplitFacts(n: Tree, i: nat, h: nat, p: Rec, c: Rec)
    requires Splittable(n, i, h) && |n.kids| == |n.pairs| + 1 && Matches(p, n, i) && Matches(c, n.kids[i], -1)
             && Storable(c)
    ensures Halvable(n.kids[i]) && Lengths(p) && Lengths(c) && i <= p.numkeys < BTREE_MAX_KEYS
            && c.values[HALF] < 2 * POW63
    ensures c.keys[HALF] == n.kids[i].pairs[HALF].key && c.values[HALF] == n.kids[i].pairs[HALF].val
  {
    assert c.values[HALF] in c.values;
  }

  lemma ReadyHole(s: State, k: Path, g: Tree, h: nat, M: Dict)
    requires Ready(s, k, g, h, M)
    ensures Proper(k) && HoleShape(k, g, h)
  {
  }

  lemma SwitchSame(a: seq<State>, b: seq<State>, c: seq<State>, s: State, t: Tree, h: nat, M: Dict)
    requires (a == b || Trail(a, b, M)) && c == b + [s] && Stands(s, t, h, M)
    ensures Trail(a, c, M)
  {
    hide Trail, Rooted, Agrees;
    TrailSelf(a, M);
    TrailOne(b, s, t, h, M);
    TrailTwice(a, b, c, M);
  }

  // ---------------------------------------------------------------- insertion

  /** The last key of a node that is not above the one sought. */
  method SeekKey(r: Rec, key: Key) returns (i: int, found: bool)
    requires r.numkeys <= |r.keys|
    ensures found ==> 0 <= i < r.numkeys && r.keys[i] == key
    ensures !found ==> -1 <= i < r.numkeys
    ensures !found && i >= 0 ==> Rank(r.keys[i]) < Rank(key)
    ensures !found && i + 1 < r.numkeys ==> Rank(key) < Rank(r.keys[i + 1])
  {
    i, found := r.numkeys - 1, false;
    while true
      invariant -1 <= i < r.numkeys && !found
      invariant i + 1 < r.numkeys ==> Rank(key) < Rank(r.keys[i + 1])
      decreases i
    {
      if i < 0 {
        break;
      }
      var cmp := Memcmp(key, r.keys[i]);
      MemcmpOrder(key, r.keys[i]);
      if cmp == 0 {
        found := true;
        break;
      }
      if cmp >= 0 {
        break;
      }
      i := i - 1;
    }
  }

  /** What a node under a path holds. */
  lemma NodeStart(s: State, k: Path, t: Tree, h: nat, M: Dict)
    requires Proper(k) && Stands(s, Plug(k, t), h + Depth(k), M) && HoleShape(k, t, h)
    ensures t.off + BTREE_NODE_SIZE <= |s.img| && RecAt(s.img, t.off).Some?
            && Matches(RecAt(s.img, t.off).value, t, -1) && Storable(RecAt(s.img, t.off).value)
    ensures NodeOn(s.img, t, -1) && (t.kids == [] <==> h == 0) && (h > 0 ==> |t.kids| == |t.pairs| + 1)
    ensures forall i | 0 <= i < |t.kids| ::
              t.kids[i].off + BTREE_NODE_SIZE <= |s.img| && RecAt(s.img, t.kids[i].off).Some?
                && RecAt(s.img, t.kids[i].off).value.numkeys == |t.kids[i].pairs|
  {
    hide Sound, StoredPath, Word, Plug, Foot, Items, Agrees, Sorted, Occupies, Storable;
    HoldsDown(s.img, k, t);
    RecStorable(s.img, t.off);
    forall i | 0 <= i < |t.kids| ensures Stored(s.img, t.kids[i]) { assert t.kids[i] in t.kids; }
  }

  lemma StandsSorted(s: State, t: Tree, h: nat, M: Dict)
    requires Stands(s, t, h, M)
    ensures Sorted(Items(t))
  {
    hide Sound, Sorted, Items, Foot, RootShape, Holds, Agrees, Occupies;
  }

  /** The outcome of a run that first left the map as it was. */
  lemma OutcomeAfter(s: State, a: seq<State>, b: seq<State>, c: seq<State>, M: Dict, key: Key, val: seq<Byte>,
                     wanted: bool, ok: bool,
                     before: bool, refused: bool, N: Dict, rest: multiset<nat>, middle: multiset<nat>,
                       left: multiset<nat>)
    requires Trail(a, b, M) && Outcome(s, b, c, M, key, val, wanted, ok, refused, N, middle, left)
    requires before || middle == rest
    ensures Outcome(s, a, c, M, key, val, wanted, ok, before || refused, N, rest, left)
  {
    hide Trail, Switches, Represents;
    TrailThen(a, b, c, M, N);
  }

  /** The key is in this node, or the node is a leaf. */
  method AddHere(bt: Btree, r: Rec, i: int, found: bool, nodeptr: nat, pointedby: nat, key: Key, val: seq<Byte>,
                 replace: bool,
                 ghost k: Path, ghost t: Tree, ghost h: nat, ghost M: Dict, ghost rest: multiset<nat>)
    returns (ok: bool, ghost N: Dict, ghost left: multiset<nat>)
    requires Proper(k) && Stands(bt.Now(), Plug(k, t), h + Depth(k), M) && Holding(bt.book, Plug(k, t), rest)
    requires bt.rootptr == Word(bt.file, BTREE_HDR_ROOTPTR_POS) && |val| + 8 <= BTREE_PREALLOC_SIZE
    requires PathShape(k, h) && HoleShape(k, t, h) && Roomy(t, key) && Below(Before(k), key) && Above(After(k), key)
    requires t.off == nodeptr && pointedby == Hook(k) && RecAt(bt.file, nodeptr) == Some(r) && Matches(r, t, -1)
    requires if found then 0 <= i < |t.pairs| && t.pairs[i].key == key
             else t.kids == [] && h == 0 && i >= -1 && Between(t, i + 1, key)
    modifies bt
    ensures Outcome(bt.Now(), old(bt.trail), bt.trail, M, key, val, key !in M || replace, ok,
            bt.refusals > old(bt.refusals), N, rest, left)
    ensures bt.rootptr == Word(bt.file, BTREE_HDR_ROOTPTR_POS) && bt.refusals >= old(bt.refusals)
  {
    hide Sound, Stands, Holding, Word, Trail, Outcome, Live, FullBelow, Plug, Foot, PathFoot, PathShape, HoleShape,
         Hook, Before, After, Below, Above, RecAt;
    if found {
      OldValue(bt.Now(), k, t, i, h, M);
      if !replace {
        TrailSelf(bt.trail, M);
        N, left := M, rest;
        NothingDone(bt.Now(), bt.trail, bt.trail, Plug(k, t), h + Depth(k), M, key, val, false, false, rest, left);
        return false, N, left;
      }
      ok, N, left := Overwrite(bt, nodeptr, i, r.values[i], key, val, k, t, h, M, rest);
    } else {
      ok, N, left := InsertLeaf(bt, r, nodeptr, pointedby, i + 1, key, val, k, t, M, rest);
    }
  }

  method AddNonfull(bt: Btree, nodeptr: nat, pointedby: nat, key: Key, val: seq<Byte>, replace: bool,
                    ghost k: Path, ghost t: Tree, ghost h: nat, ghost M: Dict, ghost rest: multiset<nat>)
    returns (ok: bool, ghost N: Dict, ghost left: multiset<nat>)
    requires Proper(k) && Stands(bt.Now(), Plug(k, t), h + Depth(k), M) && Holding(bt.book, Plug(k, t), rest)
    requires bt.rootptr == Word(bt.file, BTREE_HDR_ROOTPTR_POS) && |val| + 8 <= BTREE_PREALLOC_SIZE
    requires PathShape(k, h) && HoleShape(k, t, h) && Roomy(t, key) && Below(Before(k), key) && Above(After(k), key)
    requires t.off == nodeptr && pointedby == Hook(k)
    modifies bt
    ensures Outcome(bt.Now(), old(bt.trail), bt.trail, M, key, val, key !in M || replace, ok,
            bt.refusals > old(bt.refusals), N, rest, left)
    ensures bt.rootptr == Word(bt.file, BTREE_HDR_ROOTPTR_POS) && bt.refusals >= old(bt.refusals)
    decreases h, FullBelow(t, key)
  {
    hide Sound, Stands, Holding, Word, Same, Trail, Outcome, Live, NodeOn, Splittable, FullBelow,
         Plug, Foot, PathFoot, PathShape, HoleShape, Hook, Before, After, Below, Above, Base, Storable, RecAt, Sorted,
           Items;
    ghost var a := bt.trail;
    TrailSelf(a, M);
    N, left := M, rest;
    NodeStart(bt.Now(), k, t, h, M);
    var n := ReadNode(bt, nodeptr);
    var i, found := SeekKey(n.value, key);
    if found || n.value.isleaf != 0 {
      ok, N, left := AddHere(bt, n.value, i, found, nodeptr, pointedby, key, val, replace, k, t, h, M, rest);
      return ok, N, left;
    }
    i := i + 1;
    assert Between(t, i, key);
    var child := ReadNode(bt, n.value.children[i]);
    if child.value.numkeys == BTREE_MAX_KEYS {
      FullHere(bt.file, k, t, i, h, key);
      var split, newnode;
      ghost var g;
      split, newnode, g, left := SplitChild(bt, pointedby, nodeptr, i, n.value.children[i], k, t, t, h - 1,
        h + Depth(k), M, rest);
      if !split {
        NothingDone(bt.Now(), a, bt.trail, Plug(k, t), h + Depth(k), M, key, val, key !in M || replace, true, rest,
          left);
        return false, N, left;
      }
      ghost var (b, refused, middle) := (bt.trail, bt.refusals > old(bt.refusals), left);
      BaseSame(t, rest);
      StandsSorted(bt.Now(), Plug(k, g), h + Depth(k), M);
      PartedRoomy(k, g, t, i, newnode, h - 1, key);
      ghost var before := bt.refusals;
      ok, N, left := AddNonfull(bt, newnode, pointedby, key, val, replace, k, g, h, M, left);
      OutcomeAfter(bt.Now(), a, b, bt.trail, M, key, val, key !in M || replace, ok, refused, bt.refusals > before, N,
        rest, middle, left);
    } else {
      Descend(k, t, i, h);
      HookUnder(k, t, i);
      KidRoomy(Under(k, t, i), t.kids[i], h - 1, key);
      StandsSorted(bt.Now(), Plug(k, t), h + Depth(k), M);
      DescendOrder(k, t, i, key);
      ok, N, left := AddNonfull(bt, n.value.children[i], nodeptr + CHILDREN_POS + 8 * i, key, val, replace,
        Under(k, t, i), t.kids[i], h - 1, M, rest);
    }
  }

  lemma FullHere(img: Image, k: Path, t: Tree, i: nat, h: nat, key: Key)
    requires i < |t.kids| && Between(t, i, key) && |t.kids[i].pairs| == BTREE_MAX_KEYS && HoleShape(k, t, h) && h > 0
             && Roomy(t, key) && NodeOn(img, t, -1)
    ensures FullBelow(t, key) && Splittable(t, i, h - 1) && (k.Under? ==> |t.pairs| >= HALF) && NodeOn(img, t, i)
  {
    hide Word, RecAt;
    CanSplit(t, i, h - 1);
  }

  lemma KidRoomy(k: Path, t: Tree, h: nat, key: Key)
    requires HoleShape(k, t, h) && |t.pairs| != BTREE_MAX_KEYS
    ensures Roomy(t, key)
  {
  }

  lemma HookUnder(k: Path, t: Tree, i: nat)
    ensures Hook(Under(k, t, i)) == t.off + CHILDREN_POS + 8 * i
  {
  }

  lemma BaseSame(t: Tree, rest: multiset<nat>)
    ensures Base(t, t, rest) == rest
  {
  }

  lemma Represented(s: State, M: Dict, rest: multiset<nat>) returns (t: Tree, h: nat)
    requires Represents(s, M, rest)
    ensures Stands(s, t, h, M) && Holding(s.book, t, rest)
  {
    hide Rooted, Agrees, Foot;
    t, h :| Rooted(s, t, h) && Agrees(s.img, Items(t), M) && multiset(Live(s.book)) == Foot(t) + rest;
  }

  /** The whole tree as what fills the empty path. */
  lemma AtTop(s: State, t: Tree, h: nat, M: Dict)
    requires Stands(s, t, h, M)
    ensures Proper(Top) && Plug(Top, t) == t && Depth(Top) == 0 && PathShape(Top, h) && HoleShape(Top, t, h)
            && Hook(Top) == BTREE_HDR_ROOTPTR_POS
    ensures Before(Top) == [] && After(Top) == [] && t.off == Word(s.img, BTREE_HDR_ROOTPTR_POS)
  {
    hide Sound, Sorted, Items, Foot, Agrees, Occupies, Stored, Word;
  }

  /** Where a file keeps the offset of its root. */
  lemma RootFormat(s: State, t: Tree, h: nat, M: Dict)
    requires Stands(s, t, h, M)
    ensures |s.img| >= 57160 && Number(s.img[57152..57160]) == t.off
  {
    hide Sound, Number, Foot, Items, Sorted, Agrees, Occupies, Stored, RootShape;
    AtTop(s, t, h, M);
    SoundHeader(s);
  }

  /** Insert a key, or with `replace` give it a new value. */
  method Add(bt: Btree, key: Key, val: seq<Byte>, replace: bool, ghost M: Dict, ghost rest: multiset<nat>)
    returns (ok: bool, ghost N: Dict, ghost left: multiset<nat>)
    requires Represents(bt.Now(), M, rest) && bt.rootptr == Word(bt.file, BTREE_HDR_ROOTPTR_POS)
             && |val| + 8 <= BTREE_PREALLOC_SIZE
    modifies bt
    ensures Outcome(bt.Now(), old(bt.trail), bt.trail, M, key, val, key !in M || replace, ok,
            bt.refusals > old(bt.refusals), N, rest, left)
    ensures bt.rootptr == Word(bt.file, BTREE_HDR_ROOTPTR_POS)
  {
    hide Sound, Stands, Holding, Word, Same, Trail, Outcome, Live, NodeOn, FullBelow, Plug, Foot, PathShape, HoleShape,
         Hook, Before, After,
         Base, Storable, RecAt, Represents, Matches;
    ghost var a := bt.trail;
    ghost var t, h := Represented(bt.Now(), M, rest);
    AtTop(bt.Now(), t, h, M);
    NodeStart(bt.Now(), Top, t, h, M);
    var root := ReadNode(bt, bt.rootptr);
    ghost var (middle, f, g) := (rest, t, h);
    TrailSelf(a, M);
    NumKeys(root.value, t);
    if root.value.numkeys == BTREE_MAX_KEYS {
      var rootptr := NewRoot(bt, t, h, M, rest);
      if rootptr == 0 {
        NothingDone(bt.Now(), a, bt.trail, t, h, M, key, val, key !in M || replace, true, rest, rest);
        return false, M, rest;
      }
      ghost var b := bt.trail;
      middle := rest + multiset{rootptr - 8};
      RootSplits(t, h, rootptr, rest);
      AtTop(bt.Now(), t, h, M);
      TopIs(t);
      var split, newparent;
      split, newparent, f, left := SplitChild(bt, BTREE_HDR_ROOTPTR_POS, rootptr, 0, bt.rootptr, Top, t,
        Tree(rootptr, [], [t]), h, h, M, middle);
      TrailTwice(a, b, bt.trail, M);
      if !split {
        NothingDone(bt.Now(), a, bt.trail, t, h, M, key, val, key !in M || replace, true, rest, left);
        return false, M, left;
      }
      g, middle := h + 1, left;
      TopIs(f);
      FewRoomy(f, key);
    } else {
      KidRoomy(Top, t, h, key);
    }
    ghost var (b, refused) := (bt.trail, bt.refusals);
    AtTop(bt.Now(), f, g, M);
    ok, N, left := AddNonfull(bt, bt.rootptr, BTREE_HDR_ROOTPTR_POS, key, val, replace, Top, f, g, M, middle);
    OutcomeAfter(bt.Now(), a, b, bt.trail, M, key, val, key !in M || replace, ok, refused > old(bt.refusals),
      bt.refusals > refused, N, rest, middle, left);
  }

  lemma TopIs(t: Tree)
    ensures Proper(Top) && Plug(Top, t) == t && Depth(Top) == 0 && Hook(Top) == BTREE_HDR_ROOTPTR_POS && forall h ::
            PathShape(Top, h)
  {
  }

  lemma FewRoomy(t: Tree, key: Key)
    requires |t.pairs| < BTREE_MAX_KEYS
    ensures Roomy(t, key)
  {
  }

  lemma RootSplits(t: Tree, h: nat, off: nat, rest: multiset<nat>)
    requires HoleShape(Top, t, h) && |t.pairs| == BTREE_MAX_KEYS && off >= 8
    ensures var n := Tree(off, [], [t]);
            Splittable(n, 0, h) && Parent(Top, t, n) && t != n && Base(t, n, rest + multiset{off - 8}) == rest
              && Start(off) in rest + multiset{off - 8}
  {
    CanSplit(Tree(off, [], [t]), 0, h);
  }

  lemma NumKeys(r: Rec, t: Tree)
    requires Matches(r, t, -1)
    ensures r.numkeys == |t.pairs|
  {
  }

  /** Write an empty node that will be the new root. */
  method NewRoot(bt: Btree, ghost t: Tree, ghost h: nat, ghost M: Dict, ghost rest: multiset<nat>)
                 returns (rootptr: nat)
    requires Stands(bt.Now(), t, h, M) && Holding(bt.book, t, rest)
             && bt.rootptr == Word(bt.file, BTREE_HDR_ROOTPTR_POS)
    modifies bt
    ensures Trail(old(bt.trail), bt.trail, M) && bt.rootptr == Word(bt.file, BTREE_HDR_ROOTPTR_POS)
    ensures Stands(bt.Now(), t, h, M) && bt.refusals >= old(bt.refusals)
    ensures rootptr == 0 ==> Holding(bt.book, t, rest) && bt.refusals > old(bt.refusals)
    ensures rootptr != 0 ==>
            rootptr >= 8 && Holding(bt.book, t, rest + multiset{rootptr - 8})
            && NodeOn(bt.file, Tree(rootptr, [], [t]), 0)
  {
    hide Stands, Holding, Word, Same, Trail, Live, Foot, SizeOf, ClassOf, RecAt, FreshRec;
    ghost var a := bt.trail;
    rootptr := Obtain(bt, BTREE_NODE_SIZE, t, h, M, rest);
    if rootptr == 0 {
      return;
    }
    ghost var b := bt.trail;
    WriteNode(bt, FreshRec(), rootptr, t, h, M, rest + multiset{rootptr - 8});
    TrailTwice(a, b, bt.trail, M);
    FreshNode(bt.file, rootptr, t);
  }

  lemma FreshNode(img: Image, off: nat, t: Tree)
    requires off >= 8 && RecAt(img, off) == Some(FreshRec()) && Word(img, off - 8) == BTREE_NODE_SIZE
    ensures NodeOn(img, Tree(off, [], [t]), 0)
  {
    hide RecAt, Word;
  }

  // ---------------------------------------------------------------- lookup

  /** The first key of a node that is not below the one sought. */
  method SeekUp(r: Rec, key: Key) returns (j: nat, cmp: int)
    requires r.numkeys <= |r.keys|
    ensures j <= r.numkeys && (j > 0 ==> Rank(r.keys[j - 1]) < Rank(key))
    ensures j < r.numkeys ==> (cmp == 0 <==> r.keys[j] == key) && (cmp != 0 ==> Rank(key) < Rank(r.keys[j]))
  {
    j, cmp := 0, 0;
    while j < r.numkeys
      invariant j <= r.numkeys && (j > 0 ==> Rank(r.keys[j - 1]) < Rank(key))
    {
      cmp := Memcmp(key, r.keys[j]);
      MemcmpOrder(key, r.keys[j]);
      if cmp <= 0 {
        break;
      }
      j := j + 1;
    }
  }

  /** Find a key: the offset of its value. */
  method Find(bt: Btree, key: Key, ghost M: Dict) returns (found: bool, voff: nat)
    requires Recovers(bt.Now(), M) && bt.rootptr == Word(bt.file, BTREE_HDR_ROOTPTR_POS)
    ensures found <==> key in M
    ensures found ==> Load(bt.file, voff) == M[key]
  {
    hide Sound, Stands, Word, Plug, Foot, PathShape, HoleShape, Hook, Before, After, Below, Above, Storable, RecAt,
         NodeOn, Recovers, Items, Sorted, Load;
    ghost var s := bt.Now();
    ghost var t: Tree, h: nat;
    t, h := Recovered(s, M);
    ghost var k := Top;
    var nptr := bt.rootptr;
    AtTop(s, t, h, M);
    EmptyBounds(key);
    while true
      invariant Proper(k) && Stands(s, Plug(k, t), h + Depth(k), M) && PathShape(k, h) && HoleShape(k, t, h)
      invariant Below(Before(k), key) && Above(After(k), key) && t.off == nptr
      decreases h
    {
      NodeStart(s, k, t, h, M);
      var n := ReadNode(bt, nptr);
      var j, cmp := SeekUp(n.value, key);
      if j < n.value.numkeys && cmp == 0 {
        ItemFound(s, k, t, j, h, M);
        return true, n.value.values[j];
      }
      assert Between(t, j, key);
      if n.value.isleaf != 0 || n.value.children[j] == 0 {
        KidPlace(s, k, t, h, j, M);
        LeafStart(s, k, t, n.value, j, key, M);
        return false, 0;
      }
      Descend(k, t, j, h);
      StandsSorted(s, Plug(k, t), h + Depth(k), M);
      DescendOrder(k, t, j, key);
      nptr := n.value.children[j];
      k, t, h := Under(k, t, j), t.kids[j], h - 1;
    }
  }

  lemma Recovered(s: State, M: Dict) returns (t: Tree, h: nat)
    requires Recovers(s, M)
    ensures Stands(s, t, h, M)
  {
    hide Rooted, Agrees;
    t, h :| Rooted(s, t, h) && Agrees(s.img, Items(t), M);
  }

  lemma EmptyBounds(key: Key)
    ensures Below([], key) && Above([], key)
  {
  }

  lemma KidOffs(s: State, k: Path, t: Tree, h: nat, M: Dict)
    requires Proper(k) && Stands(s, Plug(k, t), h + Depth(k), M)
    ensures forall i | 0 <= i < |t.kids| :: t.kids[i].off >= 8
  {
    hide Sound, StoredPath, RecAt, Word, Plug, Foot, Items, Agrees, Sorted, Occupies, RootShape, Matches;
    HoldsDown(s.img, k, t);
    forall i | 0 <= i < |t.kids| ensures t.kids[i].off >= 8 {
      assert Stored(s.img, t.kids[i]) by { assert t.kids[i] in t.kids; }
    }
  }

  /** Kids are never at offset 0. */
  lemma KidPlace(s: State, k: Path, t: Tree, h: nat, j: nat, M: Dict)
    requires Proper(k) && Stands(s, Plug(k, t), h + Depth(k), M) && HoleShape(k, t, h) && RecAt(s.img, t.off).Some?
             && j <= |t.pairs|
    requires var r := RecAt(s.img, t.off).value; Matches(r, t, -1) && (r.isleaf != 0 || r.children[j] == 0)
    ensures h == 0
  {
    hide Stands, Plug, RecAt;
    KidOffs(s, k, t, h, M);
  }

  lemma ItemFound(s: State, k: Path, t: Tree, i: nat, h: nat, M: Dict)
    requires Proper(k) && Stands(s, Plug(k, t), h + Depth(k), M) && i < |t.pairs| && HoleShape(k, t, h)
    ensures t.pairs[i].key in M && Load(s.img, t.pairs[i].val) == M[t.pairs[i].key]
  {
    hide Sound, Agrees, Items, Foot, Sorted, Holds, Occupies, Plug, Ahead, Behind, RootShape, Load;
    PairSplit(k, t, i);
    assert t.pairs[i] in Items(Plug(k, t));
    AgreesHas(s.img, Items(Plug(k, t)), M, t.pairs[i]);
  }

  // ---------------------------------------------------------------- opening

  /** Create a file with an empty tree. */
  method CreateTree(mark0: nat) returns (bt: Btree, ok: bool)
    ensures fresh(bt)
    ensures ok ==> Represents(bt.Now(), map[], multiset{}) && bt.rootptr == Word(bt.file, BTREE_HDR_ROOTPTR_POS)
    ensures ok ==> Covered(bt.book, bt.freeoff)
    ensures ok ==>
            bt.free == BTREE_PREALLOC_SIZE - 512 && bt.freeoff == HEAP_POS + 512
            && |bt.file| == HEAP_POS + BTREE_PREALLOC_SIZE
    ensures !ok ==> bt.refusals > 0
  {
    hide Sound, Word, SizeOf, ClassOf, Leads, RecAt, EncodeNode, Patched, Covered, Live, Storable, Extends;
    bt := new Btree.Create(mark0);
    ghost var s0 := bt.Now();
    EmptyCover(bt.book, bt.freeoff);
    var rootptr := bt.Alloc(BTREE_NODE_SIZE);
    if rootptr == 0 {
      return bt, false;
    }
    ghost var (s, p, a) := (bt.Now(), rootptr - 8, bt.trail);
    NodeClass();
    LeadsSound(s0, [], s, a, Live(s0.book));
    BookedLive(s.book, p, ClassOf(BTREE_NODE_SIZE));
    PtrBound(s, rootptr);
    RoomFor(s, p, BTREE_NODE_SIZE);
    ChunkBound(s, p);
    var root := FreshRec().(isleaf := 1);
    RootRec();
    bt.mark := (bt.mark + 1) % 0x1_0000_0000;
    NodeWritten(s.img, rootptr, bt.mark, root);
    ghost var u := PayloadLeads(s, a, p, EncodeNode(bt.mark, root));
    bt.Pwrite(EncodeNode(bt.mark, root), rootptr, u);
    LeadsSound(s, a, u, bt.trail, Live(s.book) - {p});
    ghost var t := Tree(rootptr, [], []);
    EmptyLeaf(u.img, rootptr, root);
    NoneLive();
    OneBlock(u.book, p, t);
    CommitRoot(u, t);
    bt.PwriteU64(rootptr, BTREE_HDR_ROOTPTR_POS, u.(img := Patched(u.img, BTREE_HDR_ROOTPTR_POS, Big(rootptr, 8))));
    bt.rootptr := rootptr;
    EmptyStands(bt.Now(), t);
    ok := true;
  }

  lemma RootRec()
    ensures Storable(FreshRec().(isleaf := 1))
  {
  }

  lemma EmptyCover(book: Book, freeoff: nat)
    requires book == map[] && freeoff == HEAP_POS
    ensures Covered(book, freeoff)
  {
  }

  lemma EmptyLeaf(img: Image, off: nat, r: Rec)
    requires off >= 8 && RecAt(img, off) == Some(r) && r == FreshRec().(isleaf := 1)
             && Word(img, off - 8) == BTREE_NODE_SIZE
    ensures Stored(img, Tree(off, [], []))
  {
    hide RecAt, Word;
  }

  lemma NoneLive()
    ensures Live(map[]) == {}
  {
  }

  lemma OneBlock(book: Book, p: nat, t: Tree)
    requires Live(book) == {p} && Start(t.off) == p && t.pairs == [] && t.kids == []
    ensures Holding(book, t, multiset{}) && Occupies(Foot(t), book)
  {
    FootIs(t);
    assert PairsFoot(t.pairs) == multiset{} && KidsFoot(t.kids) == multiset{};
    assert multiset({p}) == multiset{p};
  }

  lemma EmptyStands(s: State, t: Tree)
    requires Sound(s) && Holds(s.img, Top, t) && t.pairs == [] && t.kids == [] && Occupies(Foot(t), s.book)
             && Holding(s.book, t, multiset{})
    ensures Represents(s, map[], multiset{})
  {
    hide Sound, Holds, Foot, Live, Occupies;
    assert Rooted(s, t, 0) && Agrees(s.img, Items(t), map[]);
  }

  /** A file left behind by a crash, or closed, opens with its map. */
  method Reopen(image: Image, mark0: nat, ghost s: State, ghost M: Dict) returns (bt: Btree, ghost rest: multiset<nat>)
    requires Recovers(s, M) && image == s.img
    ensures fresh(bt) && Represents(bt.Now(), M, rest) && bt.rootptr == Word(bt.file, BTREE_HDR_ROOTPTR_POS)
  {
    hide Sound, Word, Stands, Foot, Live;
    ghost var t, h := Recovered(s, M);
    StandsRooted(s, t, h, M);
    bt := new Btree.Open(image, mark0, s);
    rest := multiset(Live(s.book)) - Foot(t);
    RestOf(s, t, h, M, rest);
  }

  lemma RestOf(s: State, t: Tree, h: nat, M: Dict, rest: multiset<nat>)
    requires Stands(s, t, h, M) && rest == multiset(Live(s.book)) - Foot(t)
    ensures Represents(s, M, rest)
  {
    hide Sound, RootShape, Sorted, Items, Foot, Holds, Agrees, Live;
    assert multiset(Live(s.book)) == Foot(t) + rest;
  }

  /** Whatever write a crash comes after, the file opens with the old map or the new one. */
  lemma CrashSafe(a: seq<State>, b: seq<State>, M: Dict, N: Dict, k: nat)
    requires Switches(a, b, M, N) && |a| <= k < |b|
    ensures Recovers(b[k], M) || Recovers(b[k], N)
    ensures !Recovers(b[k], M) ==> forall j | k <= j < |b| :: Recovers(b[j], N)
  {
    hide Recovers;
    var c :| Trail(a, c, M) && Trail(c, b, N);
    if k < |c| { assert b[k] == b[..|c|][k] == c[k]; }
  }
}
