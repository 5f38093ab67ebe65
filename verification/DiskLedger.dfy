/** The state of the disk allocator of src/tree/btree.c as a value: the file, the free lists as kept in
    memory, and a book saying for every block ever carved whether it is in use, an item of a free list
    or a block that holds such items. */
module DiskLedger {
  import opened Bytes
  import opened LittleEndian
  import opened Memory
  import opened DiskImages

  const BTREE_PREALLOC_SIZE: nat := 524288
  const BTREE_FREELIST_BLOCK_ITEMS: nat := 252
  const BTREE_FREELIST_BLOCK_SIZE: nat := 2040
  const BTREE_FREELIST_COUNT: nat := 28
  const BTREE_HDR_FREE_POS: nat := 16
  const BTREE_HDR_FREEOFF_POS: nat := 24
  const BTREE_HDR_ROOTPTR_POS: nat := 57152
  /** Where blocks are carved from. */
  const HEAP_POS: nat := 57412
  /** The size class of a free list block. */
  const BLOCK_CLASS: nat := 7

  function Pow2(n: nat): (p: nat)
    ensures p > 0
  {
    if n == 0 then 1 else 2 * Pow2(n - 1)
  }

  /** Blocks of class c have this many bytes. */
  function SizeOf(c: nat): (n: nat)
    ensures n >= 16
  {
    16 * Pow2(c)
  }

  function ClassFrom(need: nat, c: nat): (d: nat)
    requires c <= need
    ensures d >= c && SizeOf(d) >= need && (d > c ==> SizeOf(d - 1) < need)
    decreases need - c
  {
    if need <= SizeOf(c) then c else
      BigClass(c);
      ClassFrom(need, c + 1)
  }

  lemma {:induction false} BigClass(c: nat)
    ensures SizeOf(c) > c
  {
    if c > 0 { BigClass(c - 1); }
  }

  /** The class of a block for `size` bytes behind an 8-byte label: the smallest that is large enough. */
  function ClassOf(size: nat): (c: nat)
    ensures SizeOf(c) >= size + 8 && (c > 0 ==> SizeOf(c - 1) < size + 8)
  {
    ClassFrom(size + 8, 0)
  }

  lemma {:induction false} SizeGrows(c: nat, d: nat)
    requires c <= d
    ensures SizeOf(c) <= SizeOf(d)
  {
    if c < d { SizeGrows(c, d - 1); }
  }

  lemma {:induction false} ClassBelow(size: nat)
    requires size + 8 <= BTREE_PREALLOC_SIZE
    ensures ClassOf(size) <= 15 && SizeOf(ClassOf(size)) <= BTREE_PREALLOC_SIZE
  {
    assert Pow2(4) == 16 && Pow2(8) == 256;
    assert Pow2(12) == 4096;
    assert SizeOf(15) == BTREE_PREALLOC_SIZE;
    var c := ClassOf(size);
    if c > 15 { SizeGrows(15, c - 1); }
    SizeGrows(c, 15);
  }

  lemma BlockClass()
    ensures SizeOf(BLOCK_CLASS) == BTREE_FREELIST_BLOCK_SIZE + 8 && ClassOf(BTREE_FREELIST_BLOCK_SIZE) == BLOCK_CLASS
  {
    assert Pow2(4) == 16;
    assert SizeOf(7) == 2048;
    assert SizeOf(6) == 1024;
  }

  // ---------------------------------------------------------------- states

  datatype Use = InUse | Item(list: nat, block: nat, slot: nat) | Block(list: nat, block: nat)

  datatype Chunk = Chunk(cls: nat, use: Use)

  /** `struct btree_freelist`: the offsets of its blocks, and the number of items in the last one. */
  datatype FreeList = FreeList(blocks: seq<nat>, items: nat)

  type Book = map<nat, Chunk>

  datatype State = State(img: Image, lists: seq<FreeList>, free: nat, freeoff: nat, book: Book)

  ghost function Live(book: Book): set<nat> {
    set p | p in book && book[p].use == InUse
  }

  ghost predicate HasBlock(ls: seq<FreeList>, j: nat, k: nat) {
    j < |ls| && k < |ls[j].blocks|
  }

  ghost function Base(ls: seq<FreeList>, j: nat, k: nat): nat
    requires HasBlock(ls, j, k)
  {
    ls[j].blocks[k]
  }

  /** The items in a block: all blocks but the last of a list are full. */
  ghost function Fill(ls: seq<FreeList>, j: nat, k: nat): nat
    requires HasBlock(ls, j, k)
  {
    if k == |ls[j].blocks| - 1 then ls[j].items else BTREE_FREELIST_BLOCK_ITEMS
  }

  /** The w-th word of a block. */
  ghost function Spot(img: Image, ls: seq<FreeList>, j: nat, k: nat, w: nat): nat
    requires HasBlock(ls, j, k)
  {
    Word(img, Base(ls, j, k) + 8 * w)
  }

  ghost function Slot(img: Image, ls: seq<FreeList>, j: nat, k: nat, i: nat): nat
    requires HasBlock(ls, j, k)
  {
    Spot(img, ls, j, k, 3 + i)
  }

  ghost predicate Framed(s: State) {
    && HEAP_POS <= s.freeoff && s.freeoff + s.free <= |s.img| < POW63
    && Word(s.img, BTREE_HDR_FREE_POS) == s.free && Word(s.img, BTREE_HDR_FREEOFF_POS) == s.freeoff
  }

  ghost predicate ListsOk(ls: seq<FreeList>) {
    && |ls| == BTREE_FREELIST_COUNT
    && forall j | 0 <= j < BTREE_FREELIST_COUNT ::
         |ls[j].blocks| >= 1 && ls[j].blocks[0] == 32 + BTREE_FREELIST_BLOCK_SIZE * j
           && ls[j].items <= BTREE_FREELIST_BLOCK_ITEMS
  }

  /** The blocks lie apart, between the header and the free space. */
  ghost predicate Apart(book: Book, freeoff: nat) {
    && (forall p | p in book :: HEAP_POS <= p && p + SizeOf(book[p].cls) <= freeoff)
    && forall p, q | p in book && q in book && p < q :: p + SizeOf(book[p].cls) <= q
  }

  /** The label of each block gives its class. */
  ghost predicate Labelled(img: Image, book: Book) {
    forall p | p in book :: Word(img, p) + 8 <= BTREE_PREALLOC_SIZE && ClassOf(Word(img, p)) == book[p].cls
  }

  /** Previous block, next block and item count of a free list block. */
  ghost predicate Heads(img: Image, ls: seq<FreeList>, j: nat, k: nat)
    requires HasBlock(ls, j, k)
  {
    && Spot(img, ls, j, k, 0) == (if k == 0 then 0 else ls[j].blocks[k - 1])
    && Spot(img, ls, j, k, 1) == (if k == |ls[j].blocks| - 1 then 0 else ls[j].blocks[k + 1])
    && Spot(img, ls, j, k, 2) == Fill(ls, j, k)
  }

  ghost predicate Chained(img: Image, ls: seq<FreeList>) {
    forall j: nat, k: nat | HasBlock(ls, j, k) :: Heads(img, ls, j, k)
  }

  ghost predicate Booked(book: Book, p: nat, c: Chunk) {
    p in book && book[p] == c
  }

  ghost predicate SlotsBooked(img: Image, ls: seq<FreeList>, book: Book) {
    forall j: nat, k: nat, i: nat | HasBlock(ls, j, k) && i < Fill(ls, j, k) ::
      Booked(book, Slot(img, ls, j, k, i), Chunk(j, Item(j, k, i)))
  }

  ghost predicate BlocksBooked(ls: seq<FreeList>, book: Book) {
    forall j: nat, k: nat | HasBlock(ls, j, k) && k > 0 ::
      Base(ls, j, k) >= 8 && Booked(book, Base(ls, j, k) - 8, Chunk(BLOCK_CLASS, Block(j, k)))
  }

  ghost predicate Listed(img: Image, ls: seq<FreeList>, p: nat, c: Chunk) {
    match c.use
    case InUse => true
    case Item(j, k, i) => HasBlock(ls, j, k) && i < Fill(ls, j, k) && Slot(img, ls, j, k, i) == p && c.cls == j
    case Block(j, k) => HasBlock(ls, j, k) && k > 0 && Base(ls, j, k) == p + 8 && c.cls == BLOCK_CLASS
  }

  /** Every block that is not in use is found in the free lists. */
  ghost predicate UsesListed(img: Image, ls: seq<FreeList>, book: Book) {
    forall p | p in book :: Listed(img, ls, p, book[p])
  }

  ghost predicate Sound(s: State) {
    && Framed(s) && ListsOk(s.lists) && Apart(s.book, s.freeoff) && Labelled(s.img, s.book) && Chained(s.img, s.lists)
    && SlotsBooked(s.img, s.lists, s.book) && BlocksBooked(s.lists, s.book) && UsesListed(s.img, s.lists, s.book)
  }

  // ---------------------------------------------------------------- places do not overlap

  lemma BlockPlace(s: State, j: nat, k: nat)
    requires Sound(s) && HasBlock(s.lists, j, k)
    ensures var b := Base(s.lists, j, k);
            32 <= b && (if k == 0 then b + BTREE_FREELIST_BLOCK_SIZE <= BTREE_HDR_ROOTPTR_POS
                        else HEAP_POS + 8 <= b && b + BTREE_FREELIST_BLOCK_SIZE <= s.freeoff
                             && Booked(s.book, b - 8, Chunk(BLOCK_CLASS, Block(j, k))))
  {
    hide Framed, Labelled, Chained, SlotsBooked, UsesListed, SizeOf;
    BlockClass();
  }

  lemma BlocksApart(s: State, j: nat, k: nat, m: nat, n: nat)
    requires Sound(s) && HasBlock(s.lists, j, k) && HasBlock(s.lists, m, n) && (j, k) != (m, n)
    ensures var (b, c) := (Base(s.lists, j, k), Base(s.lists, m, n));
            b + BTREE_FREELIST_BLOCK_SIZE <= c || c + BTREE_FREELIST_BLOCK_SIZE <= b
  {
    hide Framed, Labelled, Chained, SlotsBooked, UsesListed, SizeOf;
    BlockPlace(s, j, k);
    BlockPlace(s, m, n);
    BlockClass();
    hide BlocksBooked;
    if k == 0 && n == 0 {
      hide Apart;
      if j < m {} else {}
    }
  }

  /** A block of the book lies apart from the free list blocks, but for the one that it is. */
  lemma ChunkApart(s: State, p: nat, j: nat, k: nat)
    requires Sound(s) && HasBlock(s.lists, j, k) && p in s.book
    ensures var b := Base(s.lists, j, k);
            if s.book[p].use == Block(j, k) then b == p + 8
            else p + SizeOf(s.book[p].cls) <= b || b + BTREE_FREELIST_BLOCK_SIZE <= p
  {
    hide Framed, Labelled, Chained, SlotsBooked, SizeOf;
    BlockPlace(s, j, k);
    BlockClass();
    hide BlocksBooked;
    assert Listed(s.img, s.lists, p, s.book[p]);
  }

  // ---------------------------------------------------------------- what stays

  /** The labelled block at p, with its contents, is the same in both files. */
  ghost predicate Kept(x: Image, y: Image, p: nat) {
    && p + 8 + Word(x, p) <= |x| && p + 8 + Word(x, p) <= |y|
    && y[p..p + 8 + Word(x, p)] == x[p..p + 8 + Word(x, p)]
  }

  /** These blocks, and the root pointer, are left alone. */
  ghost predicate Steady(s: State, t: State, keep: set<nat>) {
    && (forall p | p in keep :: p in s.book && p in t.book && s.book[p] == t.book[p] && Kept(s.img, t.img, p))
    && Word(t.img, BTREE_HDR_ROOTPTR_POS) == Word(s.img, BTREE_HDR_ROOTPTR_POS)
  }

  lemma KeptLabel(x: Image, y: Image, p: nat)
    requires Kept(x, y, p)
    ensures Word(y, p) == Word(x, p)
  {
    hide Word;
    assert p + 8 <= p + 8 + Word(x, p);
    WordPart(x, y, p, p + 8 + Word(x, p), p);
  }

  lemma KeptTwice(x: Image, y: Image, z: Image, p: nat)
    requires Kept(x, y, p) && Kept(y, z, p)
    ensures Kept(x, z, p)
  {
    KeptLabel(x, y, p);
  }

  lemma SteadyTwice(s: State, t: State, u: State, keep: set<nat>, more: set<nat>)
    requires Steady(s, t, keep) && Steady(t, u, more) && keep <= more
    ensures Steady(s, u, keep)
  {
    hide Kept;
    forall p | p in keep ensures Kept(s.img, u.img, p) {
      KeptTwice(s.img, t.img, u.img, p);
    }
  }

  lemma SteadySelf(s: State, keep: set<nat>)
    requires Sound(s) && forall p | p in keep :: p in s.book
    ensures Steady(s, s, keep)
  {
    hide SizeOf, Chained, SlotsBooked, BlocksBooked, UsesListed, ListsOk;
  }

  /** A write outside a block keeps it. */
  lemma KeptElsewhere(s: State, img: Image, o: nat, n: nat, p: nat)
    requires Sound(s) && Elsewhere(s.img, img, o, n) && p in s.book
    requires p + SizeOf(s.book[p].cls) <= o || o + n <= p
    ensures Kept(s.img, img, p)
  {
    hide SizeOf, Word, Chained, SlotsBooked, BlocksBooked, UsesListed, ListsOk, Elsewhere;
    var m := p + 8 + Word(s.img, p);
    assert m <= p + SizeOf(s.book[p].cls);
    assert img[p..m] == s.img[p..m] by { ElsewhereAt(s.img, img, o, n, p, m); }
  }

  lemma ElsewhereAt(x: Image, y: Image, o: nat, n: nat, a: nat, b: nat)
    requires Elsewhere(x, y, o, n) && a <= b <= |x| && (b <= o || o + n <= a)
    ensures |y| == |x| && y[a..b] == x[a..b]
  {
  }
}
