/** The disk space allocator of src/tree/btree.c: power-of-two blocks kept in free lists on disk. */
module DiskAllocator {
  import opened Bytes
  import opened LittleEndian
  import opened Memory
  import opened DiskImages
  import opened DiskLedger
  import opened DiskSteps

  const BTREE_FREELIST_SIZE_EXP: nat := 11

  ghost predicate Within(book: Book, p: nat, x: int) {
    p in book && p <= x < p + SizeOf(book[p].cls)
  }

  ghost predicate Owned(book: Book, x: int) {
    exists p :: Within(book, p, x)
  }

  /** Every byte of the heap lies in a block of the book. */
  ghost predicate Covered(book: Book, freeoff: nat) {
    forall x | HEAP_POS <= x < freeoff :: Owned(book, x)
  }

  /** Blocks stay blocks, and keep their sizes. */
  ghost predicate Extends(b: Book, c: Book) {
    forall p | p in b :: p in c && c[p].cls == b[p].cls
  }

  /** Only the list of this class, and that of the blocks which hold items, changed. */
  ghost predicate OtherLists(a: seq<FreeList>, b: seq<FreeList>, c: nat) {
    |b| == |a| && forall j | 0 <= j < |a| && j != c && j != BLOCK_CLASS :: b[j] == a[j]
  }

  /** The last block of a list is not full, so that the next release into the list needs no new block. */
  ghost predicate HasRoom(lists: seq<FreeList>, c: nat) {
    c < |lists| && lists[c].items < BTREE_FREELIST_BLOCK_ITEMS
  }

  lemma ExtendsTwice(b: Book, c: Book, d: Book)
    requires Extends(b, c) && Extends(c, d)
    ensures Extends(b, d)
  {
  }

  lemma CoveredMore(b: Book, c: Book, freeoff: nat)
    requires Covered(b, freeoff) && Extends(b, c)
    ensures Covered(c, freeoff)
  {
    hide SizeOf;
    forall x | HEAP_POS <= x < freeoff ensures Owned(c, x) {
      assert Owned(b, x);
      var p: nat :| Within(b, p, x);
      assert p in c && c[p].cls == b[p].cls;
      assert Within(c, p, x);
    }
  }

  lemma CoveredNext(b: Book, c: Book, freeoff: nat, cls: nat)
    requires Covered(b, freeoff) && Extends(b, c) && freeoff in c && c[freeoff].cls == cls
    ensures Covered(c, freeoff + SizeOf(cls))
  {
    hide SizeOf;
    CoveredMore(b, c, freeoff);
    forall x | HEAP_POS <= x < freeoff + SizeOf(cls) ensures Owned(c, x) {
      if x >= freeoff { assert Within(c, freeoff, x); }
    }
  }

  /** The size of the block for `size` bytes. */
  method AllocRealSize(size: nat) returns (realsize: nat)
    ensures realsize == SizeOf(ClassOf(size))
  {
    realsize := 16;
    ghost var c := 0;
    assert SizeOf(0) == 16;
    while realsize < size + 8
      invariant realsize == SizeOf(c) && c <= ClassOf(size)
      decreases ClassOf(size) - c
    {
      if c == ClassOf(size) { assert false; }
      realsize := realsize * 2;
      c := c + 1;
    }
    if c < ClassOf(size) { SizeGrows(c, ClassOf(size) - 1); }
  }

  /** The logarithm of a power of two. */
  method LogTwo(n: nat, ghost e: nat) returns (log: int)
    requires n == Pow2(e)
    ensures log == e
  {
    log := -1;
    var m := n;
    while m > 0
      invariant -1 <= log <= e && (if m == 0 then log == e else log < e && m == Pow2(e - (log + 1)))
      decreases m
    {
      log := log + 1;
      m := m / 2;
    }
  }

  lemma {:induction false} ShiftedPow(c: nat)
    ensures SizeOf(c) == Pow2(c + 4)
  {
    if c > 0 { ShiftedPow(c - 1); } else { assert Pow2(4) == 16; }
  }

  const TWO64: nat := 0x1_0000_0000_0000_0000

  /** Subtraction in 64 bits. */
  function Less(x: nat, y: nat): (d: nat)
    ensures y <= x < TWO64 ==> d == x - y
  {
    (x - y) % TWO64
  }

  /** Free space after carving a block, in 64 bits: the file grows once, by a fixed amount, if there is too little. */
  function FreeAfter(free: nat, realsize: nat): nat {
    Less(if free < realsize then free + BTREE_PREALLOC_SIZE else free, realsize)
  }

  /** The place of the last item of a list. */
  ghost function LastSlot(lists: seq<FreeList>, c: nat): nat
    requires c < |lists| && |lists[c].blocks| > 0
  {
    lists[c].blocks[|lists[c].blocks| - 1] + 16 + 8 * lists[c].items
  }

  /** The last item of a list is the block at p. */
  ghost predicate LastIs(s: State, c: nat, p: nat) {
    c < |s.lists| && |s.lists[c].blocks| > 0 && s.lists[c].items > 0 && Word(s.img, LastSlot(s.lists, c)) == p
  }

  /** A list without blocks to give. */
  ghost predicate OutOfBlocks(lists: seq<FreeList>, c: nat) {
    c < |lists| && lists[c].items == 0 && |lists[c].blocks| == 1
  }

  /** The free space after a block was carved. */
  ghost predicate Carved(s: State, t: State, realsize: nat) {
    && t.free == FreeAfter(s.free, realsize) && t.freeoff == s.freeoff + realsize
    && |t.img| == if s.free < realsize then s.freeoff + s.free + BTREE_PREALLOC_SIZE else |s.img|
  }

  lemma CarvedIs(s: State, free: nat, size: nat, realsize: nat)
    requires if s.free < realsize then free == s.free + BTREE_PREALLOC_SIZE && size == s.freeoff + free
             else free == s.free && size == |s.img|
    ensures forall t: State | t.free == Less(free, realsize) && t.freeoff == s.freeoff + realsize && |t.img| == size ::
            Carved(s, t, realsize)
  {
  }

  /** The file after carving, and the free space that the header then claims, fit together. */
  ghost predicate CarveFits(free: nat, freeoff: nat, size: nat, realsize: nat) {
    freeoff + realsize + FreeAfter(free, realsize) <= if free < realsize then freeoff + free + BTREE_PREALLOC_SIZE
      else size
  }

  /** That is so for every file exactly when the rounded size is at most the amount by which files grow. */
  lemma CarveBound(realsize: nat)
    requires realsize < POW63
    ensures (forall free: nat, freeoff: nat, size: nat | HEAP_POS <= freeoff && freeoff + free <= size < POW63 ::
            CarveFits(free, freeoff, size, realsize))
            <==> realsize <= BTREE_PREALLOC_SIZE
  {
    if realsize <= BTREE_PREALLOC_SIZE {
      forall free: nat, freeoff: nat, size: nat | HEAP_POS <= freeoff && freeoff + free <= size < POW63
        ensures CarveFits(free, freeoff, size, realsize)
      {
      }
    } else {
      assert !CarveFits(0, HEAP_POS, HEAP_POS, realsize);
    }
  }

  /** A value of 524281 bytes, in a file as its creation leaves it, with one block for the root: the
      header then claims 2^64 - 512 bytes of free space. */
  lemma TooLarge()
    ensures SizeOf(ClassOf(524281)) == 1048576 && FreeAfter(BTREE_PREALLOC_SIZE - 512, 1048576) == TWO64 - 512
    ensures !CarveFits(BTREE_PREALLOC_SIZE - 512, HEAP_POS + 512, HEAP_POS + BTREE_PREALLOC_SIZE, 1048576)
  {
    assert Pow2(4) == 16 && Pow2(8) == 256;
    assert Pow2(12) == 4096;
    assert Pow2(14) == 16384 && Pow2(16) == 65536;
    assert SizeOf(15) == 524288 && SizeOf(16) == 1048576;
    ClassIs(ClassOf(524281), 16, 524289);
  }

  /** Only one class is the smallest that is large enough. */
  lemma ClassIs(c: nat, d: nat, need: nat)
    requires SizeOf(c) >= need && (c > 0 ==> SizeOf(c - 1) < need)
    requires d > 0 && SizeOf(d) >= need && SizeOf(d - 1) < need
    ensures c == d
  {
    if c < d { SizeGrows(c, d - 1); } else if c > d { SizeGrows(d, c - 1); }
  }

  /** The part of `struct btree` that the allocator works on, and the root pointer and node mark beside it.
      The file is what the disk holds; `trail` records the file after each write, with the free lists
      that reopening it would find. */
  class Btree {
    var file: Image
    var lists: seq<FreeList>
    var free: nat
    var freeoff: nat
    var rootptr: nat
    var mark: nat
    ghost var book: Book
    ghost var trail: seq<State>
    ghost var refusals: nat

    ghost function Now(): State
      reads this
    {
      State(file, lists, free, freeoff, book)
    }

    /** Open a file: any file that is sound, as it was left or as a crash left it. */
    constructor Open(image: Image, mark0: nat, ghost s: State)
      requires Sound(s) && image == s.img
      ensures Now() == s && trail == [] && refusals == 0 && rootptr == Word(image, BTREE_HDR_ROOTPTR_POS)
    {
      file, mark := image, mark0;
      lists := seq(BTREE_FREELIST_COUNT, _ => FreeList([], 0));
      free, freeoff, rootptr := 0, 0, 0;
      book, trail, refusals := s.book, [], 0;
      new;
      ReadMetadata(s);
    }

    /** Lay out an empty file: header and empty free lists; there is no root node yet. */
    constructor Create(mark0: nat)
      ensures Sound(Now()) && trail == [] && refusals == 0 && book == map[] && freeoff == HEAP_POS
      ensures |file| == 57412
              && file[..16] == [0x52, 0x45, 0x44, 0x42, 0x54, 0x52, 0x45, 0x45, 0x30, 0x30, 0x30, 0x30, 0x30, 0x30,
                 0x30, 0x30]
      ensures free == 0 && |file| == HEAP_POS && forall c: nat | c < BTREE_FREELIST_COUNT :: OutOfBlocks(lists, c)
    {
      file, mark := seq(HEAP_POS, _ => NUL), mark0;
      lists := seq(BTREE_FREELIST_COUNT, _ => FreeList([], 0));
      free, freeoff, rootptr := 0, 0, 0;
      book, trail, refusals := map[], [], 0;
      new;
      hide Sound;
      ghost var fresh_ := Format();
      trail := [];
      ReadMetadata(fresh_);
    }

    /** The writes that lay out an empty file. */
    method Format() returns (ghost s: State)
      requires file == seq(HEAP_POS, _ => NUL)
      modifies this`file, this`trail
      ensures s == State(file, EmptyLists(), 0, HEAP_POS, map[]) && Sound(s) && |file| == HEAP_POS
      ensures file[..16] == MAGIC
    {
      hide Sound, Word, Big, Patched;
      ghost var s0 := Now();
      Write16(file, MAGIC);
      Pwrite(MAGIC, 0, s0.(img := Patched(file, 0, MAGIC)));
      Written(file, BTREE_HDR_FREE_POS, 0);
      PwriteU64(0, BTREE_HDR_FREE_POS, s0.(img := Patched(file, BTREE_HDR_FREE_POS, Big(0, 8))));
      Written(file, BTREE_HDR_FREEOFF_POS, HEAP_POS);
      PwriteU64(HEAP_POS, BTREE_HDR_FREEOFF_POS, s0.(img := Patched(file, BTREE_HDR_FREEOFF_POS, Big(HEAP_POS, 8))));
      var j := 0;
      while j < BTREE_FREELIST_COUNT
        invariant 0 <= j <= BTREE_FREELIST_COUNT && |file| == HEAP_POS && Blank(file) && file[..16] == MAGIC
        invariant Word(file, BTREE_HDR_FREE_POS) == 0 && Word(file, BTREE_HDR_FREEOFF_POS) == HEAP_POS
      {
        var off := 32 + BTREE_FREELIST_BLOCK_SIZE * j;
        BlankWritten(file, off, 8);
        PwriteU64(0, off, s0.(img := Patched(file, off, Big(0, 8))));
        BlankWritten(file, off + 8, 8);
        PwriteU64(0, off + 8, s0.(img := Patched(file, off + 8, Big(0, 8))));
        BlankWritten(file, off + 16, 4);
        Pwrite(Big(0, 4), off + 16, s0.(img := Patched(file, off + 16, Big(0, 4))));
        j := j + 1;
      }
      s := State(file, EmptyLists(), 0, HEAP_POS, map[]);
      EmptySound(s);
    }

    /** Read the header, and the free list blocks along their next pointers. */
    method ReadMetadata(ghost s: State)
      requires Sound(s) && file == s.img && lists == seq(BTREE_FREELIST_COUNT, _ => FreeList([], 0))
      modifies this`lists, this`free, this`freeoff, this`rootptr
      ensures lists == s.lists && free == s.free && freeoff == s.freeoff && rootptr == Word(file, BTREE_HDR_ROOTPTR_POS)
    {
      hide Sound, Word;
      SoundHeader(s);
      var ok;
      ok, free := PreadU64(BTREE_HDR_FREE_POS);
      ok, freeoff := PreadU64(BTREE_HDR_FREEOFF_POS);
      ok, rootptr := PreadU64(BTREE_HDR_ROOTPTR_POS);
      SoundNonempty(s, 0);
      var j := 0;
      while j < BTREE_FREELIST_COUNT
        invariant 0 <= j <= BTREE_FREELIST_COUNT && |lists| == BTREE_FREELIST_COUNT == |s.lists|
                  && lists[..j] == s.lists[..j]
        invariant free == s.free && freeoff == s.freeoff && rootptr == Word(file, BTREE_HDR_ROOTPTR_POS)
      {
        var l := ReadList(s, j);
        lists := lists[j := l];
        assert s.lists[..j + 1] == s.lists[..j] + [s.lists[j]] && lists[..j + 1] == lists[..j] + [l];
        j := j + 1;
      }
      assert lists == lists[..j] && s.lists == s.lists[..j];
    }

    method ReadList(ghost s: State, j: nat) returns (l: FreeList)
      requires Sound(s) && file == s.img && j < BTREE_FREELIST_COUNT && j < |s.lists|
      ensures l == s.lists[j]
    {
      hide Sound, Word;
      SoundNonempty(s, j);
      var ptr := 32 + BTREE_FREELIST_BLOCK_SIZE * j;
      SoundFirst(s, j);
      ghost var k := 0;
      l := FreeList([], 0);
      while true
        invariant k < |s.lists[j].blocks| && l.blocks == s.lists[j].blocks[..k] && ptr == s.lists[j].blocks[k]
        decreases |s.lists[j].blocks| - k
      {
        SoundHeads(s, j, k);
        var _, nextptr := PreadU64(ptr + 8);
        var _, numitems := PreadU64(ptr + 16);
        l := FreeList(l.blocks + [ptr], numitems);
        ptr := nextptr;
        if ptr == 0 {
          break;
        }
        k := k + 1;
      }
    }

    // ---------------------------------------------------------------- the disk

    method Pwrite(buf: seq<Byte>, off: nat, ghost next: State)
      requires off + |buf| <= |file| && next.img == Patched(file, off, buf)
      modifies this`file, this`trail
      ensures file == next.img && trail == old(trail) + [next]
    {
      file := Patched(file, off, buf);
      trail := trail + [next];
    }

    method PwriteU64(v: nat, off: nat, ghost next: State)
      requires off + 8 <= |file| && next.img == Patched(file, off, Big(v, 8))
      modifies this`file, this`trail
      ensures file == next.img && trail == old(trail) + [next]
    {
      Pwrite(Big(v, 8), off, next);
    }

    /** Offsets that are negative as `off_t` cannot be read. */
    method PreadU64(off: nat) returns (ok: bool, v: nat)
      requires off < POW63 ==> off + 8 <= |file|
      ensures ok <==> off < POW63
      ensures ok ==> v == Word(file, off)
    {
      ok := off < POW63;
      v := if ok then Number(file[off..off + 8]) else 0;
    }

    /** `ftruncate`, which may be refused at any time. */
    method Resize(n: nat, ghost next: State) returns (ok: bool)
      requires next.img == if n <= |file| then file[..n] else file + seq(n - |file|, _ => NUL)
      modifies this`file, this`trail, this`refusals
      ensures ok ==> n < POW63 && file == next.img && trail == old(trail) + [next] && refusals == old(refusals)
      ensures !ok ==> file == old(file) && trail == old(trail) && refusals == old(refusals) + 1
    {
      var possible := *;
      ok := possible && n < POW63;
      if ok {
        file := if n <= |file| then file[..n] else file + seq(n - |file|, _ => NUL);
        trail := trail + [next];
      } else {
        refusals := refusals + 1;
      }
    }

    // ---------------------------------------------------------------- free lists

    /** Add the item p to the last block of a list, which has room. */
    method PushItem(fli: nat, p: nat)
      requires Sound(Now()) && fli < |lists| && |lists[fli].blocks| > 0 && lists[fli].items < BTREE_FREELIST_BLOCK_ITEMS
      requires Booked(book, p, Chunk(fli, InUse))
      modifies this`file, this`trail, this`lists, this`book
      ensures Leads(old(Now()), old(trail), Now(), trail, Live(old(book)) - {p})
      ensures Live(book) == Live(old(book)) - {p} && Extends(old(book), book)
      ensures OtherLists(old(lists), lists, fli) && lists[fli] == old(lists)[fli].(items := old(lists)[fli].items + 1)
      ensures LastIs(Now(), fli, p)
    {
      hide Sound, Leads, Patched;
      ghost var (s, a) := (Now(), trail);
      var l := lists[fli];
      ghost var mid, t := PushSteps(s, a, fli, p);
      lists := lists[fli := l.(items := l.items + 1)];
      PwriteU64(p, l.blocks[|l.blocks| - 1] + 24 + 8 * l.items, mid);
      PwriteU64(l.items + 1, l.blocks[|l.blocks| - 1] + 16, t);
      book := t.book;
      assert trail == a + [mid, t];
    }

    /** Make the block at p the last block of a list whose blocks are all full. */
    method LinkBlock(fli: nat, ptr: nat)
      requires Sound(Now()) && fli < |lists| && |lists[fli].blocks| > 0
               && lists[fli].items == BTREE_FREELIST_BLOCK_ITEMS
      requires ptr >= 8 && Booked(book, ptr - 8, Chunk(BLOCK_CLASS, InUse))
      modifies this`file, this`trail, this`lists, this`book
      ensures Leads(old(Now()), old(trail), Now(), trail, Live(old(book)) - {ptr - 8})
      ensures Live(book) == Live(old(book)) - {ptr - 8} && Extends(old(book), book)
      ensures OtherLists(old(lists), lists, fli)
      ensures lists[fli] == FreeList(old(lists)[fli].blocks + [ptr], 0)
    {
      hide Sound, Leads, Steady, Word, Elsewhere, SizeOf, Spot, Patched;
      ghost var (s, p, keep) := (Now(), ptr - 8, Live(book) - {ptr - 8});
      var prev := lists[fli].blocks[|lists[fli].blocks| - 1];
      ghost var t := s;
      LeadsSelf(s, trail, keep);
      lists := lists[fli := FreeList(lists[fli].blocks + [ptr], 0)];
      t := InitWord(s, s, old(trail), trail, p, 8, 0, keep);
      PwriteU64(0, ptr + 8, t);
      ghost var t1 := t;
      SoundPrev(s, fli);
      ChunkBound(s, p);
      t := InitWord(s, t, old(trail), trail, p, 0, prev, keep);
      PwriteU64(prev, ptr, t);
      ghost var t2 := t;
      t := InitWord(s, t, old(trail), trail, p, 16, 0, keep);
      PwriteU64(0, ptr + 16, t);
      InitKept(s, t1, t2, t, p, prev);
      ghost var b := trail;
      NextWritten(t, fli, |s.lists[fli].blocks| - 1, ptr);
      ghost var u := Linked(t, fli, p, Patched(t.img, prev + 8, Big(ptr, 8)));
      LinkSound(t, fli, p, u.img);
      PwriteU64(ptr, prev + 8, u);
      book := u.book;
      LeadsOne(t, b, u, keep);
      LeadsTwice(s, old(trail), t, b, u, trail, keep, keep);
    }

    /** Cut off the empty last block of a list. */
    method DropBlock(fli: nat) returns (lastblock: nat)
      requires Sound(Now()) && fli < |lists| && |lists[fli].blocks| > 1 && lists[fli].items == 0
      modifies this`file, this`trail, this`lists, this`book
      ensures Leads(old(Now()), old(trail), Now(), trail, Live(old(book)))
      ensures lastblock >= 8 && Booked(book, lastblock - 8, Chunk(BLOCK_CLASS, InUse))
      ensures Live(book) == Live(old(book)) + {lastblock - 8} && lastblock - 8 !in Live(old(book))
              && Extends(old(book), book)
      ensures lists == old(lists)[fli := FreeList(old(lists)[fli].blocks[..|old(lists)[fli].blocks| - 1],
              BTREE_FREELIST_BLOCK_ITEMS)]
    {
      hide Sound, Leads, Steady, Word, Elsewhere, SizeOf, Spot, Patched;
      ghost var (s, n) := (Now(), |lists[fli].blocks|);
      LastBlock(s, fli);
      var prevblock := lists[fli].blocks[|lists[fli].blocks| - 2];
      NextWritten(s, fli, n - 2, 0);
      ghost var t := Unlinked(s, fli, Patched(s.img, prevblock + 8, Big(0, 8)));
      UnlinkSound(s, fli, t.img);
      PwriteU64(0, prevblock + 8, t);
      lastblock := lists[fli].blocks[|lists[fli].blocks| - 1];
      lists := lists[fli := FreeList(lists[fli].blocks[..|lists[fli].blocks| - 1], BTREE_FREELIST_BLOCK_ITEMS)];
      book := t.book;
      LeadsOne(s, old(trail), t, Live(s.book));
    }

    /** Take the last item of a list. */
    method TakeItem(fli: nat) returns (ptr: nat)
      requires Sound(Now()) && fli < |lists| && |lists[fli].blocks| > 0 && lists[fli].items > 0
      modifies this`file, this`trail, this`lists, this`book
      ensures Leads(old(Now()), old(trail), Now(), trail, Live(old(book)))
      ensures ptr >= 8 && Booked(book, ptr - 8, Chunk(fli, InUse))
      ensures Live(book) == Live(old(book)) + {ptr - 8} && ptr - 8 !in Live(old(book)) && Extends(old(book), book)
      ensures OtherLists(old(lists), lists, fli) && lists[fli].items == old(lists)[fli].items - 1
      ensures LastIs(old(Now()), fli, ptr - 8)
    {
      hide Sound, Leads, Steady, Word, Elsewhere, SizeOf, Patched;
      ghost var (s, k) := (Now(), |lists[fli].blocks| - 1);
      SoundFill(s, fli);
      var block := lists[fli].blocks[|lists[fli].blocks| - 1];
      SpotPlace(s, fli, k, 2 + lists[fli].items);
      var ok, p := PreadU64(block + (2 + lists[fli].items) * 8);
      assert ok && p == Slot(s.img, s.lists, fli, k, s.lists[fli].items - 1);
      lists := lists[fli := lists[fli].(items := lists[fli].items - 1)];
      CountWritten(s, fli, s.lists[fli].items - 1);
      ghost var t := Popped(s, fli, Patched(s.img, block + 16, Big(s.lists[fli].items - 1, 8)));
      PopSound(s, fli, t.img);
      PwriteU64(lists[fli].items, block + 16, t);
      book := t.book;
      LeadsOne(s, old(trail), t, Live(s.book));
      ptr := p + 8;
    }

    /** Look for a block in the free lists; 0 when there is none. */
    method AllocFreelist(realsize: nat, ghost c: nat) returns (ptr: nat)
      requires Sound(Now()) && realsize == SizeOf(c) && c < BTREE_FREELIST_COUNT
      modifies this`file, this`trail, this`lists, this`book, this`free, this`freeoff, this`refusals
      ensures ptr == 0 ==> Now() == old(Now()) && trail == old(trail)
      ensures ptr != 0 ==>
                ptr >= 8 && Booked(book, ptr - 8, Chunk(c, InUse)) && Live(book) == Live(old(book)) + {ptr - 8}
                  && ptr - 8 !in Live(old(book))
      ensures Leads(old(Now()), old(trail), Now(), trail, Live(old(book))) && Extends(old(book), book)
      ensures free == old(free) && freeoff == old(freeoff) && refusals == old(refusals)
      ensures OtherLists(old(lists), lists, c) && (c != BLOCK_CLASS ==> HasRoom(lists, c))
      ensures ptr == 0 <==> OutOfBlocks(old(lists), c)
      ensures old(lists)[c].items > 0 ==> LastIs(old(Now()), c, ptr - 8)
      decreases 2
    {
      hide Sound, Leads, Steady, Word, Elsewhere, SizeOf;
      ghost var s := Now();
      SoundNonempty(s, c);
      LeadsSelf(s, trail, Live(book));
      ShiftedPow(c);
      var exp := LogTwo(realsize, c + 4);
      var fli := exp - 4;
      if lists[fli].items == 0 && |lists[fli].blocks| == 1 {
        return 0;
      }
      var lastblock := 0;
      if lists[fli].items == 0 {
        lastblock := DropBlock(fli);
        if exp == BTREE_FREELIST_SIZE_EXP {
          return lastblock;
        }
      }
      ghost var (t, b) := (Now(), trail);
      LeadsSound(s, old(trail), t, b, Live(s.book));
      var _ := Free(lastblock);
      assert Live(book) == Live(s.book);
      ghost var (u, d) := (Now(), trail);
      LeadsTwice(s, old(trail), t, b, u, d, Live(s.book), Live(s.book));
      LeadsSound(s, old(trail), u, d, Live(s.book));
      ExtendsTwice(s.book, t.book, u.book);
      ptr := TakeItem(fli);
      LeadsTwice(s, old(trail), u, d, Now(), trail, Live(s.book), Live(s.book));
      ExtendsTwice(s.book, u.book, book);
    }

    /** Put a new block behind the full ones of a list. */
    method MakeRoom(fli: nat) returns (ok: bool)
      requires Sound(Now()) && fli < BTREE_FREELIST_COUNT && fli != BLOCK_CLASS
      requires fli < |lists| && lists[fli].items == BTREE_FREELIST_BLOCK_ITEMS
      modifies this`file, this`trail, this`lists, this`book, this`free, this`freeoff, this`refusals
      ensures !ok ==> Now() == old(Now()) && trail == old(trail) && refusals > old(refusals)
      ensures ok ==> fli < |lists| && |lists[fli].blocks| > 0 && lists[fli].items == 0 && refusals == old(refusals)
      ensures Leads(old(Now()), old(trail), Now(), trail, Live(old(book))) && Live(book) == Live(old(book))
      ensures Extends(old(book), book) && (Covered(old(book), old(freeoff)) ==> Covered(book, freeoff))
      decreases 4
    {
      hide Sound, Leads, Steady, Word, Elsewhere, SizeOf, Covered, Extends;
      ghost var s := Now();
      var newblock := Alloc(BTREE_FREELIST_BLOCK_SIZE);
      if newblock == 0 {
        return false;
      }
      ghost var (t, d) := (Now(), trail);
      BlockClass();
      LeadsSound(s, old(trail), t, d, Live(s.book));
      SoundNonempty(t, fli);
      LinkBlock(fli, newblock);
      LeadsTwice(s, old(trail), t, d, Now(), trail, Live(s.book), Live(s.book));
      CoveredStill(t.book, book, freeoff);
      ExtendsTwice(s.book, t.book, book);
      return true;
    }

    /** Put a block into the list of its class. */
    method Release(fli: nat, p: nat) returns (ok: bool)
      requires Sound(Now()) && fli < BTREE_FREELIST_COUNT && Booked(book, p, Chunk(fli, InUse))
      requires fli < |lists| && (fli == BLOCK_CLASS ==> lists[fli].items < BTREE_FREELIST_BLOCK_ITEMS)
      modifies this`file, this`trail, this`lists, this`book, this`free, this`freeoff, this`refusals
      ensures ok ==> Live(book) == Live(old(book)) - {p} && refusals == old(refusals)
      ensures !ok ==>
              Now() == old(Now()) && trail == old(trail) && refusals > old(refusals) && !HasRoom(old(lists), fli)
      ensures ok ==> !OutOfBlocks(lists, fli) && LastIs(Now(), fli, p)
      ensures Leads(old(Now()), old(trail), Now(), trail, Live(old(book)) - {p})
      ensures Extends(old(book), book) && (Covered(old(book), old(freeoff)) ==> Covered(book, freeoff))
      ensures fli == BLOCK_CLASS ==>
                && ok && free == old(free) && freeoff == old(freeoff)
                && OtherLists(old(lists), lists, BLOCK_CLASS)
      decreases if fli == BLOCK_CLASS then 0 else 5
    {
      hide Sound, Leads, Steady, Word, Elsewhere, SizeOf, Covered, Extends, Kept;
      ghost var (s, live) := (Now(), Live(book));
      LeadsSelf(s, trail, live);
      ExtendsSelf(book);
      SoundNonempty(s, fli);
      if lists[fli].items == BTREE_FREELIST_BLOCK_ITEMS {
        var room := MakeRoom(fli);
        if !room {
          LeadsLess(s, old(trail), s, trail, live, live - {p});
          return false;
        }
      }
      ghost var (u, d) := (Now(), trail);
      StillBooked(s, old(trail), u, d, live, p);
      PushItem(fli, p);
      CoveredStill(u.book, book, freeoff);
      ExtendsTwice(s.book, u.book, book);
      LeadsLess(s, old(trail), u, d, live, live - {p});
      LeadsTwice(s, old(trail), u, d, Now(), trail, live - {p}, live - {p});
      return true;
    }

    /** Release the block behind `ptr`; nothing is read, and nothing released, at offset 0. */
    method Free(ptr: nat) returns (ok: bool)
      requires Sound(Now()) && (ptr == 0 || (ptr >= 8 && ptr - 8 in Live(book)))
      modifies this`file, this`trail, this`lists, this`book, this`free, this`freeoff, this`refusals
      ensures ok ==> ptr != 0 && Live(book) == Live(old(book)) - {ptr - 8} && refusals == old(refusals)
      ensures ok ==> !OutOfBlocks(lists, old(book)[ptr - 8].cls)
      ensures ok && !(old(book)[ptr - 8].cls == BLOCK_CLASS && !HasRoom(old(lists), BLOCK_CLASS)) ==>
                LastIs(Now(), old(book)[ptr - 8].cls, ptr - 8)
      ensures !ok ==>
              Now() == old(Now()) && trail == old(trail)
              && (ptr != 0 ==> refusals > old(refusals) && !HasRoom(lists, book[ptr - 8].cls))
      ensures Leads(old(Now()), old(trail), Now(), trail, Live(old(book)) - (if ptr == 0 then {} else {ptr - 8}))
      ensures Extends(old(book), book) && (Covered(old(book), old(freeoff)) ==> Covered(book, freeoff))
      ensures ptr == 0 || old(book)[ptr - 8].cls == BLOCK_CLASS ==>
                && ok == (ptr != 0) && free == old(free) && freeoff == old(freeoff) && refusals == old(refusals)
                && OtherLists(old(lists), lists, BLOCK_CLASS)
      decreases if ptr == 0 || book[ptr - 8].cls == BLOCK_CLASS then 1 else 6
    {
      hide Sound, Leads, Steady, Word, Elsewhere, SizeOf, Covered, Extends;
      ghost var s := Now();
      ExtendsSelf(book);
      LeadsSelf(s, trail, Live(book) - (if ptr == 0 then {} else {ptr - 8}));
      if ptr != 0 { SoundLabel(s, ptr - 8); }
      var read, size := PreadU64((ptr - 8) % TWO64);
      if !read {
        return false;
      }
      var realsize := AllocRealSize(size);
      ghost var c := ClassOf(size);
      ShiftedPow(c);
      var exp := LogTwo(realsize, c + 4);
      var fli := exp - 4;
      SoundNonempty(s, fli);
      if lists[fli].items == BTREE_FREELIST_BLOCK_ITEMS && exp == BTREE_FREELIST_SIZE_EXP {
        LinkBlock(fli, ptr);
        CoveredStill(s.book, book, freeoff);
      } else {
        ok := Release(fli, ptr - 8);
        return ok;
      }
      return true;
    }

    /** Grow the file if the free space at its end is too small. */
    method Reserve(realsize: nat) returns (ok: bool)
      requires Sound(Now()) && realsize <= BTREE_PREALLOC_SIZE
      modifies this`file, this`trail, this`free, this`refusals
      ensures !ok ==>
                Now() == old(Now()) && trail == old(trail) && refusals > old(refusals) && free < realsize
      ensures ok ==> realsize <= free < TWO64 && freeoff + free <= |file| && refusals == old(refusals)
      ensures ok ==> if old(free) < realsize then free == old(free) + BTREE_PREALLOC_SIZE && |file| == freeoff + free
                     else free == old(free) && file == old(file)
      ensures var t := old(Now()).(img := file); Leads(old(Now()), old(trail), t, trail, old(book).Keys)
    {
      hide Sound, Leads, Steady, Word, Elsewhere, SizeOf;
      ghost var s := Now();
      LeadsSelf(s, trail, book.Keys);
      SoundSpace(s);
      if free < realsize {
        var currsize := freeoff + free;
        ghost var n := currsize + BTREE_PREALLOC_SIZE;
        ghost var t := s.(img := if n <= |file| then file[..n] else file + seq(n - |file|, _ => NUL));
        ok := Resize(currsize + BTREE_PREALLOC_SIZE, t);
        if !ok {
          return;
        }
        assert t.img[..currsize] == s.img[..currsize];
        ResizeSound(s, t.img);
        LeadsOne(s, old(trail), t, book.Keys);
        free := free + BTREE_PREALLOC_SIZE;
      }
      ok := true;
    }

    /** Take a block from the free space at the end of the file. */
    method Carve(size: nat, realsize: nat) returns (ptr: nat)
      requires Sound(Now()) && size + 8 <= BTREE_PREALLOC_SIZE && realsize == SizeOf(ClassOf(size))
      modifies this`file, this`trail, this`book, this`free, this`freeoff, this`refusals
      ensures ptr == 0 ==>
                Now() == old(Now()) && trail == old(trail) && refusals > old(refusals) && free < realsize
      ensures ptr != 0 ==>
                && ptr == old(freeoff) + 8 && freeoff == old(freeoff) + realsize && Word(file, ptr - 8) == size
                   && refusals == old(refusals)
                && book == old(book)[ptr - 8 := Chunk(ClassOf(size), InUse)] && ptr - 8 !in old(book)
                && Carved(old(Now()), Now(), realsize)
      ensures Leads(old(Now()), old(trail), Now(), trail, old(book).Keys)
    {
      hide Sound, Leads, Steady, Word, Elsewhere, SizeOf, Patched, Less, Carved, FreeAfter, ClassOf, Booked, Live;
      ghost var s := Now();
      ClassBelow(size);
      var room := Reserve(realsize);
      if !room {
        return 0;
      }
      ghost var (v, a) := (s.(img := file), trail);
      SoundSpace(s);
      LeadsSound(s, old(trail), v, a, s.book.Keys);
      ptr := freeoff;
      CarvedIs(s, free, |file|, realsize);
      ghost var t1, t2, t3 := CarveSteps(v, a, free, size);
      free := Less(free, realsize);
      freeoff := freeoff + realsize;
      PwriteU64(free, BTREE_HDR_FREE_POS, t1);
      PwriteU64(freeoff, BTREE_HDR_FREEOFF_POS, t2);
      PwriteU64(size, ptr, t3);
      book := t3.book;
      assert trail == a + [t1, t2, t3];
      LeadsTwice(s, old(trail), v, a, Now(), trail, s.book.Keys, v.book.Keys);
      ptr := ptr + 8;
    }

    /** Find room for `size` bytes behind a label; 0 when the file could not grow. */
    method Alloc(size: nat) returns (ptr: nat)
      requires Sound(Now()) && size + 8 <= BTREE_PREALLOC_SIZE
      modifies this`file, this`trail, this`lists, this`book, this`free, this`freeoff, this`refusals
      ensures ptr == 0 ==> Now() == old(Now()) && trail == old(trail) && refusals > old(refusals)
                           && free < SizeOf(ClassOf(size)) && OutOfBlocks(lists, ClassOf(size))
      ensures ptr != 0 ==>
                && ptr >= 8 && Booked(book, ptr - 8, Chunk(ClassOf(size), InUse)) && Word(file, ptr - 8) == size
                && Live(book) == Live(old(book)) + {ptr - 8} && ptr - 8 !in Live(old(book)) && refusals == old(refusals)
      ensures Leads(old(Now()), old(trail), Now(), trail, Live(old(book)))
      ensures Extends(old(book), book) && (Covered(old(book), old(freeoff)) ==> Covered(book, freeoff))
      ensures ptr != 0 && OutOfBlocks(old(lists), ClassOf(size)) ==> Carved(old(Now()), Now(), SizeOf(ClassOf(size)))
      ensures ClassOf(size) < |old(lists)| && old(lists)[ClassOf(size)].items > 0 ==>
                ptr >= 8 && LastIs(old(Now()), ClassOf(size), ptr - 8)
      ensures !OutOfBlocks(old(lists), ClassOf(size)) ==>
                ptr != 0 && free == old(free) && freeoff == old(freeoff) && refusals == old(refusals)
      ensures OtherLists(old(lists), lists, ClassOf(size))
              && (ClassOf(size) != BLOCK_CLASS ==> HasRoom(lists, ClassOf(size)))
      decreases 3
    {
      hide Sound, Leads, Steady, Word, Elsewhere, SizeOf, Covered, Extends;
      ghost var s := Now();
      ExtendsSelf(book);
      SoundNonempty(s, 0);
      ClassBelow(size);
      var realsize := AllocRealSize(size);
      ptr := AllocFreelist(realsize, ClassOf(size));
      ghost var (t, b) := (Now(), trail);
      if ptr != 0 {
        LeadsSound(s, old(trail), t, b, Live(s.book));
        SoundLabel(t, ptr - 8);
        CoveredStill(s.book, t.book, freeoff);
        var ok, oldsize := PreadU64(ptr - 8);
        if oldsize != size {
          ghost var u := t.(img := Patched(file, ptr - 8, Big(size, 8)));
          WordWritten(file, ptr - 8, size);
          RelabelSound(t, ptr - 8, size, u.img);
          PwriteU64(size, ptr - 8, u);
          LeadsOne(t, b, u, t.book.Keys - {ptr - 8});
          LeadsTwice(s, old(trail), t, b, u, trail, Live(s.book), t.book.Keys - {ptr - 8});
        }
        return ptr;
      }
      ptr := Carve(size, realsize);
      LeadsLess(s, old(trail), Now(), trail, s.book.Keys, Live(s.book));
      if ptr != 0 {
        ExtendsNew(s.book, ptr - 8, Chunk(ClassOf(size), InUse));
        CoveredAfter(s.book, book, s.freeoff, ClassOf(size));
      }
    }
  }

  /** The two writes that add an item. */
  lemma PushSteps(s: State, a: seq<State>, j: nat, p: nat) returns (mid: State, t: State)
    requires Sound(s) && j < |s.lists| && |s.lists[j].blocks| > 0 && s.lists[j].items < BTREE_FREELIST_BLOCK_ITEMS
             && Booked(s.book, p, Chunk(j, InUse))
    ensures var l := s.lists[j];
            var b := l.blocks[|l.blocks| - 1];
            && b + 24 + 8 * l.items + 8 <= |s.img| && b + 24 <= |s.img|
            && mid == s.(img := Patched(s.img, b + 24 + 8 * l.items, Big(p, 8)))
            && t.img == Patched(mid.img, b + 16, Big(l.items + 1, 8)) && t == Pushed(mid, j, p, t.img)
            && Word(t.img, b + 24 + 8 * l.items) == p
    ensures Leads(s, a, t, a + [mid, t], Live(s.book) - {p}) && Live(t.book) == Live(s.book) - {p}
            && Extends(s.book, t.book)
  {
    hide Sound, Leads, Steady, Word, Elsewhere, SizeOf, Spot, Unread, Patched;
    var (l, keep) := (s.lists[j], Live(s.book) - {p});
    SpareSlot(s, j, p);
    mid := s.(img := Patched(s.img, l.blocks[|l.blocks| - 1] + 24 + 8 * l.items, Big(p, 8)));
    CountWritten(mid, j, l.items + 1);
    WordElsewhere(mid.img, Patched(mid.img, l.blocks[|l.blocks| - 1] + 16, Big(l.items + 1, 8)),
      l.blocks[|l.blocks| - 1] + 16, 8, l.blocks[|l.blocks| - 1] + 24 + 8 * l.items);
    t := Pushed(mid, j, p, Patched(mid.img, l.blocks[|l.blocks| - 1] + 16, Big(l.items + 1, 8)));
    PushSound(mid, j, p, t.img);
    LeadsOne(s, a, mid, Live(s.book));
    LeadsLess(s, a, mid, a + [mid], Live(s.book), keep);
    LeadsOne(mid, a + [mid], t, keep);
    LeadsTwice(s, a, mid, a + [mid], t, a + [mid] + [t], keep, keep);
    assert a + [mid] + [t] == a + [mid, t];
  }

  /** The first slot behind the items of a list is written. */
  lemma SpareSlot(s: State, j: nat, p: nat)
    requires Sound(s) && j < |s.lists| && |s.lists[j].blocks| > 0 && s.lists[j].items < BTREE_FREELIST_BLOCK_ITEMS
             && Booked(s.book, p, Chunk(j, InUse))
    ensures var (k, o) := (|s.lists[j].blocks| - 1, s.lists[j].blocks[|s.lists[j].blocks| - 1] + 24
            + 8 * s.lists[j].items);
            && o + 8 <= |s.img|
            && Word(Patched(s.img, o, Big(p, 8)), o) == p
            && var t := s.(img := Patched(s.img, o, Big(p, 8)));
               Sound(t) && Steady(s, t, Live(s.book)) && CanPush(t, j, p)
  {
    hide Framed, ListsOk, Apart, Labelled, Chained, SlotsBooked, BlocksBooked, UsesListed, Steady, Patched, SizeOf;
    var (k, i) := (|s.lists[j].blocks| - 1, s.lists[j].items);
    var o := s.lists[j].blocks[k] + 24 + 8 * i;
    SpotPlace(s, j, k, 3 + i);
    ChunkBound(s, p);
    WordWritten(s.img, o, p);
    var t := s.(img := Patched(s.img, o, Big(p, 8)));
    SpotWrite(s, t.img, j, k, 3 + i);
    SpareUnread(s, j);
    UnreadSound(s, t.img, o, 8);
    StepSteady(s, t, j, k, 3 + i, Live(s.book));
  }

  lemma SpareUnread(s: State, j: nat)
    requires Sound(s) && j < |s.lists| && |s.lists[j].blocks| > 0 && s.lists[j].items < BTREE_FREELIST_BLOCK_ITEMS
    ensures Unread(s, s.lists[j].blocks[|s.lists[j].blocks| - 1] + 24 + 8 * s.lists[j].items, 8)
  {
    hide Sound, SizeOf;
    var (k, i) := (|s.lists[j].blocks| - 1, s.lists[j].items);
    var o := Base(s.lists, j, k) + 24 + 8 * i;
    BlockPlace(s, j, k);
    forall p | p in s.book ensures o + 8 <= p || p + 8 <= o {
      ChunkApart(s, p, j, k);
    }
    forall m: nat, n: nat | HasBlock(s.lists, m, n)
      ensures o + 8 <= Base(s.lists, m, n) || Base(s.lists, m, n) + 24 + 8 * Fill(s.lists, m, n) <= o
    {
      SoundLists(s);
      FillBound(s.lists, m, n);
      if (m, n) != (j, k) { BlocksApart(s, j, k, m, n); }
    }
  }

  lemma SpotPlace(s: State, j: nat, k: nat, w: nat)
    requires Sound(s) && HasBlock(s.lists, j, k) && w < 255
    ensures 32 <= Base(s.lists, j, k) && Base(s.lists, j, k) + 8 * w + 8 <= |s.img| < POW63
    ensures Base(s.lists, j, k) + 8 * w + 8 <= s.freeoff
  {
    hide ListsOk, Apart, Labelled, Chained, SlotsBooked, BlocksBooked, UsesListed, Word;
    BlockPlace(s, j, k);
  }

  lemma ChunkBound(s: State, p: nat)
    requires Sound(s) && p in s.book
    ensures HEAP_POS <= p && p + SizeOf(s.book[p].cls) <= |s.img| < POW63
  {
    hide ListsOk, Labelled, Chained, SlotsBooked, BlocksBooked, UsesListed, Word, SizeOf;
  }

  /** The item count of the last block of a list is written. */
  lemma CountWritten(s: State, j: nat, n: nat)
    requires Sound(s) && j < |s.lists| && |s.lists[j].blocks| > 0 && n <= BTREE_FREELIST_BLOCK_ITEMS
    ensures var (k, o) := (|s.lists[j].blocks| - 1, s.lists[j].blocks[|s.lists[j].blocks| - 1] + 16);
            && o + 8 <= |s.img|
            && Elsewhere(s.img, Patched(s.img, o, Big(n, 8)), o, 8)
            && Spot(Patched(s.img, o, Big(n, 8)), s.lists, j, k, 2) == n
  {
    hide Sound, Patched, Elsewhere;
    var k := |s.lists[j].blocks| - 1;
    SpotPlace(s, j, k, 2);
    WordWritten(s.img, s.lists[j].blocks[k] + 16, n);
  }

  /** A word of a block in use is written; the others stay. */
  lemma InitWord(s: State, t: State, a: seq<State>, b: seq<State>, p: nat, o: nat, v: nat, keep: set<nat>)
                 returns (u: State)
    requires Sound(t) && Booked(t.book, p, Chunk(BLOCK_CLASS, InUse)) && o + 8 <= BTREE_FREELIST_BLOCK_SIZE
             && v < 2 * POW63
    requires Leads(s, a, t, b, keep) && keep <= t.book.Keys - {p}
    ensures p + 8 + o + 8 <= |t.img| && u == t.(img := Patched(t.img, p + 8 + o, Big(v, 8)))
    ensures Sound(u) && Leads(s, a, u, b + [u], keep)
    ensures Word(u.img, p + 8 + o) == v && Elsewhere(t.img, u.img, p + 8 + o, 8)
  {
    hide Sound, Word, Elsewhere, Patched, SizeOf, Steady, Leads;
    ChunkBound(t, p);
    BlockClass();
    WordWritten(t.img, p + 8 + o, v);
    u := t.(img := Patched(t.img, p + 8 + o, Big(v, 8)));
    PayloadUnread(t, p, p + 8 + o, 8);
    UnreadSound(t, u.img, p + 8 + o, 8);
    PayloadSteady(t, u.img, p, p + 8 + o, 8);
    LeadsOne(t, b, u, t.book.Keys - {p});
    LeadsTwice(s, a, t, b, u, b + [u], keep, t.book.Keys - {p});
  }

  lemma InitKept(s: State, t: State, u: State, v: State, p: nat, prev: nat)
    requires Elsewhere(s.img, t.img, p + 16, 8) && Word(t.img, p + 16) == 0
    requires Elsewhere(t.img, u.img, p + 8, 8) && Word(u.img, p + 8) == prev
    requires Elsewhere(u.img, v.img, p + 24, 8) && Word(v.img, p + 24) == 0
    ensures Word(v.img, p + 8) == prev && Word(v.img, p + 16) == 0 && Word(v.img, p + 24) == 0
  {
    hide Word, Elsewhere;
    WordElsewhere(t.img, u.img, p + 8, 8, p + 16);
    WordElsewhere(u.img, v.img, p + 24, 8, p + 16);
    WordElsewhere(u.img, v.img, p + 24, 8, p + 8);
  }

  lemma SoundPrev(s: State, j: nat)
    requires Sound(s) && j < |s.lists| && |s.lists[j].blocks| > 0
    ensures s.lists[j].blocks[|s.lists[j].blocks| - 1] < POW63
  {
    hide Sound;
    SpotPlace(s, j, |s.lists[j].blocks| - 1, 0);
  }

  lemma NextWritten(s: State, j: nat, k: nat, v: nat)
    requires Sound(s) && HasBlock(s.lists, j, k) && v < 2 * POW63
    ensures var o := s.lists[j].blocks[k] + 8;
            && o + 8 <= |s.img|
            && Elsewhere(s.img, Patched(s.img, o, Big(v, 8)), o, 8)
            && Spot(Patched(s.img, o, Big(v, 8)), s.lists, j, k, 1) == v
  {
    hide Sound, Patched, Elsewhere;
    SpotPlace(s, j, k, 1);
    WordWritten(s.img, s.lists[j].blocks[k] + 8, v);
  }

  lemma ExtendsSelf(b: Book)
    ensures Extends(b, b)
  {
  }

  lemma LastBlock(s: State, j: nat)
    requires Sound(s) && j < |s.lists| && |s.lists[j].blocks| > 1 && s.lists[j].items == 0
    ensures CanUnlink(s, j)
  {
    hide Sound;
    BlockPlace(s, j, |s.lists[j].blocks| - 1);
  }

  lemma SoundFill(s: State, j: nat)
    requires Sound(s) && j < |s.lists|
    ensures s.lists[j].items <= BTREE_FREELIST_BLOCK_ITEMS
  {
    hide Framed, Apart, Labelled, Chained, SlotsBooked, BlocksBooked, UsesListed;
  }

  lemma SoundNonempty(s: State, j: nat)
    requires Sound(s) && j < BTREE_FREELIST_COUNT
    ensures |s.lists| == BTREE_FREELIST_COUNT && |s.lists[j].blocks| > 0
            && s.lists[j].items <= BTREE_FREELIST_BLOCK_ITEMS
  {
    hide Framed, Apart, Labelled, Chained, SlotsBooked, BlocksBooked, UsesListed;
  }

  lemma LeadsSound(s: State, a: seq<State>, t: State, b: seq<State>, keep: set<nat>)
    requires Leads(s, a, t, b, keep)
    ensures Sound(t)
  {
    hide Sound, Steady;
  }

  lemma SoundLabel(s: State, p: nat)
    requires Sound(s) && p in s.book
    ensures HEAP_POS <= p && p + 8 <= |s.img| < POW63
    ensures Word(s.img, p) + 8 <= BTREE_PREALLOC_SIZE && ClassOf(Word(s.img, p)) == s.book[p].cls < BTREE_FREELIST_COUNT
  {
    hide ListsOk, Chained, SlotsBooked, BlocksBooked, UsesListed, Word, SizeOf;
    ClassBelow(Word(s.img, p));
  }

  lemma CoveredStill(b: Book, c: Book, freeoff: nat)
    requires Extends(b, c)
    ensures Covered(b, freeoff) ==> Covered(c, freeoff)
  {
    hide Extends, Covered;
    if Covered(b, freeoff) { CoveredMore(b, c, freeoff); }
  }

  lemma StillBooked(s: State, a: seq<State>, t: State, b: seq<State>, keep: set<nat>, p: nat)
    requires Leads(s, a, t, b, keep) && p in keep
    ensures Sound(t) && p in s.book && Booked(t.book, p, s.book[p]) && Kept(s.img, t.img, p)
  {
    hide Sound, Kept, Word;
  }

  lemma ExtendsNew(b: Book, p: nat, c: Chunk)
    requires p !in b
    ensures Extends(b, b[p := c])
  {
  }

  lemma CoveredAfter(b: Book, c: Book, freeoff: nat, cls: nat)
    requires Extends(b, c) && freeoff in c && c[freeoff].cls == cls
    ensures Covered(b, freeoff) ==> Covered(c, freeoff + SizeOf(cls))
  {
    hide Extends, Covered, SizeOf;
    if Covered(b, freeoff) { CoveredNext(b, c, freeoff, cls); }
  }

  lemma SoundSpace(s: State)
    requires Sound(s)
    ensures HEAP_POS <= s.freeoff && s.freeoff + s.free <= |s.img| < POW63
  {
    hide ListsOk, Apart, Labelled, Chained, SlotsBooked, BlocksBooked, UsesListed;
  }

  /** The three writes that carve a block of `f` free bytes. */
  lemma CarveSteps(s: State, a: seq<State>, f: nat, size: nat) returns (t: State, u: State, v: State)
    requires Sound(s) && size + 8 <= BTREE_PREALLOC_SIZE && SizeOf(ClassOf(size)) <= f && s.freeoff + f <= |s.img|
    ensures var (n, p) := (SizeOf(ClassOf(size)), s.freeoff);
            && p + 8 <= |s.img|
            && t == s.(img := Patched(s.img, BTREE_HDR_FREE_POS, Big(f - n, 8)), free := f - n)
            && u == t.(img := Patched(t.img, BTREE_HDR_FREEOFF_POS, Big(p + n, 8)), freeoff := p + n)
            && v == u.(img := Patched(u.img, p, Big(size, 8)), book := s.book[p := Chunk(ClassOf(size), InUse)])
            && Leads(s, a, v, a + [t, u, v], s.book.Keys) && Word(v.img, p) == size && p !in s.book
               && |v.img| == |s.img|
  {
    hide Sound, Steady, Leads, Word, Elsewhere, SizeOf, ClassOf, Patched;
    var (n, p, keys) := (SizeOf(ClassOf(size)), s.freeoff, s.book.Keys);
    SoundSpace(s);
    WordWritten(s.img, BTREE_HDR_FREE_POS, f - n);
    t := s.(img := Patched(s.img, BTREE_HDR_FREE_POS, Big(f - n, 8)), free := f - n);
    FreeSound(s, f - n, t.img);
    WordWritten(t.img, BTREE_HDR_FREEOFF_POS, p + n);
    u := t.(img := Patched(t.img, BTREE_HDR_FREEOFF_POS, Big(p + n, 8)), freeoff := p + n);
    CarveSound(t, p + n, u.img);
    WordWritten(u.img, p, size);
    v := u.(img := Patched(u.img, p, Big(size, 8)), book := s.book[p := Chunk(ClassOf(size), InUse)]);
    VacantNext(s, u, ClassOf(size));
    AddSound(u, p, size, v.img);
    LeadsOne(s, a, t, keys);
    LeadsOne(t, a + [t], u, keys);
    LeadsTwice(s, a, t, a + [t], u, a + [t] + [u], keys, keys);
    LeadsOne(u, a + [t] + [u], v, keys);
    LeadsTwice(s, a, u, a + [t] + [u], v, a + [t] + [u] + [v], keys, keys);
    assert a + [t] + [u] + [v] == a + [t, u, v];
  }

  lemma VacantNext(s: State, u: State, c: nat)
    requires Sound(s) && u.book == s.book && u.freeoff == s.freeoff + SizeOf(c)
    ensures Vacant(u, s.freeoff, c)
  {
    hide ListsOk, Labelled, Chained, SlotsBooked, BlocksBooked, UsesListed, SizeOf, Word;
  }

  lemma SoundHeader(s: State)
    requires Sound(s)
    ensures HEAP_POS <= |s.img| < POW63
    ensures Word(s.img, BTREE_HDR_FREE_POS) == s.free && Word(s.img, BTREE_HDR_FREEOFF_POS) == s.freeoff
  {
    hide ListsOk, Apart, Labelled, Chained, SlotsBooked, BlocksBooked, UsesListed, Word;
  }

  lemma SoundFirst(s: State, j: nat)
    requires Sound(s) && j < BTREE_FREELIST_COUNT
    ensures j < |s.lists| && |s.lists[j].blocks| > 0 && s.lists[j].blocks[0] == 32 + BTREE_FREELIST_BLOCK_SIZE * j
  {
    hide Framed, Apart, Labelled, Chained, SlotsBooked, BlocksBooked, UsesListed;
  }

  lemma SoundHeads(s: State, j: nat, k: nat)
    requires Sound(s) && HasBlock(s.lists, j, k)
    ensures var b := s.lists[j].blocks[k];
            && b + 24 <= |s.img| < POW63 && Word(s.img, b + 16) == Fill(s.lists, j, k)
            && Word(s.img, b + 8) == if k == |s.lists[j].blocks| - 1 then 0 else s.lists[j].blocks[k + 1]
    ensures k + 1 < |s.lists[j].blocks| ==> s.lists[j].blocks[k + 1] != 0
  {
    hide Framed, ListsOk, Apart, Labelled, SlotsBooked, BlocksBooked, UsesListed, Word;
    SpotPlace(s, j, k, 2);
    if k + 1 < |s.lists[j].blocks| { SpotPlace(s, j, k + 1, 2); }
    assert Heads(s.img, s.lists, j, k);
  }

  /** The header of a sound file: free space and where it starts, as eight bytes each. */
  lemma HeaderFormat(s: State)
    requires Sound(s)
    ensures |s.img| >= 57412 && Number(s.img[16..24]) == s.free && Number(s.img[24..32]) == s.freeoff
    ensures |s.lists| == 28 && forall j | 0 <= j < 28 ::
            |s.lists[j].blocks| > 0 && s.lists[j].blocks[0] == 32 + 2040 * j
  {
    hide Sound;
    SoundHeader(s);
    SoundNonempty(s, 0);
    forall j | 0 <= j < 28 ensures |s.lists[j].blocks| > 0 && s.lists[j].blocks[0] == 32 + 2040 * j {
      SoundFirst(s, j);
    }
  }

  /** A block of a free list: the next block, the number of items and the items, as eight bytes each. */
  lemma ListFormat(s: State, j: nat, k: nat, i: nat)
    requires Sound(s) && HasBlock(s.lists, j, k) && i < Fill(s.lists, j, k)
    ensures var (b, n) := (s.lists[j].blocks[k], |s.lists[j].blocks|);
            && b + 2040 <= |s.img| && Fill(s.lists, j, k) == (if k == n - 1 then s.lists[j].items else 252) <= 252
            && Number(s.img[b + 8..b + 16]) == (if k == n - 1 then 0 else s.lists[j].blocks[k + 1])
            && Number(s.img[b + 16..b + 24]) == Fill(s.lists, j, k)
            && Booked(s.book, Number(s.img[b + 24 + 8 * i..b + 32 + 8 * i]), Chunk(j, Item(j, k, i)))
  {
    hide Framed, ListsOk, Apart, Labelled, Chained, BlocksBooked, UsesListed, Number;
    SoundHeads(s, j, k);
    FillAtMost(s, j, k);
    SpotPlace(s, j, k, 3 + i);
    SpotPlace(s, j, k, 254);
    assert Slot(s.img, s.lists, j, k, i) == Number(s.img[s.lists[j].blocks[k] + 24 + 8 * i..s.lists[j].blocks[k] + 32
           + 8 * i]);
  }

  lemma FillAtMost(s: State, j: nat, k: nat)
    requires Sound(s) && HasBlock(s.lists, j, k)
    ensures Fill(s.lists, j, k) <= 252
  {
    hide Sound;
    SoundFill(s, j);
  }

  /** A block of the heap: the size that its first eight bytes give needs its class, and no smaller one. */
  lemma ChunkFormat(s: State, p: nat)
    requires Sound(s) && p in s.book
    ensures p + 8 <= |s.img|
    ensures var (size, c) := (Number(s.img[p..p + 8]), s.book[p].cls);
            size + 8 <= 16 * Pow2(c) && p + 16 * Pow2(c) <= |s.img| && (c > 0 ==> 16 * Pow2(c - 1) < size + 8)
  {
    hide Sound, Number;
    SoundLabel(s, p);
    ChunkBound(s, p);
  }

  // ---------------------------------------------------------------- the empty file

  /** `"REDBTREE00000000"`. */
  const MAGIC: seq<Byte> := [0x52, 0x45, 0x44, 0x42, 0x54, 0x52, 0x45, 0x45] + seq(8, _ => 0x30)

  ghost function EmptyLists(): seq<FreeList> {
    seq(BTREE_FREELIST_COUNT, j requires 0 <= j => FreeList([32 + BTREE_FREELIST_BLOCK_SIZE * j], 0))
  }

  /** Nothing but zeros behind the first header fields. */
  ghost predicate Blank(img: Image) {
    forall i | 32 <= i < |img| :: img[i] == 0
  }

  lemma {:induction false} ZeroNumber(b: seq<Byte>)
    requires forall i | 0 <= i < |b| :: b[i] == 0
    ensures Number(b) == 0 && Big(0, |b|) == b
  {
    if b != [] {
      ZeroNumber(b[..|b| - 1]);
      assert b == b[..|b| - 1] + [0];
    }
  }

  lemma BlankWord(img: Image, o: nat)
    requires Blank(img) && 32 <= o
    ensures Word(img, o) == 0
  {
    if o + 8 <= |img| { ZeroNumber(img[o..o + 8]); }
  }

  /** Writing zeros where there are zeros. */
  lemma BlankWritten(img: Image, o: nat, n: nat)
    requires Blank(img) && 32 <= o && o + n <= |img|
    ensures Patched(img, o, Big(0, n)) == img
  {
    ZeroNumber(img[o..o + n]);
    assert img == img[..o] + img[o..o + n] + img[o + n..];
  }

  lemma Write16(img: Image, s: seq<Byte>)
    requires Blank(img) && |img| == HEAP_POS && |s| == 16
    ensures Blank(Patched(img, 0, s)) && Patched(img, 0, s)[..16] == s
  {
  }

  lemma Written(img: Image, o: nat, v: nat)
    requires Blank(img) && |img| == HEAP_POS && o + 8 <= 32 && v < 2 * POW63
    ensures var p := Patched(img, o, Big(v, 8));
            && Blank(p) && Word(p, o) == v && (forall a: nat | a + 8 <= o :: Word(p, a) == Word(img, a))
            && (o >= 16 ==> p[..16] == img[..16])
  {
    hide Big, Word;
    WordWritten(img, o, v);
    forall a: nat | a + 8 <= o ensures Word(Patched(img, o, Big(v, 8)), a) == Word(img, a) {
      WordElsewhere(img, Patched(img, o, Big(v, 8)), o, 8, a);
    }
  }

  lemma EmptySound(s: State)
    requires Blank(s.img) && |s.img| == HEAP_POS && s == State(s.img, EmptyLists(), 0, HEAP_POS, map[])
    requires Word(s.img, BTREE_HDR_FREE_POS) == 0 && Word(s.img, BTREE_HDR_FREEOFF_POS) == HEAP_POS
    ensures Sound(s)
  {
    hide Word, Blank;
    forall j: nat, k: nat | HasBlock(s.lists, j, k) ensures Heads(s.img, s.lists, j, k) {
      BlankWord(s.img, Base(s.lists, j, k));
      BlankWord(s.img, Base(s.lists, j, k) + 8);
      BlankWord(s.img, Base(s.lists, j, k) + 16);
    }
  }
}
