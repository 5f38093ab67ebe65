/** Each single write of the disk allocator keeps the file sound: a crash after any of them leaves
    a file whose free lists and blocks still make sense. */
module DiskSteps {
  import opened Bytes
  import opened LittleEndian
  import opened Memory
  import opened DiskImages
  import opened DiskLedger

  // ---------------------------------------------------------------- writes that nothing reads

  /** Bytes that the allocator does not read: neither header, nor labels, nor used parts of free list blocks. */
  ghost predicate Unread(s: State, o: nat, n: nat) {
    && o >= 32
    && (forall p | p in s.book :: o + n <= p || p + 8 <= o)
    && forall j: nat, k: nat | HasBlock(s.lists, j, k) ::
         o + n <= Base(s.lists, j, k) || Base(s.lists, j, k) + 24 + 8 * Fill(s.lists, j, k) <= o
  }

  /** The used words of the free list blocks are as before. */
  ghost predicate SameSpots(s: State, img: Image) {
    forall j: nat, k: nat, w: nat | HasBlock(s.lists, j, k) && w < 3 + Fill(s.lists, j, k) ::
      Spot(img, s.lists, j, k, w) == Spot(s.img, s.lists, j, k, w)
  }

  lemma SameSpotsSound(s: State, img: Image)
    requires Sound(s) && SameSpots(s, img)
    ensures Chained(img, s.lists) && SlotsBooked(img, s.lists, s.book) && UsesListed(img, s.lists, s.book)
  {
    hide Spot, ListsOk, Apart, Labelled, Framed, BlocksBooked;
    forall j: nat, k: nat | HasBlock(s.lists, j, k) ensures Heads(img, s.lists, j, k) {
      assert Heads(s.img, s.lists, j, k);
    }
    forall j: nat, k: nat, i: nat | HasBlock(s.lists, j, k) && i < Fill(s.lists, j, k)
      ensures Slot(img, s.lists, j, k, i) == Slot(s.img, s.lists, j, k, i)
    {
    }
    forall p | p in s.book ensures Listed(img, s.lists, p, s.book[p]) {
      assert Listed(s.img, s.lists, p, s.book[p]);
    }
  }

  lemma UnreadSpots(s: State, img: Image, o: nat, n: nat)
    requires Sound(s) && Elsewhere(s.img, img, o, n) && Unread(s, o, n)
    ensures SameSpots(s, img)
  {
    hide Sound, Elsewhere, Word;
    forall j: nat, k: nat, w: nat | HasBlock(s.lists, j, k) && w < 3 + Fill(s.lists, j, k)
      ensures Spot(img, s.lists, j, k, w) == Spot(s.img, s.lists, j, k, w)
    {
      WordElsewhere(s.img, img, o, n, Base(s.lists, j, k) + 8 * w);
    }
  }

  lemma UnreadLabels(s: State, img: Image, o: nat, n: nat)
    requires Sound(s) && Elsewhere(s.img, img, o, n) && Unread(s, o, n)
    ensures Labelled(img, s.book) && Framed(s.(img := img))
  {
    hide Elsewhere, Word, SizeOf, ClassOf, ListsOk, Apart, Chained, SlotsBooked, BlocksBooked, UsesListed;
    forall p | p in s.book ensures Word(img, p) == Word(s.img, p) {
      WordElsewhere(s.img, img, o, n, p);
    }
    WordElsewhere(s.img, img, o, n, 16);
    WordElsewhere(s.img, img, o, n, 24);
    assert |img| == |s.img| by { ElsewhereAt(s.img, img, o, n, 0, 0); }
  }

  /** Writing what nobody reads keeps the file sound. */
  lemma UnreadSound(s: State, img: Image, o: nat, n: nat)
    requires Sound(s) && Elsewhere(s.img, img, o, n) && Unread(s, o, n)
    ensures Sound(s.(img := img))
  {
    hide Elsewhere, Unread, ListsOk, Apart, Labelled, Framed, Chained, SlotsBooked, BlocksBooked, UsesListed, SameSpots;
    UnreadSpots(s, img, o, n);
    UnreadLabels(s, img, o, n);
    SameSpotsSound(s, img);
  }

  /** The contents of a block in use. */
  lemma PayloadUnread(s: State, p: nat, o: nat, n: nat)
    requires Sound(s) && p in s.book && s.book[p].use == InUse
    requires p + 8 <= o && o + n <= p + SizeOf(s.book[p].cls)
    ensures Unread(s, o, n)
  {
    forall j: nat, k: nat | HasBlock(s.lists, j, k)
      ensures o + n <= Base(s.lists, j, k) || Base(s.lists, j, k) + 24 + 8 * Fill(s.lists, j, k) <= o
    {
      ChunkApart(s, p, j, k);
    }
    hide Framed, Labelled, Chained, SlotsBooked, BlocksBooked, UsesListed;
    forall q | q in s.book ensures o + n <= q || q + 8 <= o {
      if q < p { assert q + SizeOf(s.book[q].cls) <= p; }
      if q > p { assert p + SizeOf(s.book[p].cls) <= q; }
    }
  }

  /** Writing into a block in use keeps the others. */
  lemma PayloadSteady(s: State, img: Image, p: nat, o: nat, n: nat)
    requires Sound(s) && p in s.book && p + 8 <= o && o + n <= p + SizeOf(s.book[p].cls) && Elsewhere(s.img, img, o, n)
    ensures Steady(s, s.(img := img), s.book.Keys - {p})
  {
    hide Sound, Elsewhere, Kept, SizeOf, Word;
    forall q | q in s.book.Keys - {p} ensures Kept(s.img, img, q) {
      ChunksApart(s, p, q);
      KeptElsewhere(s, img, o, n, q);
    }
    ChunksApart(s, p, p);
    WordElsewhere(s.img, img, o, n, BTREE_HDR_ROOTPTR_POS);
  }

  lemma ChunksApart(s: State, p: nat, q: nat)
    requires Sound(s) && p in s.book && q in s.book
    ensures HEAP_POS <= p && p + SizeOf(s.book[p].cls) <= s.freeoff
    ensures p < q ==> p + SizeOf(s.book[p].cls) <= q
    ensures q < p ==> q + SizeOf(s.book[q].cls) <= p
  {
    hide Framed, Labelled, Chained, SlotsBooked, BlocksBooked, UsesListed, SizeOf;
  }

  // ---------------------------------------------------------------- one word of a free list block

  /** One word of a free list block was written, nothing else the allocator reads. */
  ghost predicate OnlySpot(s: State, img: Image, j: nat, k: nat, w: nat) {
    && |img| == |s.img|
    && Word(img, BTREE_HDR_FREE_POS) == Word(s.img, BTREE_HDR_FREE_POS)
    && Word(img, BTREE_HDR_FREEOFF_POS) == Word(s.img, BTREE_HDR_FREEOFF_POS)
    && Word(img, BTREE_HDR_ROOTPTR_POS) == Word(s.img, BTREE_HDR_ROOTPTR_POS)
    && (forall p | p in s.book :: Word(img, p) == Word(s.img, p))
    && (forall p | p in s.book && s.book[p].use != Block(j, k) :: Kept(s.img, img, p))
    && forall m: nat, n: nat, v: nat | HasBlock(s.lists, m, n) && v < 255 && (m, n, v) != (j, k, w) ::
         Spot(img, s.lists, m, n, v) == Spot(s.img, s.lists, m, n, v)
  }

  lemma SpotElsewhere(s: State, img: Image, j: nat, k: nat, w: nat, m: nat, n: nat, v: nat)
    requires Sound(s) && HasBlock(s.lists, j, k) && w < 255 && Elsewhere(s.img, img, Base(s.lists, j, k) + 8 * w, 8)
    requires HasBlock(s.lists, m, n) && v < 255 && (m, n, v) != (j, k, w)
    ensures Spot(img, s.lists, m, n, v) == Spot(s.img, s.lists, m, n, v)
  {
    hide Sound, Elsewhere, Word;
    if (m, n) != (j, k) { BlocksApart(s, j, k, m, n); }
    WordElsewhere(s.img, img, Base(s.lists, j, k) + 8 * w, 8, Base(s.lists, m, n) + 8 * v);
  }

  lemma SpotWrite(s: State, img: Image, j: nat, k: nat, w: nat)
    requires Sound(s) && HasBlock(s.lists, j, k) && w < 255 && Elsewhere(s.img, img, Base(s.lists, j, k) + 8 * w, 8)
    ensures OnlySpot(s, img, j, k, w)
  {
    hide Sound, Elsewhere, Spot, Kept, SizeOf, Word;
    var o := Base(s.lists, j, k) + 8 * w;
    BlockPlace(s, j, k);
    forall p | p in s.book ensures Word(img, p) == Word(s.img, p)
      && (s.book[p].use != Block(j, k) ==> Kept(s.img, img, p)) {
      ChunkApart(s, p, j, k);
      WordElsewhere(s.img, img, o, 8, p);
      if s.book[p].use != Block(j, k) { KeptElsewhere(s, img, o, 8, p); }
    }
    forall m: nat, n: nat, v: nat | HasBlock(s.lists, m, n) && v < 255 && (m, n, v) != (j, k, w)
      ensures Spot(img, s.lists, m, n, v) == Spot(s.img, s.lists, m, n, v)
    {
      SpotElsewhere(s, img, j, k, w, m, n, v);
    }
    WordElsewhere(s.img, img, o, 8, 16);
    WordElsewhere(s.img, img, o, 8, 24);
    WordElsewhere(s.img, img, o, 8, BTREE_HDR_ROOTPTR_POS);
    assert |img| == |s.img| by { ElsewhereAt(s.img, img, o, 8, 0, 0); }
  }

  // ---------------------------------------------------------------- the steps of the free lists

  ghost function Last(ls: seq<FreeList>, j: nat): nat
    requires j < |ls| && |ls[j].blocks| > 0
  {
    |ls[j].blocks| - 1
  }

  /** The item count of the last block was raised over the new item p. */
  ghost function Pushed(s: State, j: nat, p: nat, img: Image): State
    requires j < |s.lists| && |s.lists[j].blocks| > 0
  {
    s.(img := img, lists := s.lists[j := s.lists[j].(items := s.lists[j].items + 1)],
       book := s.book[p := Chunk(j, Item(j, Last(s.lists, j), s.lists[j].items))])
  }

  ghost predicate CanPush(s: State, j: nat, p: nat) {
    && j < |s.lists| && |s.lists[j].blocks| > 0 && s.lists[j].items < BTREE_FREELIST_BLOCK_ITEMS
    && Booked(s.book, p, Chunk(j, InUse)) && Slot(s.img, s.lists, j, Last(s.lists, j), s.lists[j].items) == p
  }

  lemma PushChain(s: State, j: nat, p: nat, img: Image)
    requires Sound(s) && CanPush(s, j, p) && OnlySpot(s, img, j, Last(s.lists, j), 2)
    requires Spot(img, s.lists, j, Last(s.lists, j), 2) == s.lists[j].items + 1
    ensures var t := Pushed(s, j, p, img); Chained(img, t.lists)
  {
    hide Word, Kept, Framed, Apart, Labelled, UsesListed, SlotsBooked, BlocksBooked;
    var t := Pushed(s, j, p, img);
    forall m: nat, n: nat | HasBlock(t.lists, m, n) ensures Heads(img, t.lists, m, n) {
      assert HasBlock(s.lists, m, n) && Base(t.lists, m, n) == Base(s.lists, m, n) && Heads(s.img, s.lists, m, n);
      Respot(s, t.lists, img, j, Last(s.lists, j), 2, m, n, 0);
      Respot(s, t.lists, img, j, Last(s.lists, j), 2, m, n, 1);
      Respot(s, t.lists, img, j, Last(s.lists, j), 2, m, n, 2);
    }
  }

  lemma PushSlots(s: State, j: nat, p: nat, img: Image)
    requires Sound(s) && CanPush(s, j, p) && OnlySpot(s, img, j, Last(s.lists, j), 2)
    requires Spot(img, s.lists, j, Last(s.lists, j), 2) == s.lists[j].items + 1
    ensures var t := Pushed(s, j, p, img); SlotsBooked(img, t.lists, t.book) && BlocksBooked(t.lists, t.book)
  {
    hide Word, Kept, Framed, ListsOk, Apart, Labelled, UsesListed, Chained;
    var t := Pushed(s, j, p, img);
    forall m: nat, n: nat, v: nat | HasBlock(t.lists, m, n) && v < Fill(t.lists, m, n)
      ensures Booked(t.book, Slot(img, t.lists, m, n, v), Chunk(m, Item(m, n, v)))
    {
      assert HasBlock(s.lists, m, n);
      FillBound(s.lists, m, n);
      Respot(s, t.lists, img, j, Last(s.lists, j), 2, m, n, 3 + v);
      if v < Fill(s.lists, m, n) {
        assert Booked(s.book, Slot(s.img, s.lists, m, n, v), Chunk(m, Item(m, n, v)));
      }
    }
    forall m: nat, n: nat | HasBlock(t.lists, m, n) && n > 0
      ensures Base(t.lists, m, n) >= 8 && Booked(t.book, Base(t.lists, m, n) - 8, Chunk(BLOCK_CLASS, Block(m, n)))
    {
      assert HasBlock(s.lists, m, n) && Base(t.lists, m, n) == Base(s.lists, m, n);
    }
  }

  lemma FillBound(ls: seq<FreeList>, j: nat, k: nat)
    requires ListsOk(ls) && HasBlock(ls, j, k)
    ensures Fill(ls, j, k) <= BTREE_FREELIST_BLOCK_ITEMS
  {
  }

  /** Other words read the same through lists with the same blocks. */
  lemma Respot(s: State, ls: seq<FreeList>, img: Image, j: nat, k: nat, w: nat, m: nat, n: nat, v: nat)
    requires OnlySpot(s, img, j, k, w) && HasBlock(s.lists, m, n) && HasBlock(ls, m, n)
             && ls[m].blocks[n] == s.lists[m].blocks[n] && v < 255
    ensures Spot(img, ls, m, n, v) == Spot(img, s.lists, m, n, v)
    ensures (m, n, v) != (j, k, w) ==> Spot(img, ls, m, n, v) == Spot(s.img, s.lists, m, n, v)
  {
    hide Word, Kept;
  }

  lemma PushUses(s: State, j: nat, p: nat, img: Image)
    requires Sound(s) && CanPush(s, j, p) && OnlySpot(s, img, j, Last(s.lists, j), 2)
    ensures var t := Pushed(s, j, p, img); UsesListed(img, t.lists, t.book)
  {
    hide Word, Kept, Framed, ListsOk, Apart, Labelled, Chained, SlotsBooked, BlocksBooked;
    var t := Pushed(s, j, p, img);
    forall q | q in t.book ensures Listed(img, t.lists, q, t.book[q]) {
      if q == p {
        Respot(s, t.lists, img, j, Last(s.lists, j), 2, j, Last(s.lists, j), 3 + s.lists[j].items);
      } else {
        assert Listed(s.img, s.lists, q, s.book[q]);
        match s.book[q].use
        case InUse =>
        case Item(m, n, v) => FillBound(s.lists, m, n); Respot(s, t.lists, img, j, Last(s.lists, j), 2, m, n, 3 + v);
        case Block(m, n) =>
      }
    }
  }

  /** What all four steps share: header and labels are as before. */
  lemma StepFrame(s: State, t: State, j: nat, k: nat, w: nat)
    requires Sound(s) && OnlySpot(s, t.img, j, k, w) && t.free == s.free && t.freeoff == s.freeoff
    requires t.book.Keys == s.book.Keys && forall p | p in s.book :: t.book[p].cls == s.book[p].cls
    ensures Framed(t) && Apart(t.book, t.freeoff) && Labelled(t.img, t.book)
  {
    hide Word, Kept, SizeOf, ClassOf, ListsOk, Chained, SlotsBooked, BlocksBooked, UsesListed, Spot;
    assert forall p :: p in t.book <==> p in s.book;
  }

  lemma StepSteady(s: State, t: State, j: nat, k: nat, w: nat, keep: set<nat>)
    requires OnlySpot(s, t.img, j, k, w)
    requires forall p | p in keep ::
             p in s.book && p in t.book && s.book[p] == t.book[p] && s.book[p].use != Block(j, k)
    ensures Steady(s, t, keep)
  {
    hide Word, Kept, Spot;
  }

  /** A block becomes an item of the last free list block. */
  lemma PushSound(s: State, j: nat, p: nat, img: Image)
    requires Sound(s) && CanPush(s, j, p)
    requires Elsewhere(s.img, img, Base(s.lists, j, Last(s.lists, j)) + 16, 8)
    requires Spot(img, s.lists, j, Last(s.lists, j), 2) == s.lists[j].items + 1
    ensures var t := Pushed(s, j, p, img); Sound(t) && Steady(s, t, Live(s.book) - {p})
  {
    hide Word, Elsewhere, OnlySpot, Steady, Framed, Apart, Labelled, Chained, SlotsBooked, BlocksBooked, UsesListed,
         Spot;
    var t := Pushed(s, j, p, img);
    SpotWrite(s, img, j, Last(s.lists, j), 2);
    PushChain(s, j, p, img);
    PushSlots(s, j, p, img);
    PushUses(s, j, p, img);
    StepFrame(s, t, j, Last(s.lists, j), 2);
    StepSteady(s, t, j, Last(s.lists, j), 2, Live(s.book) - {p});
  }

  /** The item count of the last block was lowered: its last item is in use again. */
  ghost function Popped(s: State, j: nat, img: Image): State
    requires j < |s.lists| && |s.lists[j].blocks| > 0 && s.lists[j].items > 0
  {
    s.(img := img, lists := s.lists[j := s.lists[j].(items := s.lists[j].items - 1)],
       book := s.book[Slot(s.img, s.lists, j, Last(s.lists, j), s.lists[j].items - 1) := Chunk(j, InUse)])
  }

  ghost predicate CanPop(s: State, j: nat) {
    j < |s.lists| && |s.lists[j].blocks| > 0 && s.lists[j].items > 0
  }

  lemma PopChain(s: State, j: nat, img: Image)
    requires Sound(s) && CanPop(s, j) && OnlySpot(s, img, j, Last(s.lists, j), 2)
    requires Spot(img, s.lists, j, Last(s.lists, j), 2) == s.lists[j].items - 1
    ensures var t := Popped(s, j, img); Chained(img, t.lists)
  {
    hide Word, Kept, Framed, Apart, Labelled, UsesListed, SlotsBooked, BlocksBooked;
    var t := Popped(s, j, img);
    var (k, i) := (Last(s.lists, j), s.lists[j].items - 1);
    forall m: nat, n: nat | HasBlock(t.lists, m, n) ensures Heads(img, t.lists, m, n) {
      assert HasBlock(s.lists, m, n) && Base(t.lists, m, n) == Base(s.lists, m, n) && Heads(s.img, s.lists, m, n);
      Respot(s, t.lists, img, j, k, 2, m, n, 0);
      Respot(s, t.lists, img, j, k, 2, m, n, 1);
      Respot(s, t.lists, img, j, k, 2, m, n, 2);
    }
  }

  lemma PopSlots(s: State, j: nat, img: Image)
    requires Sound(s) && CanPop(s, j) && OnlySpot(s, img, j, Last(s.lists, j), 2)
    requires Spot(img, s.lists, j, Last(s.lists, j), 2) == s.lists[j].items - 1
    ensures var t := Popped(s, j, img); SlotsBooked(img, t.lists, t.book) && BlocksBooked(t.lists, t.book)
  {
    hide Word, Kept, Framed, ListsOk, Apart, Labelled, UsesListed, Chained;
    var t := Popped(s, j, img);
    var (k, i) := (Last(s.lists, j), s.lists[j].items - 1);
    assert Booked(s.book, Slot(s.img, s.lists, j, k, i), Chunk(j, Item(j, k, i)));
    forall m: nat, n: nat, v: nat | HasBlock(t.lists, m, n) && v < Fill(t.lists, m, n)
      ensures Booked(t.book, Slot(img, t.lists, m, n, v), Chunk(m, Item(m, n, v)))
    {
      assert HasBlock(s.lists, m, n) && v < Fill(s.lists, m, n) && (m, n, v) != (j, k, i);
      FillBound(s.lists, m, n);
      Respot(s, t.lists, img, j, k, 2, m, n, 3 + v);
      assert Booked(s.book, Slot(s.img, s.lists, m, n, v), Chunk(m, Item(m, n, v)));
    }
    forall m: nat, n: nat | HasBlock(t.lists, m, n) && n > 0
      ensures Base(t.lists, m, n) >= 8 && Booked(t.book, Base(t.lists, m, n) - 8, Chunk(BLOCK_CLASS, Block(m, n)))
    {
      assert HasBlock(s.lists, m, n) && Base(t.lists, m, n) == Base(s.lists, m, n);
    }
  }

  lemma PopUses(s: State, j: nat, img: Image)
    requires Sound(s) && CanPop(s, j) && OnlySpot(s, img, j, Last(s.lists, j), 2)
    ensures var t := Popped(s, j, img); UsesListed(img, t.lists, t.book)
  {
    hide Word, Kept, Framed, ListsOk, Apart, Labelled, Chained, SlotsBooked, BlocksBooked;
    var t := Popped(s, j, img);
    forall q | q in t.book ensures Listed(img, t.lists, q, t.book[q]) {
      if t.book[q].use != InUse {
        assert Listed(s.img, s.lists, q, s.book[q]);
        match s.book[q].use
        case InUse =>
        case Item(m, n, v) => FillBound(s.lists, m, n); Respot(s, t.lists, img, j, Last(s.lists, j), 2, m, n, 3 + v);
        case Block(m, n) =>
      }
    }
  }

  /** The last item is in use again; it was not before. */
  lemma PopSound(s: State, j: nat, img: Image)
    requires Sound(s) && CanPop(s, j)
    requires Elsewhere(s.img, img, Base(s.lists, j, Last(s.lists, j)) + 16, 8)
    requires Spot(img, s.lists, j, Last(s.lists, j), 2) == s.lists[j].items - 1
    ensures var (t, p) := (Popped(s, j, img), Slot(s.img, s.lists, j, Last(s.lists, j), s.lists[j].items - 1));
            && Sound(t) && Steady(s, t, Live(s.book))
               && Booked(s.book, p, Chunk(j, Item(j, Last(s.lists, j), s.lists[j].items - 1)))
            && Booked(t.book, p, Chunk(j, InUse)) && Live(t.book) == Live(s.book) + {p} && p !in Live(s.book)
  {
    hide Word, Elsewhere, OnlySpot, Steady, Framed, Apart, Labelled, Chained, BlocksBooked, UsesListed, Spot;
    var (t, k, i) := (Popped(s, j, img), Last(s.lists, j), s.lists[j].items - 1);
    assert Booked(s.book, Slot(s.img, s.lists, j, k, i), Chunk(j, Item(j, k, i)));
    SpotWrite(s, img, j, k, 2);
    PopChain(s, j, img);
    PopSlots(s, j, img);
    hide SlotsBooked;
    PopUses(s, j, img);
    StepFrame(s, t, j, k, 2);
    StepSteady(s, t, j, k, 2, Live(s.book));
  }

  /** The block p, prepared as an empty free list block, was linked behind the last one. */
  ghost function Linked(s: State, j: nat, p: nat, img: Image): State
    requires j < |s.lists| && |s.lists[j].blocks| > 0
  {
    s.(img := img, lists := s.lists[j := FreeList(s.lists[j].blocks + [p + 8], 0)],
       book := s.book[p := Chunk(BLOCK_CLASS, Block(j, |s.lists[j].blocks|))])
  }

  ghost predicate CanLink(s: State, j: nat, p: nat) {
    && j < |s.lists| && |s.lists[j].blocks| > 0 && s.lists[j].items == BTREE_FREELIST_BLOCK_ITEMS
    && Booked(s.book, p, Chunk(BLOCK_CLASS, InUse))
    && Word(s.img, p + 8) == s.lists[j].blocks[|s.lists[j].blocks| - 1] && Word(s.img, p + 16) == 0
       && Word(s.img, p + 24) == 0
  }

  lemma LinkChain(s: State, j: nat, p: nat, img: Image)
    requires Sound(s) && CanLink(s, j, p) && OnlySpot(s, img, j, Last(s.lists, j), 1)
    requires Spot(img, s.lists, j, Last(s.lists, j), 1) == p + 8
    requires Word(img, p + 8) == Word(s.img, p + 8) && Word(img, p + 16) == Word(s.img, p + 16)
             && Word(img, p + 24) == Word(s.img, p + 24)
    ensures var t := Linked(s, j, p, img); Chained(img, t.lists)
  {
    hide Word, Kept, Framed, Apart, Labelled, UsesListed, SlotsBooked, BlocksBooked;
    var (t, k) := (Linked(s, j, p, img), Last(s.lists, j));
    forall m: nat, n: nat | HasBlock(t.lists, m, n) ensures Heads(img, t.lists, m, n) {
      if HasBlock(s.lists, m, n) {
        assert Base(t.lists, m, n) == Base(s.lists, m, n) && Heads(s.img, s.lists, m, n);
        Respot(s, t.lists, img, j, k, 1, m, n, 0);
        Respot(s, t.lists, img, j, k, 1, m, n, 1);
        Respot(s, t.lists, img, j, k, 1, m, n, 2);
      }
    }
  }

  lemma LinkSlots(s: State, j: nat, p: nat, img: Image)
    requires Sound(s) && CanLink(s, j, p) && OnlySpot(s, img, j, Last(s.lists, j), 1)
    requires Spot(img, s.lists, j, Last(s.lists, j), 1) == p + 8
    requires Word(img, p + 8) == Word(s.img, p + 8) && Word(img, p + 16) == Word(s.img, p + 16)
             && Word(img, p + 24) == Word(s.img, p + 24)
    ensures var t := Linked(s, j, p, img); SlotsBooked(img, t.lists, t.book) && BlocksBooked(t.lists, t.book)
  {
    hide Word, Kept, Framed, ListsOk, Apart, Labelled, UsesListed, Chained;
    var (t, k) := (Linked(s, j, p, img), Last(s.lists, j));
    forall m: nat, n: nat, v: nat | HasBlock(t.lists, m, n) && v < Fill(t.lists, m, n)
      ensures Booked(t.book, Slot(img, t.lists, m, n, v), Chunk(m, Item(m, n, v)))
    {
      assert HasBlock(s.lists, m, n) && v < Fill(s.lists, m, n);
      FillBound(s.lists, m, n);
      Respot(s, t.lists, img, j, k, 1, m, n, 3 + v);
      assert Booked(s.book, Slot(s.img, s.lists, m, n, v), Chunk(m, Item(m, n, v)));
    }
    forall m: nat, n: nat | HasBlock(t.lists, m, n) && n > 0
      ensures Base(t.lists, m, n) >= 8 && Booked(t.book, Base(t.lists, m, n) - 8, Chunk(BLOCK_CLASS, Block(m, n)))
    {
      if HasBlock(s.lists, m, n) {
        assert Base(t.lists, m, n) == Base(s.lists, m, n);
      }
    }
  }

  lemma LinkUses(s: State, j: nat, p: nat, img: Image)
    requires Sound(s) && CanLink(s, j, p) && OnlySpot(s, img, j, Last(s.lists, j), 1)
    ensures var t := Linked(s, j, p, img); UsesListed(img, t.lists, t.book) && ListsOk(t.lists)
  {
    hide Word, Kept, Framed, Apart, Labelled, Chained, SlotsBooked, BlocksBooked;
    var t := Linked(s, j, p, img);
    forall q | q in t.book ensures Listed(img, t.lists, q, t.book[q]) {
      if q != p {
        assert Listed(s.img, s.lists, q, s.book[q]);
        match s.book[q].use
        case InUse =>
        case Item(m, n, v) => FillBound(s.lists, m, n); Respot(s, t.lists, img, j, Last(s.lists, j), 1, m, n, 3 + v);
        case Block(m, n) =>
      }
    }
  }

  /** A block in use becomes the last, empty block of a list whose blocks were all full. */
  lemma LinkSound(s: State, j: nat, p: nat, img: Image)
    requires Sound(s) && CanLink(s, j, p)
    requires Elsewhere(s.img, img, Base(s.lists, j, Last(s.lists, j)) + 8, 8)
    requires Spot(img, s.lists, j, Last(s.lists, j), 1) == p + 8
    ensures var t := Linked(s, j, p, img); Sound(t) && Steady(s, t, Live(s.book) - {p})
  {
    hide Word, Elsewhere, OnlySpot, Steady, Framed, Apart, Labelled, Chained, SlotsBooked, BlocksBooked, UsesListed,
         Spot, ListsOk, SizeOf;
    var (t, k) := (Linked(s, j, p, img), Last(s.lists, j));
    SpotWrite(s, img, j, k, 1);
    ChunkApart(s, p, j, k);
    BlockClass();
    WordElsewhere(s.img, img, Base(s.lists, j, k) + 8, 8, p + 8);
    WordElsewhere(s.img, img, Base(s.lists, j, k) + 8, 8, p + 16);
    WordElsewhere(s.img, img, Base(s.lists, j, k) + 8, 8, p + 24);
    LinkChain(s, j, p, img);
    LinkSlots(s, j, p, img);
    LinkUses(s, j, p, img);
    StepFrame(s, t, j, k, 1);
    StepSteady(s, t, j, k, 1, Live(s.book) - {p});
  }

  /** The empty last block was cut off behind the one before it. */
  ghost function Unlinked(s: State, j: nat, img: Image): State
    requires CanUnlink(s, j)
  {
    s.(img := img, lists := s.lists[j := FreeList(s.lists[j].blocks[..|s.lists[j].blocks| - 1],
      BTREE_FREELIST_BLOCK_ITEMS)],
       book := s.book[s.lists[j].blocks[|s.lists[j].blocks| - 1] - 8 := Chunk(BLOCK_CLASS, InUse)])
  }

  ghost predicate CanUnlink(s: State, j: nat) {
    j < |s.lists| && |s.lists[j].blocks| > 1 && s.lists[j].items == 0 && s.lists[j].blocks[|s.lists[j].blocks| - 1] >= 8
  }

  lemma UnlinkChain(s: State, j: nat, img: Image)
    requires Sound(s) && CanUnlink(s, j) && OnlySpot(s, img, j, |s.lists[j].blocks| - 2, 1)
    requires Spot(img, s.lists, j, |s.lists[j].blocks| - 2, 1) == 0
    ensures var t := Unlinked(s, j, img); Chained(img, t.lists)
  {
    hide Word, Kept, Framed, Apart, Labelled, UsesListed, SlotsBooked, BlocksBooked;
    var (t, k) := (Unlinked(s, j, img), |s.lists[j].blocks| - 2);
    forall m: nat, n: nat | HasBlock(t.lists, m, n) ensures Heads(img, t.lists, m, n) {
      assert HasBlock(s.lists, m, n) && Base(t.lists, m, n) == Base(s.lists, m, n) && Heads(s.img, s.lists, m, n);
      Respot(s, t.lists, img, j, k, 1, m, n, 0);
      Respot(s, t.lists, img, j, k, 1, m, n, 1);
      Respot(s, t.lists, img, j, k, 1, m, n, 2);
    }
  }

  lemma UnlinkSlots(s: State, j: nat, img: Image)
    requires Sound(s) && CanUnlink(s, j) && OnlySpot(s, img, j, |s.lists[j].blocks| - 2, 1)
    requires Spot(img, s.lists, j, |s.lists[j].blocks| - 2, 1) == 0
    ensures var t := Unlinked(s, j, img); SlotsBooked(img, t.lists, t.book) && BlocksBooked(t.lists, t.book)
  {
    hide Word, Kept, Framed, ListsOk, Apart, Labelled, UsesListed, Chained;
    var (t, k) := (Unlinked(s, j, img), |s.lists[j].blocks| - 2);
    assert HasBlock(s.lists, j, k + 1)
           && Booked(s.book, Base(s.lists, j, k + 1) - 8, Chunk(BLOCK_CLASS, Block(j, k + 1)));
    forall m: nat, n: nat, v: nat | HasBlock(t.lists, m, n) && v < Fill(t.lists, m, n)
      ensures Booked(t.book, Slot(img, t.lists, m, n, v), Chunk(m, Item(m, n, v)))
    {
      assert HasBlock(s.lists, m, n) && v < Fill(s.lists, m, n);
      FillBound(s.lists, m, n);
      Respot(s, t.lists, img, j, k, 1, m, n, 3 + v);
      assert Booked(s.book, Slot(s.img, s.lists, m, n, v), Chunk(m, Item(m, n, v)));
    }
    forall m: nat, n: nat | HasBlock(t.lists, m, n) && n > 0
      ensures Base(t.lists, m, n) >= 8 && Booked(t.book, Base(t.lists, m, n) - 8, Chunk(BLOCK_CLASS, Block(m, n)))
    {
      assert HasBlock(s.lists, m, n) && Base(t.lists, m, n) == Base(s.lists, m, n) && (m, n) != (j, k + 1);
    }
  }

  lemma UnlinkUses(s: State, j: nat, img: Image)
    requires Sound(s) && CanUnlink(s, j) && OnlySpot(s, img, j, |s.lists[j].blocks| - 2, 1)
    ensures var t := Unlinked(s, j, img); UsesListed(img, t.lists, t.book) && ListsOk(t.lists)
  {
    hide Word, Kept, Framed, Apart, Labelled, Chained, SlotsBooked, BlocksBooked;
    var (t, k) := (Unlinked(s, j, img), |s.lists[j].blocks| - 2);
    forall q | q in t.book ensures Listed(img, t.lists, q, t.book[q]) {
      if t.book[q].use != InUse {
        assert Listed(s.img, s.lists, q, s.book[q]);
        match s.book[q].use
        case InUse =>
        case Item(m, n, v) => FillBound(s.lists, m, n); Respot(s, t.lists, img, j, k, 1, m, n, 3 + v);
        case Block(m, n) =>
      }
    }
  }

  /** An empty free list block is in use again. */
  lemma UnlinkSound(s: State, j: nat, img: Image)
    requires Sound(s) && CanUnlink(s, j)
    requires HasBlock(s.lists, j, |s.lists[j].blocks| - 2)
    requires Elsewhere(s.img, img, Base(s.lists, j, |s.lists[j].blocks| - 2) + 8, 8)
    requires Spot(img, s.lists, j, |s.lists[j].blocks| - 2, 1) == 0
    ensures var (t, p) := (Unlinked(s, j, img), s.lists[j].blocks[|s.lists[j].blocks| - 1] - 8);
            && Sound(t) && Steady(s, t, Live(s.book)) && p in s.book && s.book[p].cls == BLOCK_CLASS
            && Booked(t.book, p, Chunk(BLOCK_CLASS, InUse)) && Live(t.book) == Live(s.book) + {p} && p !in Live(s.book)
  {
    hide Word, Elsewhere, OnlySpot, Steady, Framed, Apart, Labelled, Chained, SlotsBooked, UsesListed, Spot, ListsOk;
    var (t, k) := (Unlinked(s, j, img), |s.lists[j].blocks| - 2);
    assert HasBlock(s.lists, j, k + 1)
           && Booked(s.book, Base(s.lists, j, k + 1) - 8, Chunk(BLOCK_CLASS, Block(j, k + 1)));
    hide BlocksBooked;
    SpotWrite(s, img, j, k, 1);
    UnlinkChain(s, j, img);
    UnlinkSlots(s, j, img);
    UnlinkUses(s, j, img);
    StepFrame(s, t, j, k, 1);
    StepSteady(s, t, j, k, 1, Live(s.book));
  }

  // ---------------------------------------------------------------- carving new blocks

  lemma HeaderSpots(s: State, img: Image, o: nat)
    requires Sound(s) && Elsewhere(s.img, img, o, 8) && o + 8 <= 32
    ensures SameSpots(s, img)
  {
    hide Sound, Elsewhere, Word;
    forall j: nat, k: nat, w: nat | HasBlock(s.lists, j, k) && w < 3 + Fill(s.lists, j, k)
      ensures Spot(img, s.lists, j, k, w) == Spot(s.img, s.lists, j, k, w)
    {
      BlockPlace(s, j, k);
      WordElsewhere(s.img, img, o, 8, Base(s.lists, j, k) + 8 * w);
    }
  }

  lemma HeaderSteady(s: State, img: Image, o: nat)
    requires Sound(s) && Elsewhere(s.img, img, o, 8) && o + 8 <= 32
    ensures Labelled(img, s.book) && |img| == |s.img|
    ensures forall p | p in s.book :: Kept(s.img, img, p)
    ensures Word(img, BTREE_HDR_ROOTPTR_POS) == Word(s.img, BTREE_HDR_ROOTPTR_POS)
  {
    hide Elsewhere, Word, SizeOf, ClassOf, Kept, ListsOk, Chained, SlotsBooked, BlocksBooked, UsesListed;
    forall p | p in s.book ensures Word(img, p) == Word(s.img, p) && Kept(s.img, img, p) {
      WordElsewhere(s.img, img, o, 8, p);
      KeptElsewhere(s, img, o, 8, p);
    }
    WordElsewhere(s.img, img, o, 8, BTREE_HDR_ROOTPTR_POS);
    assert |img| == |s.img| by { ElsewhereAt(s.img, img, o, 8, 0, 0); }
  }

  /** The amount of free space changes. */
  lemma FreeSound(s: State, f: nat, img: Image)
    requires Sound(s) && Elsewhere(s.img, img, BTREE_HDR_FREE_POS, 8) && Word(img, BTREE_HDR_FREE_POS) == f
             && s.freeoff + f <= |s.img|
    ensures var t := s.(img := img, free := f); Sound(t) && Steady(s, t, s.book.Keys)
  {
    hide Elsewhere, Word, Kept, SameSpots, ListsOk, Apart, Labelled, Chained, SlotsBooked, BlocksBooked, UsesListed;
    HeaderSpots(s, img, BTREE_HDR_FREE_POS);
    HeaderSteady(s, img, BTREE_HDR_FREE_POS);
    SameSpotsSound(s, img);
    WordElsewhere(s.img, img, BTREE_HDR_FREE_POS, 8, BTREE_HDR_FREEOFF_POS);
  }

  /** The start of the free space moves up. */
  lemma CarveSound(s: State, off: nat, img: Image)
    requires Sound(s) && Elsewhere(s.img, img, BTREE_HDR_FREEOFF_POS, 8) && Word(img, BTREE_HDR_FREEOFF_POS) == off
    requires s.freeoff <= off && off + s.free <= |s.img|
    ensures var t := s.(img := img, freeoff := off); Sound(t) && Steady(s, t, s.book.Keys)
  {
    hide Elsewhere, Word, Kept, SameSpots, ListsOk, Labelled, Chained, SlotsBooked, BlocksBooked, UsesListed, SizeOf;
    HeaderSpots(s, img, BTREE_HDR_FREEOFF_POS);
    HeaderSteady(s, img, BTREE_HDR_FREEOFF_POS);
    SameSpotsSound(s, img);
    WordElsewhere(s.img, img, BTREE_HDR_FREEOFF_POS, 8, BTREE_HDR_FREE_POS);
  }

  /** A block between the last one and the free space. */
  ghost predicate Vacant(s: State, p: nat, c: nat) {
    HEAP_POS <= p && p + SizeOf(c) <= s.freeoff && forall q | q in s.book :: q + SizeOf(s.book[q].cls) <= p
  }

  lemma VacantUnread(s: State, p: nat, c: nat)
    requires Sound(s) && Vacant(s, p, c)
    ensures Unread(s, p, 8)
  {
    hide Framed, Labelled, Chained, SlotsBooked, UsesListed, BlocksBooked, ListsOk, SizeOf;
    assert forall q | q in s.book :: q + 8 <= p;
    forall j: nat, k: nat | HasBlock(s.lists, j, k)
      ensures p + 8 <= Base(s.lists, j, k) || Base(s.lists, j, k) + 24 + 8 * Fill(s.lists, j, k) <= p
    {
      BlockPlace(s, j, k);
      BlockClass();
      FillBound(s.lists, j, k);
    }
  }

  /** The label of a new block puts it in the book. */
  lemma AddSound(s: State, p: nat, size: nat, img: Image)
    requires Sound(s) && Vacant(s, p, ClassOf(size)) && Elsewhere(s.img, img, p, 8)
    requires Word(img, p) == size && size + 8 <= BTREE_PREALLOC_SIZE
    ensures var t := s.(img := img, book := s.book[p := Chunk(ClassOf(size), InUse)]);
            Sound(t) && Steady(s, t, s.book.Keys) && p !in s.book
  {
    hide Elsewhere, Word, Kept, Framed, ListsOk, Apart, Labelled, Chained, SlotsBooked, BlocksBooked, UsesListed,
         SizeOf, ClassOf, Unread;
    VacantUnread(s, p, ClassOf(size));
    UnreadSound(s, img, p, 8);
    forall q | q in s.book ensures Kept(s.img, img, q) { KeptElsewhere(s, img, p, 8, q); }
    WordElsewhere(s.img, img, p, 8, BTREE_HDR_ROOTPTR_POS);
    AddBook(s.(img := img), p, ClassOf(size));
    assert forall q | q in s.book :: q + 16 <= p;
  }

  lemma BookFramed(s: State, book: Book)
    requires Framed(s)
    ensures Framed(s.(book := book))
  {
    hide Word;
  }

  lemma AddBook(s: State, p: nat, c: nat)
    requires Sound(s) && Vacant(s, p, c) && Word(s.img, p) + 8 <= BTREE_PREALLOC_SIZE && ClassOf(Word(s.img, p)) == c
    ensures Sound(s.(book := s.book[p := Chunk(c, InUse)]))
  {
    hide Word, Framed, ListsOk, Chained, SizeOf, ClassOf, Spot;
    BookFramed(s, s.book[p := Chunk(c, InUse)]);
    var book := s.book[p := Chunk(c, InUse)];
    assert forall q | q in s.book :: q + 16 <= p;
    assert Apart(book, s.freeoff) && Labelled(s.img, book) by { hide SlotsBooked, BlocksBooked, UsesListed; }
    hide Apart, Labelled;
    forall q, d | Booked(s.book, q, d) ensures Booked(book, q, d) {
    }
    hide Booked, Vacant;
    assert SlotsBooked(s.img, s.lists, book) by { hide BlocksBooked, UsesListed; }
    assert BlocksBooked(s.lists, book) by { hide SlotsBooked, UsesListed; }
    hide SlotsBooked, BlocksBooked;
    forall q | q in book ensures Listed(s.img, s.lists, q, book[q]) {
      if q != p { assert Listed(s.img, s.lists, q, s.book[q]); }
    }
  }

  /** A block in use gets a new label of its class. */
  lemma RelabelSound(s: State, p: nat, size: nat, img: Image)
    requires Sound(s) && Booked(s.book, p, Chunk(ClassOf(size), InUse)) && Elsewhere(s.img, img, p, 8)
    requires Word(img, p) == size && size + 8 <= BTREE_PREALLOC_SIZE
    ensures var t := s.(img := img); Sound(t) && Steady(s, t, s.book.Keys - {p})
  {
    hide Elsewhere, Word, Kept, SameSpots, ListsOk, Apart, Chained, SlotsBooked, BlocksBooked, UsesListed, SizeOf,
         ClassOf;
    LabelSpots(s, p, img);
    SameSpotsSound(s, img);
    ChunksApart(s, p, p);
    assert |img| == |s.img| by { ElsewhereAt(s.img, img, p, 8, 0, 0); }
    WordElsewhere(s.img, img, p, 8, 16);
    WordElsewhere(s.img, img, p, 8, 24);
    WordElsewhere(s.img, img, p, 8, BTREE_HDR_ROOTPTR_POS);
    forall q | q in s.book && q != p ensures Kept(s.img, img, q) && Word(img, q) == Word(s.img, q) {
      ChunksApart(s, p, q);
      KeptElsewhere(s, img, p, 8, q);
      KeptLabel(s.img, img, q);
    }
  }

  lemma SoundLists(s: State)
    requires Sound(s)
    ensures ListsOk(s.lists)
  {
  }

  lemma LabelSpots(s: State, p: nat, img: Image)
    requires Sound(s) && p in s.book && s.book[p].use == InUse && Elsewhere(s.img, img, p, 8)
    ensures SameSpots(s, img)
  {
    hide Sound, Elsewhere, Word, SizeOf;
    forall j: nat, k: nat, w: nat | HasBlock(s.lists, j, k) && w < 3 + Fill(s.lists, j, k)
      ensures Spot(img, s.lists, j, k, w) == Spot(s.img, s.lists, j, k, w)
    {
      ChunkApart(s, p, j, k);
      SoundLists(s);
      FillBound(s.lists, j, k);
      WordElsewhere(s.img, img, p, 8, Base(s.lists, j, k) + 8 * w);
    }
  }

  /** The file grows, or loses bytes behind the free space. */
  lemma ResizeSound(s: State, img: Image)
    requires Sound(s) && s.freeoff + s.free <= |img| < POW63 && img[..s.freeoff + s.free] == s.img[..s.freeoff + s.free]
    ensures var t := s.(img := img); Sound(t) && Steady(s, t, s.book.Keys)
  {
    hide Word, Kept, SameSpots, ListsOk, Apart, Labelled, Chained, SlotsBooked, BlocksBooked, UsesListed, SizeOf,
         ClassOf;
    var m := s.freeoff + s.free;
    forall a: nat | a + 8 <= m ensures Word(img, a) == Word(s.img, a) {
      assert img[0..m] == img[..m] == s.img[0..m];
      WordPart(s.img, img, 0, m, a);
    }
    forall p | p in s.book ensures Kept(s.img, img, p) && Word(img, p) == Word(s.img, p) {
      ResizedKept(s, img, p);
    }
    ResizedSpots(s, img);
    SameSpotsSound(s, img);
    SameLabels(s, img);
  }

  lemma SameLabels(s: State, img: Image)
    requires Labelled(s.img, s.book) && forall p | p in s.book :: Word(img, p) == Word(s.img, p)
    ensures Labelled(img, s.book)
  {
    hide Word, ClassOf;
  }

  lemma ResizedKept(s: State, img: Image, p: nat)
    requires Sound(s) && p in s.book
    requires s.freeoff + s.free <= |img| && img[..s.freeoff + s.free] == s.img[..s.freeoff + s.free]
    ensures Kept(s.img, img, p) && Word(img, p) == Word(s.img, p)
  {
    hide Word, ListsOk, Chained, SlotsBooked, BlocksBooked, UsesListed, SizeOf;
    var m := p + 8 + Word(s.img, p);
    assert m <= p + SizeOf(s.book[p].cls) <= s.freeoff;
    assert img[0..s.freeoff + s.free] == img[..s.freeoff + s.free] == s.img[0..s.freeoff + s.free];
    SlicePart(s.img, img, 0, s.freeoff + s.free, p, m);
    KeptLabel(s.img, img, p);
  }

  lemma ResizedSpots(s: State, img: Image)
    requires Sound(s) && forall a: nat | a + 8 <= s.freeoff + s.free :: Word(img, a) == Word(s.img, a)
    ensures SameSpots(s, img)
  {
    hide Word, Apart, Labelled, Chained, SlotsBooked, BlocksBooked, UsesListed;
    forall j: nat, k: nat, w: nat | HasBlock(s.lists, j, k) && w < 3 + Fill(s.lists, j, k)
      ensures Spot(img, s.lists, j, k, w) == Spot(s.img, s.lists, j, k, w)
    {
      BlockPlace(s, j, k);
      FillBound(s.lists, j, k);
    }
  }

  // ---------------------------------------------------------------- several steps

  /** From one state to another through states that are all sound and leave these blocks alone;
      the trail records the file after each write. */
  ghost predicate Leads(s: State, a: seq<State>, t: State, b: seq<State>, keep: set<nat>) {
    && Sound(t) && Steady(s, t, keep)
    && |a| <= |b| && b[..|a|] == a
    && forall k | |a| <= k < |b| :: Sound(b[k]) && Steady(s, b[k], keep)
  }

  lemma LeadsSelf(s: State, a: seq<State>, keep: set<nat>)
    requires Sound(s) && keep <= s.book.Keys
    ensures Leads(s, a, s, a, keep)
  {
    hide Sound, Steady;
    SteadySelf(s, keep);
  }

  lemma LeadsOne(s: State, a: seq<State>, t: State, keep: set<nat>)
    requires Sound(t) && Steady(s, t, keep)
    ensures Leads(s, a, t, a + [t], keep)
  {
    hide Sound, Steady;
  }

  lemma LeadsTwice(s: State, a: seq<State>, t: State, b: seq<State>, u: State, c: seq<State>, keep: set<nat>,
                   more: set<nat>)
    requires Leads(s, a, t, b, keep) && Leads(t, b, u, c, more) && keep <= more
    ensures Leads(s, a, u, c, keep)
  {
    hide Sound, Steady;
    SteadyTwice(s, t, u, keep, more);
    assert c[..|a|] == c[..|b|][..|a|];
    forall k | |a| <= k < |c| ensures Sound(c[k]) && Steady(s, c[k], keep) {
      if k < |b| {
        assert c[k] == c[..|b|][k];
      } else {
        SteadyTwice(s, t, c[k], keep, more);
      }
    }
  }

  lemma LeadsLess(s: State, a: seq<State>, t: State, b: seq<State>, keep: set<nat>, fewer: set<nat>)
    requires Leads(s, a, t, b, keep) && fewer <= keep
    ensures Leads(s, a, t, b, fewer)
  {
    hide Sound, Kept, Word;
  }
}
