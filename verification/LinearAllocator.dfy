/** linear-allocator/allocator.c: a first-fit heap whose headers lie between the
    payloads in one byte array. */
module LinearAllocator {
  import opened Options
  import opened Bytes
  import opened LinearHeap

  /** Size that write_header finally records at off: a free block swallows free
      successors one by one. None when the walk reads a header beyond the arena. */
  function Extent(m: seq<byte>, off: nat, busy: bool, size: nat): (r: Option<nat>)
    ensures r.Some? ==> size <= r.value && off + r.value + 2 * H <= |m|
    decreases |m| - off - size
  {
    var next := off + size + H;
    if next + H > |m| then None
    else if !busy && !HeaderAt(m, next).busy then Extent(m, off, busy, size + HeaderAt(m, next).size + H)
    else Some(size)
  }

  lemma ExtentStops(m: seq<byte>, off: nat, busy: bool, size: nat)
    requires off + size + 2 * H <= |m| && (busy || HeaderAt(m, off + size + H).busy)
    ensures Extent(m, off, busy, size) == Some(size)
  {
  }

  /** In a coalesced heap write_header's recursion goes at most one step deep: a
      free block written up to block k swallows k if that is free, and then stops. */
  lemma ExtentInHeap(m: seq<byte>, bs: seq<Block>, k: nat, off: nat, size: nat)
    requires HeapOf(m) == Some(bs) && k < |bs| && off + H + size == bs[k].off
    ensures Extent(m, off, false, size) == Some(if bs[k].busy then size else size + H + bs[k].size)
  {
    hide HeapOf, HeaderAt, LiveIn;
    Readable(m, bs, k);
    if !bs[k].busy {
      Readable(m, bs, k + 1);
      ExtentStops(m, off, false, size + H + bs[k].size);
    }
  }

  /** The block list that alc_init writes. */
  function Initial(amount: nat): seq<Block>
    requires 3 * H <= amount
  {
    var free := FloorFour(amount - 3 * H);
    [Block(0, 0, true), Block(H, free, false), Block(free + 2 * H, amount - free - 3 * H, true)]
  }

  lemma InitialEncodes(m: seq<byte>)
    requires 3 * H <= |m|
    requires HeaderAt(m, 0) == Header(true, 0, 0)
    requires HeaderAt(m, H) == Header(false, FloorFour(|m| - 3 * H), 0)
    requires var last := Initial(|m|)[2];
      HeaderAt(m, last.off).busy && HeaderAt(m, last.off).size == last.size
    ensures HeapOf(m) == Some(Initial(|m|))
  {
    Parsed(m, Initial(|m|));
  }

  /** Block k is the first free one with room for size bytes. */
  ghost predicate Leftmost(bs: seq<Block>, k: nat, size: nat)
  {
    && k < |bs| && !bs[k].busy && bs[k].size >= size
    && forall j :: 0 <= j < k ==> bs[j].busy || bs[j].size < size
  }

  /** The busy block that mem_alloc makes of a free block. */
  function Carved(b: Block, size: nat): Block
  {
    var need := CeilFour(size);
    Block(b.off, if b.size >= need + H then need else b.size, true)
  }

  /** A block with room for size bytes, not more than three bytes and a header too large:
      the request rounded up to a multiple of four, or all of the room there is when
      the rest could hold no more than a header. */
  predicate Snug(b: Block, room: nat, size: nat)
  {
    && b.busy && size <= b.size <= room && b.size % 4 == 0
    && (b.size < size + 4 || (b.size == room && room < size + 4 + H))
  }

  /** Block b is what mem_alloc makes of the first free block with room. */
  ghost predicate FirstFit(bs: seq<Block>, b: Block, size: nat)
  {
    exists k: nat :: Leftmost(bs, k, size) && b == Carved(bs[k], size) && Snug(b, bs[k].size, size)
  }

  lemma CarvedSnug(m: seq<byte>, bs: seq<Block>, k: nat, size: nat)
    requires HeapOf(m) == Some(bs) && Leftmost(bs, k, size)
    ensures Snug(Carved(bs[k], size), bs[k].size, size) && Carved(bs[k], size).off == bs[k].off
  {
    hide HeapOf;
    Readable(m, bs, k);
    HeapLength(m, bs);
    Readable(m, bs, |bs| - 1);
  }

  /** The size that mem_realloc asks for: ceil_4 of an int. The last three sizes of a
      size_t are the ints -3, -2 and -1, which come out as 0. */
  function RetSize(size: nat): (r: nat)
    requires size < WORD_LIMIT
    ensures r == if size < 0xFFFF_FFFD then CeilFour(size) else 0
  {
    CeilFour(size) % WORD_LIMIT
  }

  /** Where mem_realloc finds the room. */
  datatype Strategy = Shrink | Right | Left | Both | Elsewhere

  function Choose(prev: Block, h: Block, next: Block, size: nat): Strategy
    requires size < WORD_LIMIT
  {
    var need := RetSize(size);
    if size < h.size then Shrink
    else if !next.busy && next.size + h.size + H >= need then Right
    else if !prev.busy && prev.size + h.size + H >= need then Left
    else if !prev.busy && !next.busy && prev.size + h.size + next.size + 2 * H >= need then Both
    else Elsewhere
  }

  /** What mem_realloc makes of block h between its neighbours, when it does not move it
      elsewhere. */
  function Resized(prev: Block, h: Block, next: Block, size: nat): Block
    requires size < WORD_LIMIT
  {
    var need := RetSize(size);
    match Choose(prev, h, next, size)
    case Shrink => if h.size > need + H then Block(h.off, need, true) else h
    case Right =>
      var room := h.size + H + next.size;
      Block(h.off, if room > need + H then need else room, true)
    case Left =>
      var room := prev.size + H + h.size;
      if room > need + H then Block(prev.off + room - need, need, true) else Block(prev.off, room, true)
    case Both => Block(prev.off, need, true)
    case Elsewhere => h
  }

  /** Neither the block itself nor its neighbours have room. */
  predicate NoRoomAround(prev: Block, h: Block, next: Block, size: nat)
  {
    && h.size <= size
    && (next.busy || h.size + H + next.size < size)
    && (prev.busy || prev.size + H + h.size < size)
    && (prev.busy || next.busy || prev.size + H + h.size + H + next.size < size)
  }

  /** Block r for block h: it starts where h did if h or the free block behind it has
      room, else it ends where h did if the free block before it has, else it starts
      with that one and goes on behind h; and it is snug. */
  predicate WellPlaced(prev: Block, h: Block, next: Block, r: Block, size: nat)
  {
    if size < h.size then r.off == h.off && Snug(r, h.size, size)
    else if !next.busy && h.size + H + next.size >= size then
      r.off == h.off && Snug(r, h.size + H + next.size, size)
    else if !prev.busy && prev.size + H + h.size >= size then
      r.Next() == h.Next() && Snug(r, prev.size + H + h.size, size)
    else !prev.busy && !next.busy && r.off == prev.off && Snug(r, prev.size + h.size + next.size + 2 * H, size)
  }

  /** When mem_realloc leaves a heap behind. The size must not come out as 0 when a
      neighbour is free, which would shrink the block to nothing. Sliding left must leave a remainder
      for the previous block, or that block must follow one of size zero; taking
      both neighbours must leave a remainder or fit to the byte. One more case
      works by luck: a remainder of exactly one header, where old bytes happen to
      read as a free header of size zero and only the end sentinel follows. */
  ghost predicate Sound(m: seq<byte>, bs: seq<Block>, i: nat, size: nat)
    requires HeapOf(m) == Some(bs) && 0 < i < |bs| - 1 && bs[i].busy && size < WORD_LIMIT
  {
    var prev, h, next := bs[i - 1], bs[i], bs[i + 1];
    var need := CeilFour(size);
    match Choose(prev, h, next, size)
    case Right => size < 0xFFFF_FFFD
    case Left =>
      Readable(m, bs, i - 1);
      size < 0xFFFF_FFFD && (prev.size + h.size > need || bs[i - 2].size == 0)
    case Both =>
      Readable(m, bs, i - 1);
      Readable(m, bs, i + 1);
      Readable(m, bs, i + 2);
      var rest := prev.size + h.size + next.size + H - need;
      || rest > 0
      || rest == -H
      || (rest == 0 && i + 2 == |bs| - 1
          && !HeaderAt(m, next.Next() - H).busy && HeaderAt(m, next.Next() - H).size == 0)
    case _ => true
  }

  lemma LeftChosen(m: seq<byte>, bs: seq<Block>, i: nat, size: nat)
    requires HeapOf(m) == Some(bs) && 0 < i < |bs| - 1 && bs[i].busy && size < WORD_LIMIT
    requires Choose(bs[i - 1], bs[i], bs[i + 1], size) == Left
    ensures 1 < i && !bs[i - 1].busy && bs[i].size <= size
    ensures RetSize(size) % 4 == 0 && RetSize(size) <= bs[i - 1].size + bs[i].size + H
    ensures if size < 0xFFFF_FFFD then size <= RetSize(size) == CeilFour(size) else RetSize(size) == 0
    ensures Sound(m, bs, i, size) <==>
      size < 0xFFFF_FFFD && (bs[i - 1].size + bs[i].size > RetSize(size) || bs[i - 2].size == 0)
    ensures var room, need := bs[i - 1].size + H + bs[i].size, RetSize(size);
      Resized(bs[i - 1], bs[i], bs[i + 1], size) ==
        if room > need + H then Block(bs[i - 1].off + room - need, need, true) else Block(bs[i - 1].off, room, true)
  {
    hide HeapOf;
    Readable(m, bs, 0);
  }

  lemma RoomFor(room: nat, size: nat)
    requires room % 4 == 0
    ensures room >= CeilFour(size) <==> room >= size
  {
  }

  lemma TrimmedSnug(off: nat, room: nat, size: nat)
    requires room % 4 == 0
    ensures room >= size ==> Snug(Block(off, CeilFour(size), true), room, size)
    ensures room >= size && room <= CeilFour(size) + H ==> Snug(Block(off, room, true), room, size)
  {
  }

  /** Block h next to its neighbours, all of them aligned. */
  predicate Adjacent(prev: Block, h: Block, next: Block)
  {
    && h.busy && h.size % 4 == 0 && (!prev.busy ==> prev.size % 4 == 0) && (!next.busy ==> next.size % 4 == 0)
    && prev.Next() == h.off && h.Next() == next.off
  }

  lemma AdjacentRooms(prev: Block, h: Block, next: Block)
    requires Adjacent(prev, h, next)
    ensures h.size % 4 == 0 && prev.off + prev.size + H == h.off && h.busy
    ensures !next.busy ==> (h.size + H + next.size) % 4 == 0
    ensures !prev.busy ==> (prev.size + H + h.size) % 4 == 0
    ensures !prev.busy && !next.busy ==> (prev.size + h.size + next.size + 2 * H) % 4 == 0
  {
    if !next.busy { FourSum(h.size, next.size); }
    if !prev.busy { FourSum(prev.size, h.size); }
    if !prev.busy && !next.busy { FourSum(prev.size + H + h.size, next.size); }
  }

  lemma FourSum(a: nat, b: nat)
    requires a % 4 == 0 && b % 4 == 0
    ensures (a + H + b) % 4 == 0
  {
    var x, y := a / 4, b / 4;
    assert a == 4 * x && b == 4 * y;
    Fours(a + H + b, x + 3 + y);
  }

  lemma Fours(n: int, q: int)
    requires n == 4 * q
    ensures n % 4 == 0
  {
  }

  lemma SlidSnug(prev: Block, h: Block, size: nat)
    requires prev.off + prev.size + H == h.off && (prev.size + H + h.size) % 4 == 0 && prev.size + H + h.size >= size
    ensures var room, need := prev.size + H + h.size, CeilFour(size);
      if room > need + H
      then Snug(Block(prev.off + room - need, need, true), room, size)
        && Block(prev.off + room - need, need, true).Next() == h.Next()
      else Snug(Block(prev.off, room, true), room, size)
  {
    hide CeilFour, Snug;
    var room, need := prev.size + H + h.size, CeilFour(size);
    TrimmedSnug(prev.off, room, size);
    if room > need + H { TrimmedSnug(prev.off + room - need, room, size); }
  }

  lemma NeighboursOf(m: seq<byte>, bs: seq<Block>, i: nat)
    requires HeapOf(m) == Some(bs) && 0 < i < |bs| - 1 && bs[i].busy
    ensures Adjacent(bs[i - 1], bs[i], bs[i + 1])
  {
    hide HeapOf;
    Readable(m, bs, i - 1);
    Readable(m, bs, i);
    Readable(m, bs, i + 1);
  }

  lemma ChoiceIs(prev: Block, h: Block, next: Block, size: nat)
    requires Adjacent(prev, h, next) && size < 0xFFFF_FFFD
    ensures Choose(prev, h, next, size) == Elsewhere <==> NoRoomAround(prev, h, next, size)
    ensures Choose(prev, h, next, size) == Shrink <==> size < h.size
    ensures Choose(prev, h, next, size) == Right <==> size >= h.size && !next.busy && h.size + H + next.size >= size
    ensures Choose(prev, h, next, size) == Left <==>
      && size >= h.size && (next.busy || h.size + H + next.size < size)
      && !prev.busy && prev.size + H + h.size >= size
    ensures Choose(prev, h, next, size) == Both ==>
      size >= h.size && !prev.busy && !next.busy && prev.size + h.size + next.size + 2 * H >= size
  {
    hide CeilFour, RetSize, Adjacent;
    AdjacentRooms(prev, h, next);
    if !next.busy { RoomFor(h.size + H + next.size, size); }
    if !prev.busy { RoomFor(prev.size + H + h.size, size); }
    if !prev.busy && !next.busy { RoomFor(prev.size + h.size + next.size + 2 * H, size); }
  }

  /** mem_realloc goes elsewhere exactly when there is no room around the block, and
      otherwise puts it where it belongs, no larger than it has to be. */
  lemma ResizedFits(prev: Block, h: Block, next: Block, size: nat)
    requires Adjacent(prev, h, next) && size < 0xFFFF_FFFD
    ensures Choose(prev, h, next, size) == Elsewhere <==> NoRoomAround(prev, h, next, size)
    ensures Choose(prev, h, next, size) != Elsewhere ==> WellPlaced(prev, h, next, Resized(prev, h, next, size), size)
  {
    hide CeilFour, Snug, Choose, RetSize, Adjacent;
    ChoiceIs(prev, h, next, size);
    AdjacentRooms(prev, h, next);
    match Choose(prev, h, next, size)
    case Shrink => TrimmedSnug(h.off, h.size, size);
    case Right => TrimmedSnug(h.off, h.size + H + next.size, size);
    case Left => SlidSnug(prev, h, size);
    case Both => TrimmedSnug(prev.off, prev.size + h.size + next.size + 2 * H, size);
    case Elsewhere =>
  }

  /** What mem_realloc reads from the headers when it slides to the left. */
  lemma LeftHeaders(m: seq<byte>, bs: seq<Block>, i: nat, need: nat)
    requires HeapOf(m) == Some(bs) && 1 < i < |bs| - 1 && bs[i].busy && !bs[i - 1].busy && need % 4 == 0
    ensures bs[i].Addr() <= |m| && bs[i].Next() <= |m| && bs[i].Next() == bs[i + 1].off
    ensures HeaderAt(m, bs[i].off).size == bs[i].size && HeaderAt(m, bs[i].off).prevSize == bs[i - 1].size
    ensures bs[i - 1].Next() == bs[i].off && HeaderAt(m, bs[i - 1].off).size == bs[i - 1].size
    ensures (bs[i - 1].size + bs[i].size - need) % 4 == 0
  {
    hide HeapOf, HeaderAt, Live, LiveIn;
    Readable(m, bs, i);
    Readable(m, bs, i - 1);
    FourLess(bs[i - 1].size, bs[i].size, need);
  }

  lemma FourLess(a: nat, b: nat, c: nat)
    requires a % 4 == 0 && b % 4 == 0 && c % 4 == 0
    ensures (a + b - c) % 4 == 0
  {
    var x, y, z := a / 4, b / 4, c / 4;
    assert a == 4 * x && b == 4 * y && c == 4 * z;
    Fours(a + b - c, x + y - z);
  }

  lemma BothChosen(m: seq<byte>, bs: seq<Block>, i: nat, size: nat)
    requires HeapOf(m) == Some(bs) && 0 < i < |bs| - 1 && bs[i].busy && size < WORD_LIMIT
    requires Choose(bs[i - 1], bs[i], bs[i + 1], size) == Both
    ensures 1 < i < |bs| - 2 && !bs[i - 1].busy && !bs[i + 1].busy && bs[i].size <= size
    ensures size <= RetSize(size) == CeilFour(size) && RetSize(size) % 4 == 0
    ensures bs[i - 1].size + bs[i].size + H < RetSize(size) <= bs[i - 1].size + bs[i].size + bs[i + 1].size + 2 * H
    ensures Resized(bs[i - 1], bs[i], bs[i + 1], size) == Block(bs[i - 1].off, RetSize(size), true)
  {
    hide HeapOf;
    Readable(m, bs, 0);
    Readable(m, bs, i + 1);
  }

  /** m' is memory m after block i became nb: the heap is whole, its live blocks
      are the old ones with i replaced, nb has room for size bytes and starts with
      the old contents, and no other payload changed. */
  ghost predicate Reallocated(m: seq<byte>, m': seq<byte>, bs: seq<Block>, bs': seq<Block>, i: nat, nb: Block,
                              size: nat)
    requires i < |bs|
  {
    && HeapOf(m') == Some(bs')
    && nb.busy && nb.size >= size
    && Live(bs') == (Live(bs) - {bs[i]}) + {nb}
    && Intact(m, m', Live(bs) - {bs[i]})
    && Keeps(m, m', bs[i], nb, size)
  }

  /** The first min(old size, new size) bytes are still there. */
  ghost predicate Keeps(m: seq<byte>, m': seq<byte>, b: Block, nb: Block, size: nat)
  {
    var k := if b.size < size then b.size else size;
    b.Next() <= |m| && nb.Addr() + k <= |m'| && m'[nb.Addr()..nb.Addr() + k] == m[b.Addr()..b.Addr() + k]
  }

  lemma Inner(m: seq<byte>, a: nat, n: nat, d: nat, k: nat)
    requires a + n <= |m| && d + k <= n
    ensures m[a..a + n][d..d + k] == m[a + d..a + d + k]
  {
    var whole := m[a..a + n];
    var inner, direct := whole[d..d + k], m[a + d..a + d + k];
    forall j | 0 <= j < k ensures inner[j] == direct[j] { assert inner[j] == whole[d + j]; }
    assert inner == direct;
  }

  lemma KeepsInPlace(m: seq<byte>, m': seq<byte>, b: Block, nb: Block, size: nat)
    requires |m'| == |m| && b.Next() <= |m| && nb.Next() <= |m|
    requires nb.off == b.off && size <= nb.size && Payload(m', nb) == Payload(m, nb)
    ensures Keeps(m, m', b, nb, size)
  {
    var k := if b.size < size then b.size else size;
    Inner(m', nb.Addr(), nb.size, 0, k);
    Inner(m, nb.Addr(), nb.size, 0, k);
  }

  /** m2 after n bytes were moved from src to dst; what lies beyond the end of
      memory is unknown. */
  ghost predicate MovedFrom(m1: seq<byte>, m2: seq<byte>, dst: nat, src: nat, n: nat)
  {
    && |m2| == |m1| && dst + n <= |m1| && src <= |m1|
    && var c := if src + n <= |m1| then n else |m1| - src;
       m2[dst..dst + c] == m1[src..src + c]
  }

  lemma Moved(m: seq<byte>, m': seq<byte>, dst: nat, src: nat, c: nat)
    requires |m'| == |m| && dst + c <= |m| && src + c <= |m|
    requires forall k :: dst <= k < dst + c ==> m'[k] == m[src + (k - dst)]
    ensures m'[dst..dst + c] == m[src..src + c]
  {
    var moved, was := m'[dst..dst + c], m[src..src + c];
    forall j | 0 <= j < c ensures moved[j] == was[j] { assert m'[dst + j] == m[src + ((dst + j) - dst)]; }
  }

  lemma KeepsMoved(m: seq<byte>, m1: seq<byte>, m2: seq<byte>, b: Block, nb: Block, size: nat)
    requires |m2| == |m1| == |m| && b.Next() <= |m| && b.size <= size <= nb.size && nb.Next() <= |m|
    requires Payload(m1, b) == Payload(m, b)
    requires MovedFrom(m1, m2, nb.Addr(), b.Addr(), size)
    ensures Keeps(m, m2, b, nb, size)
  {
    var c := if b.Addr() + size <= |m1| then size else |m1| - b.Addr();
    Inner(m2, nb.Addr(), c, 0, b.size);
    Inner(m1, b.Addr(), c, 0, b.size);
  }

  /** The end of every strategy that moves to the left: with nb in place around
      the old payload, memmove completes the reallocation. */
  lemma Slid(m: seq<byte>, m2: seq<byte>, m3: seq<byte>, bs: seq<Block>, bs': seq<Block>, i: nat, nb: Block, size: nat)
    requires HeapOf(m) == Some(bs) && HeapOf(m2) == Some(bs') && i < |bs| && bs[i].busy
    requires nb.busy && bs[i].size <= size <= nb.size && nb.Next() <= |m|
    requires nb.Addr() <= bs[i].Addr() && bs[i].Next() <= nb.Next()
    requires Live(bs') == (Live(bs) - {bs[i]}) + {nb}
    requires Intact(m, m2, Live(bs) - {bs[i]}) && Payload(m2, nb) == Payload(m, nb)
    requires Overwritten(m2, m3, nb.Addr(), size) && MovedFrom(m2, m3, nb.Addr(), bs[i].Addr(), size)
    ensures HeapOf(m3) == Some(bs')
    ensures Reallocated(m, m3, bs, bs', i, nb, size)
  {
    hide HeapOf, Payload, Keeps, MovedFrom, Overwritten;
    var j :| 0 <= j < |bs'| && bs'[j] == nb;
    PayloadWrite(m2, m3, bs', j, size);
    Covering(m, bs, i, nb);
    Readable(m, bs, i);
    PayloadWithin(m, m2, nb, bs[i]);
    KeepsMoved(m, m2, m3, bs[i], nb, size);
  }

  lemma PayloadWithin(m: seq<byte>, m': seq<byte>, nb: Block, b: Block)
    requires |m'| == |m| && nb.Next() <= |m| && Payload(m', nb) == Payload(m, nb)
    requires nb.Addr() <= b.Addr() && b.Next() <= nb.Next()
    ensures Payload(m', b) == Payload(m, b)
  {
    Inner(m', nb.Addr(), nb.size, b.Addr() - nb.Addr(), b.size);
    Inner(m, nb.Addr(), nb.size, b.Addr() - nb.Addr(), b.size);
  }

  lemma HeaderBefore(m: seq<byte>, m': seq<byte>, dst: nat, n: nat, o: nat)
    requires Overwritten(m, m', dst, n) && o + H <= dst <= |m|
    ensures |m'| == |m| && HeaderAt(m', o) == HeaderAt(m, o)
  {
    SameHeader(m, m', o);
  }

  /** Some block list makes m' a completed reallocation of block i to address p. */
  ghost predicate Succeeds(m: seq<byte>, m': seq<byte>, bs: seq<Block>, i: nat, p: nat, size: nat)
    requires i < |bs|
  {
    exists bs': seq<Block>, nb: Block :: nb.Addr() == p && Reallocated(m, m', bs, bs', i, nb, size)
  }

  /** No heap of less than 2^31 bytes has room for these sizes. */
  lemma TooLargeFails(m: seq<byte>, m': seq<byte>, bs: seq<Block>, i: nat, p: nat, size: nat)
    requires i < |bs| && |m'| < 0x8000_0000 <= size
    ensures !Succeeds(m, m', bs, i, p, size)
  {
    hide HeapOf, Keeps, Intact;
    forall bs': seq<Block>, nb: Block | nb.Addr() == p && Reallocated(m, m', bs, bs', i, nb, size)
      ensures false
    {
      assert nb in Live(bs');
      var j :| 0 <= j < |bs'| && bs'[j] == nb;
      Readable(m', bs', j);
    }
  }

  /** A free header in front of the returned address is never a success. */
  lemma FreeHeaderFails(m: seq<byte>, m': seq<byte>, bs: seq<Block>, i: nat, p: nat, size: nat)
    requires i < |bs| && H <= p <= |m'| && !HeaderAt(m', p - H).busy
    ensures !Succeeds(m, m', bs, i, p, size)
  {
    hide HeapOf, HeaderAt, Keeps;
    forall bs': seq<Block>, nb: Block | nb.Addr() == p && Reallocated(m, m', bs, bs', i, nb, size)
      ensures false
    {
      assert nb in Live(bs');
      var j :| 0 <= j < |bs'| && bs'[j] == nb;
      Readable(m', bs', j);
    }
  }

  lemma HeaderAfter(m: seq<byte>, m': seq<byte>, dst: nat, n: nat, o: nat)
    requires Overwritten(m, m', dst, n) && dst + n <= o && o + H <= |m|
    ensures HeaderAt(m', o) == HeaderAt(m, o)
  {
    SameHeader(m, m', o);
  }

  /** Taking both neighbours, up to the memmove: block x now starts at the previous
      header; the header behind it is only re-tagged, or written as a free rest. */
  ghost predicate BothWrote(m: seq<byte>, m1: seq<byte>, m2: seq<byte>, bs: seq<Block>, i: nat, x: Block, rest: int)
    requires 1 < i < |bs| - 2
  {
    && HeapOf(m) == Some(bs)
    && bs[i].busy && !bs[i - 1].busy && !bs[i + 1].busy
    && x.busy && x.off == bs[i - 1].off
    && x.size > bs[i - 1].size + bs[i].size + H
    && x.Next() + rest + H == bs[i + 2].off
    && Wrote(m, m1, x.off, Header(true, x.size, bs[i - 2].size))
    && if rest > 0 then Wrote(m1, m2, x.Next(), Header(false, rest, x.size)) else m2 == m1
  }

  lemma BothSplit(m: seq<byte>, m1: seq<byte>, m2: seq<byte>, bs: seq<Block>, i: nat, x: Block, rest: int)
    returns (bs': seq<Block>)
    requires 1 < i < |bs| - 2 && BothWrote(m, m1, m2, bs, i, x, rest) && (rest > 0 || rest == -H)
    requires x.size % 4 == 0
    ensures HeapOf(m2) == Some(bs') && Live(bs') == (Live(bs) - {bs[i]}) + {x}
    ensures Intact(m, m2, Live(bs) - {bs[i]})
    ensures x.Next() <= |m| && Payload(m2, x) == Payload(m, x)
  {
    hide HeapOf, Live, LiveIn, Payload, HeaderAt, Intact;
    Readable(m, bs, i - 1);
    Readable(m, bs, i - 2);
    Readable(m, bs, i + 1);
    LiveAround(m, bs, i - 1, i, i + 2);
    if rest > 0 {
      bs' := WroteForward(m, m1, m2, bs, i - 1, i + 2, x, Block(x.Next(), rest, false));
    } else {
      bs' := WroteOne(m, m1, bs, i - 1, i + 2, x);
    }
  }

  /** A rest of exactly one header, left as it was: a heap only if the bytes there
      read as a free header of size zero in front of the end sentinel. */
  lemma BothLucky(m: seq<byte>, m1: seq<byte>, bs: seq<Block>, i: nat, x: Block) returns (bs': seq<Block>)
    requires 1 < i < |bs| - 2 && BothWrote(m, m1, m1, bs, i, x, 0) && x.size % 4 == 0
    requires i + 2 == |bs| - 1
    requires !HeaderAt(m, x.Next()).busy && HeaderAt(m, x.Next()).size == 0
    ensures HeapOf(m1) == Some(bs') && Live(bs') == (Live(bs) - {bs[i]}) + {x}
    ensures Intact(m, m1, Live(bs) - {bs[i]})
    ensures x.Next() <= |m| && Payload(m1, x) == Payload(m, x)
  {
    hide HeapOf, LiveIn, HeaderAt, Intact;
    Readable(m, bs, i - 1);
    Readable(m, bs, i - 2);
    Readable(m, bs, i + 1);
    Readable(m, bs, i + 2);
    LiveAround(m, bs, i - 1, i, i + 2);
    var y := Block(x.Next(), 0, false);
    OtherHeader(m, m1, x.off, y.off, y.Next());
    bs' := Replaced(bs, i - 1, i + 2, [x, y]);
    InstalledTwo(m, m1, bs, i - 1, i + 2, x, y);
    assert Live([x, y]) == {x};
  }

  /** In any heap with block x and, later, block nn starting less than two headers
      behind x, exactly one header separates them: a free block of size zero. */
  lemma NarrowGap(m: seq<byte>, bs: seq<Block>, j: nat, l: nat)
    requires HeapOf(m) == Some(bs) && j < |bs| && l < |bs|
    requires bs[j].Next() < bs[l].off <= bs[j].Next() + H
    ensures l == j + 2 && bs[l].off == bs[j].Next() + H
    ensures bs[j + 1] == Block(bs[j].Next(), 0, bs[j + 1].busy)
  {
    HeapShape(m, bs);
    if l <= j {
      if l < j { Ordered(bs, l, j); }
    } else if l > j + 1 {
      Ordered(bs, j + 1, l);
      if l > j + 2 { Ordered(bs, j + 2, l); }
    }
  }

  /** No block of a heap other than its right neighbour's left neighbour ends there. */
  lemma OnlyLeftNeighbour(m: seq<byte>, bs: seq<Block>, t: nat, k: nat)
    requires HeapOf(m) == Some(bs) && t < |bs| && 0 < k < |bs| && bs[t].Next() == bs[k].off
    ensures t == k - 1
  {
    HeapShape(m, bs);
    if t < k - 1 { Ordered(bs, t, k - 1); }
    if k <= t { if k < t { Ordered(bs, k, t); } }
  }

  lemma BothFails(m: seq<byte>, m1: seq<byte>, m3: seq<byte>, bs: seq<Block>, i: nat, x: Block, rest: int, size: nat)
    requires 1 < i < |bs| - 2 && BothWrote(m, m1, m1, bs, i, x, rest) && -H < rest <= 0
    requires size <= x.size && Overwritten(m1, m3, x.Addr(), size)
    requires rest == 0 ==> i + 2 < |bs| - 1 || HeaderAt(m, x.Next()).busy || HeaderAt(m, x.Next()).size != 0
    ensures !Succeeds(m, m3, bs, i, x.Addr(), size)
  {
    hide HeapOf, Live, HeaderAt, Keeps, Intact;
    forall bs': seq<Block>, nb: Block | nb.Addr() == x.Addr() && Reallocated(m, m3, bs, bs', i, nb, size)
      ensures false
    {
      BothFailsFor(m, m1, m3, bs, bs', i, x, nb, rest, size);
    }
  }

  lemma BothFailsFor(m: seq<byte>, m1: seq<byte>, m3: seq<byte>, bs: seq<Block>, bs': seq<Block>, i: nat, x: Block,
                     nb: Block, rest: int, size: nat)
    requires 1 < i < |bs| - 2 && BothWrote(m, m1, m1, bs, i, x, rest) && -H < rest <= 0
    requires size <= x.size && Overwritten(m1, m3, x.Addr(), size)
    requires rest == 0 ==> i + 2 < |bs| - 1 || HeaderAt(m, x.Next()).busy || HeaderAt(m, x.Next()).size != 0
    requires HeapOf(m3) == Some(bs') && nb.off == x.off && nb.busy
    ensures Live(bs') != (Live(bs) - {bs[i]}) + {nb}
  {
    hide HeapOf, HeaderAt, Overwritten;
    if Live(bs') != (Live(bs) - {bs[i]}) + {nb} { return; }
    var nn := bs[i + 2];
    Readable(m, bs, i);
    Readable(m, bs, i + 1);
    Readable(m, bs, i + 2);
    assert nb in Live(bs');
    assert nn in Live(bs');
    var j :| 0 <= j < |bs'| && bs'[j] == nb;
    var l :| 0 <= l < |bs'| && bs'[l] == nn;
    Readable(m3, bs', j);
    HeaderBefore(m1, m3, x.Addr(), size, x.off);
    assert nb == x;
    NarrowGap(m3, bs', j, l);
    var c := bs'[j + 1];
    if c.busy {
      assert c in Live(bs');
      var t :| 0 <= t < |bs| && bs[t] == c;
      OnlyLeftNeighbour(m, bs, t, i + 2);
    }
    Readable(m3, bs', j + 1);
    HeaderAfter(m1, m3, x.Addr(), size, c.off);
    Readable(m3, bs', l);
    Readable(m, bs, i - 1);
    if i + 2 < |bs| - 1 { Readable(m, bs, i + 3); }
    OtherHeader(m, m1, x.off, c.off, nn.off);
    HeaderAfter(m1, m3, x.Addr(), size, nn.off);
  }

  lemma BothOutcome(m: seq<byte>, m1: seq<byte>, m2: seq<byte>, m3: seq<byte>, bs: seq<Block>, i: nat, x: Block,
                    rest: int, size: nat)
    returns (bs': seq<Block>)
    requires 1 < i < |bs| - 2 && BothWrote(m, m1, m2, bs, i, x, rest)
    requires size < WORD_LIMIT && Choose(bs[i - 1], bs[i], bs[i + 1], size) == Both && x.size == CeilFour(size)
    requires Overwritten(m2, m3, x.Addr(), size) && MovedFrom(m2, m3, x.Addr(), bs[i].Addr(), size)
    ensures Sound(m, bs, i, size) ==> HeapOf(m3) == Some(bs') && Reallocated(m, m3, bs, bs', i, x, size)
    ensures !Sound(m, bs, i, size) ==> !Succeeds(m, m3, bs, i, x.Addr(), size)
  {
    hide HeapOf, Live, LiveIn, Payload, HeaderAt, Keeps, Overwritten, MovedFrom, Intact, Wrote;
    Readable(m, bs, i - 1);
    Readable(m, bs, i);
    Readable(m, bs, i + 1);
    bs' := bs;
    if rest > 0 || rest == -H {
      bs' := BothSplit(m, m1, m2, bs, i, x, rest);
      Slid(m, m2, m3, bs, bs', i, x, size);
    } else if Sound(m, bs, i, size) {
      bs' := BothLucky(m, m1, bs, i, x);
      Slid(m, m2, m3, bs, bs', i, x, size);
    } else {
      BothFails(m, m1, m3, bs, i, x, rest, size);
    }
  }

  lemma KeepsOn(m: seq<byte>, m2: seq<byte>, m3: seq<byte>, b: Block, nb: Block, size: nat)
    requires Keeps(m, m2, b, nb, size) && size <= nb.size && nb.Next() <= |m2|
    requires |m3| == |m2| && Payload(m3, nb) == Payload(m2, nb)
    ensures Keeps(m, m3, b, nb, size)
  {
    var k := if b.size < size then b.size else size;
    assert m3[nb.Addr()..nb.Addr() + k] == Payload(m3, nb)[..k];
    assert m2[nb.Addr()..nb.Addr() + k] == Payload(m2, nb)[..k];
  }

  /** Allocate, copy, free: the three steps put together. */
  lemma CopiedAway(m: seq<byte>, m1: seq<byte>, m2: seq<byte>, m3: seq<byte>,
                   bs: seq<Block>, bs1: seq<Block>, bs3: seq<Block>, i: nat, k: nat, nb: Block, size: nat)
    requires HeapOf(m) == Some(bs) && HeapOf(m1) == Some(bs1) && HeapOf(m3) == Some(bs3)
    requires i < |bs| && bs[i].busy && k < |bs| && !bs[k].busy
    requires nb.busy && nb.off == bs[k].off && bs[i].size <= size <= nb.size && nb.Next() <= |m|
    requires Live(bs1) == Live(bs) + {nb} && Live(bs3) == Live(bs1) - {bs[i]}
    requires Intact(m, m1, Live(bs)) && Intact(m1, m2, Live(bs1) - {nb}) && Intact(m2, m3, Live(bs1) - {bs[i]})
    requires MovedFrom(m1, m2, nb.Addr(), bs[i].Addr(), size)
    ensures Reallocated(m, m3, bs, bs3, i, nb, size)
  {
    hide HeapOf, Payload, Keeps, MovedFrom;
    forall x | x in Live(bs) ensures x != nb {
      var t :| 0 <= t < |bs| && bs[t] == x;
      if t != k && bs[t].off == bs[k].off { DistinctOffsets(m, bs, t, k); }
    }
    Readable(m, bs, i);
    KeepsMoved(m, m1, m2, bs[i], nb, size);
    KeepsOn(m, m2, m3, bs[i], nb, size);
    IntactTrans(m, m1, m2, Live(bs) - {bs[i]}, Live(bs), Live(bs1) - {nb});
    IntactTrans(m, m2, m3, Live(bs) - {bs[i]}, Live(bs) - {bs[i]}, Live(bs1) - {bs[i]});
  }

  class Arena {
    const mem: array<byte>
    ghost var blocks: seq<Block>

    ghost predicate Valid()
      reads this, mem
    {
      mem.Length < 0x8000_0000 && HeapOf(mem[..]) == Some(blocks)
    }

    /** memcpy of a header; the struct starts out as stack garbage. */
    method WriteRawHeader(offset: nat, busy: bool, size: nat, prevSize: nat)
      requires offset + H <= mem.Length && size < WORD_LIMIT && prevSize < WORD_LIMIT
      modifies mem
      ensures HeaderAt(mem[..], offset) == Header(busy, size, prevSize)
      ensures SameBut(old(mem[..]), mem[..], offset, offset)
    {
      assert |Splice(old(mem[..])[..H], 0, [])| == H;
      var h: seq<byte> :| |h| == H;
      h := h[0 := h[0] - h[0] % 2 + if busy then 1 else 0];
      h := Splice(h, 4, WordBytes(size));
      h := Splice(h, 8, WordBytes(prevSize));
      assert HeaderAt(h, 0) == Header(busy, size, prevSize);
      forall k | 0 <= k < H {
        mem[offset + k] := h[k];
      }
      assert forall k :: 0 <= k < H ==> mem[..][offset + k] == h[k];
    }

    /** Writes the header at offset, swallowing free successors, and re-tags the
        block behind. */
    method WriteHeader(offset: nat, busy: bool, size: nat, prevSize: nat) returns (fault: bool)
      requires offset + H <= mem.Length < 0x8000_0000 && prevSize < WORD_LIMIT
      modifies mem
      ensures fault <==> Extent(old(mem[..]), offset, busy, size).None?
      ensures fault ==> mem[..] == old(mem[..])
      ensures !fault ==>
        Wrote(old(mem[..]), mem[..], offset, Header(busy, Extent(old(mem[..]), offset, busy, size).value, prevSize))
      decreases mem.Length - offset - size
    {
      var next := offset + size + H;
      if next + H > mem.Length {
        return true;
      }
      var n := HeaderAt(mem[..], next);
      if !busy && !n.busy {
        fault := WriteHeader(offset, false, size + n.size + H, prevSize);
        return;
      }
      WriteRawHeader(offset, busy, size, prevSize);
      OtherHeader(old(mem[..]), mem[..], offset, offset, next);
      ghost var m1 := mem[..];
      WriteRawHeader(next, n.busy, n.size, size);
      OtherHeader(m1, mem[..], next, next, offset);
      return false;
    }

    constructor (amount: nat)
      requires 3 * H <= amount < 0x8000_0000
      ensures Valid() && fresh(mem) && mem.Length == amount
      ensures blocks == Initial(amount)
    {
      mem := new byte[amount];
      blocks := Initial(amount);
      new;
      hide HeapOf;
      WriteRawHeader(0, true, CeilFour(H) - H, 0);
      ghost var m1 := mem[..];
      var startFree := CeilFour(H);
      var freeSize := FloorFour(mem.Length - startFree - 2 * H);
      WriteRawHeader(startFree, false, freeSize, 0);
      ghost var m2 := mem[..];
      OtherHeader(m1, m2, startFree, startFree, 0);
      var lastStart := freeSize + startFree + H;
      WriteRawHeader(lastStart, true, mem.Length - (lastStart + H), 0);
      OtherHeader(m2, mem[..], lastStart, lastStart, 0);
      OtherHeader(m2, mem[..], lastStart, lastStart, H);
      InitialEncodes(mem[..]);
    }

    /** The two writes of every splitting strategy: a free remainder behind a busy
        block that replaces blocks a .. c-1. */
    method WriteSplit(h: nat, retSize: nat, freeSize: nat, prev: nat, ghost a: nat, ghost c: nat)
      requires Valid() && 0 < a < c < |blocks|
      requires prev == blocks[a - 1].off && h == blocks[a].off
      requires h + retSize + freeSize + 2 * H == blocks[c].off
      requires retSize % 4 == 0
      modifies mem, this`blocks
      ensures Valid()
      ensures Live(blocks) == (Live(old(blocks)) - LiveIn(old(blocks), a, c)) + {Block(h, retSize, true)}
      ensures Intact(old(mem[..]), mem[..], Live(old(blocks)) - LiveIn(old(blocks), a, c))
      ensures h + retSize + H <= mem.Length
      ensures Payload(mem[..], Block(h, retSize, true)) == Payload(old(mem[..]), Block(h, retSize, true))
    {
      hide HeapOf, Extent, Live, LiveIn, Payload, HeaderAt;
      ghost var bs, m := blocks, mem[..];
      Readable(m, bs, a - 1);
      Readable(m, bs, c);
      var freeOffset := h + retSize + H;
      ghost var b, y := c, Block(freeOffset, freeSize, false);
      ExtentInHeap(m, bs, c, freeOffset, freeSize);
      if !bs[c].busy {
        Readable(m, bs, c + 1);
        LiveInExtends(bs, a, c);
        b, y := c + 1, Block(freeOffset, freeSize + H + bs[c].size, false);
      }
      var fault := WriteHeader(freeOffset, false, freeSize, retSize);
      ghost var m1 := mem[..];
      OtherHeader(m, m1, freeOffset, y.Next(), prev);
      ExtentStops(m1, h, true, retSize);
      fault := WriteHeader(h, true, retSize, HeaderAt(mem[..], prev).size);
      blocks := WroteTwo(m, m1, mem[..], bs, a, b, Block(h, retSize, true), y);
    }

    /** Blocks a .. c-1 become one busy block. */
    method WriteWhole(h: nat, size: nat, prevSize: nat, ghost a: nat, ghost c: nat)
      requires Valid() && 0 < a < c < |blocks|
      requires h == blocks[a].off && h + size + H == blocks[c].off
      requires prevSize == blocks[a - 1].size
      modifies mem, this`blocks
      ensures Valid()
      ensures Live(blocks) == (Live(old(blocks)) - LiveIn(old(blocks), a, c)) + {Block(h, size, true)}
      ensures Intact(old(mem[..]), mem[..], Live(old(blocks)) - LiveIn(old(blocks), a, c))
      ensures h + size + H <= mem.Length
      ensures Payload(mem[..], Block(h, size, true)) == Payload(old(mem[..]), Block(h, size, true))
    {
      hide HeapOf, Extent, Live, LiveIn, Payload, HeaderAt;
      ghost var bs, m := blocks, mem[..];
      Readable(m, bs, a - 1);
      Readable(m, bs, c);
      ExtentStops(m, h, true, size);
      var fault := WriteHeader(h, true, size, prevSize);
      blocks := WroteOne(m, mem[..], bs, a, c, Block(h, size, true));
    }

    method Alloc(size: nat) returns (p: Option<nat>, ghost k: nat)
      requires Valid()
      modifies mem, this`blocks
      ensures Valid()
      ensures p == None <==> forall j :: 0 <= j < |old(blocks)| && !old(blocks)[j].busy ==> old(blocks)[j].size < size
      ensures p.None? ==> blocks == old(blocks) && mem[..] == old(mem[..])
      ensures p.Some? ==> Leftmost(old(blocks), k, size) && p.value == old(blocks)[k].Addr()
      ensures p.Some? ==> Live(blocks) == Live(old(blocks)) + {Carved(old(blocks)[k], size)}
      ensures p.Some? ==> Snug(Carved(old(blocks)[k], size), old(blocks)[k].size, size)
      ensures p.Some? ==> Intact(old(mem[..]), mem[..], Live(old(blocks)))
    {
      hide HeapOf, Extent, Live, LiveIn, Payload, HeaderAt, Snug;
      ghost var bs, m := blocks, mem[..];
      HeapLength(m, bs);
      Readable(m, bs, 0);
      var prevOffset := 0;
      var offset := HeaderAt(mem[..], 0).size + H;
      k := 1;
      while offset < mem.Length
        invariant blocks == bs && mem[..] == m
        invariant 0 < k <= |bs|
        invariant prevOffset == bs[k - 1].off
        invariant offset == if k < |bs| then bs[k].off else mem.Length
        invariant forall j :: 0 <= j < k ==> bs[j].busy || bs[j].size < size
        decreases |bs| - k
      {
        Readable(m, bs, k);
        Readable(m, bs, k - 1);
        var h := HeaderAt(mem[..], offset);
        if h.size >= size && !h.busy {
          CarvedSnug(m, bs, k, size);
          var retSize := CeilFour(size);
          if h.size - retSize >= H {
            WriteSplit(offset, retSize, h.size - retSize - H, prevOffset, k, k + 1);
          } else {
            retSize := h.size;
            WriteWhole(offset, retSize, HeaderAt(mem[..], prevOffset).size, k, k + 1);
          }
          return Some(offset + H), k;
        }
        prevOffset := offset;
        offset := offset + h.size + H;
        k := k + 1;
      }
      if k < |bs| { Readable(m, bs, k); }
      p := None;
    }

    /** addr is the payload of live block i. */
    ghost predicate Owns(i: nat, addr: nat)
      reads this
    {
      0 < i < |blocks| - 1 && blocks[i].busy && blocks[i].Addr() == addr
    }

    method Free(addr: nat, ghost i: nat)
      requires Valid() && Owns(i, addr)
      modifies mem, this`blocks
      ensures Valid()
      ensures Live(blocks) == Live(old(blocks)) - {old(blocks)[i]}
      ensures Intact(old(mem[..]), mem[..], Live(old(blocks)) - {old(blocks)[i]})
    {
      hide HeapOf, Extent, Live, LiveIn, Payload, HeaderAt;
      ghost var bs, m := blocks, mem[..];
      HeaderOf(m, bs, i);
      HeaderOf(m, bs, i - 1);
      HeaderOf(m, bs, i + 1);
      var h := addr - H;
      var prev := addr - HeaderAt(mem[..], h).prevSize - 2 * H;
      var next := addr + HeaderAt(mem[..], h).size;
      var newSize := HeaderAt(mem[..], h).size;
      var prevSize := HeaderAt(mem[..], h).prevSize;
      ghost var a, b := i, i + 1;
      if !HeaderAt(mem[..], prev).busy {
        newSize := newSize + HeaderAt(mem[..], prev).size + H;
        prevSize := HeaderAt(mem[..], prev).prevSize;
        h := prev;
        a := i - 1;
        HeaderOf(m, bs, i - 2);
      }
      if !HeaderAt(mem[..], next).busy {
        newSize := newSize + HeaderAt(mem[..], next).size + H;
        b := i + 2;
        HeaderOf(m, bs, i + 2);
      }
      ghost var x := Block(h, newSize, false);
      LiveAround(m, bs, a, i, b);
      ExtentStops(m, h, false, newSize);
      var fault := WriteHeader(h, false, newSize, prevSize);
      blocks := WroteOne(m, mem[..], bs, a, b, x);
    }

    method ReallocShrink(addr: nat, size: nat, ghost i: nat) returns (ghost nb: Block)
      requires Valid() && Owns(i, addr) && size < blocks[i].size
      modifies mem, this`blocks
      ensures Valid() && size < WORD_LIMIT
      ensures nb.Addr() == addr && Reallocated(old(mem[..]), mem[..], old(blocks), blocks, i, nb, size)
      ensures nb == Resized(old(blocks)[i - 1], old(blocks)[i], old(blocks)[i + 1], size)
    {
      hide HeapOf, Extent, Live, LiveIn, Payload, HeaderAt, Keeps;
      ghost var bs, m := blocks, mem[..];
      Readable(m, bs, i);
      Readable(m, bs, i - 1);
      Readable(m, bs, i + 1);
      LiveAround(m, bs, i, i, i + 1);
      var h := addr - H;
      var size0 := HeaderAt(mem[..], h).size;
      var prev := addr - HeaderAt(mem[..], h).prevSize - 2 * H;
      var retSize := CeilFour(size);
      var freeSize := size0 - H - retSize;
      if freeSize > 0 {
        WriteSplit(h, retSize, freeSize, prev, i, i + 1);
      } else {
        retSize := size0;
        WriteWhole(h, retSize, HeaderAt(mem[..], prev).size, i, i + 1);
      }
      nb := Block(h, retSize, true);
      KeepsInPlace(m, mem[..], bs[i], nb, size);
    }

    method ReallocRight(addr: nat, size: nat, ghost i: nat) returns (ghost nb: Block)
      requires Valid() && Owns(i, addr)
      requires size < WORD_LIMIT && Choose(blocks[i - 1], blocks[i], blocks[i + 1], size) == Right
      modifies mem, this`blocks
      ensures Valid()
      ensures Sound(old(mem[..]), old(blocks), i, size) ==>
        nb.Addr() == addr && Reallocated(old(mem[..]), mem[..], old(blocks), blocks, i, nb, size)
      ensures !Sound(old(mem[..]), old(blocks), i, size) ==>
        !Succeeds(old(mem[..]), mem[..], old(blocks), i, addr, size)
      ensures nb == Resized(old(blocks)[i - 1], old(blocks)[i], old(blocks)[i + 1], size)
    {
      hide HeapOf, Extent, Live, LiveIn, Payload, HeaderAt, Keeps, Intact, Succeeds;
      ghost var bs, m := blocks, mem[..];
      Readable(m, bs, i);
      Readable(m, bs, i - 1);
      Readable(m, bs, i + 1);
      LiveAround(m, bs, i, i, i + 2);
      var h := addr - H;
      var size0 := HeaderAt(mem[..], h).size;
      var prev := addr - HeaderAt(mem[..], h).prevSize - 2 * H;
      var nextSize := HeaderAt(mem[..], addr + size0).size;
      var retSize := RetSize(size);
      var freeSize := size0 + H + nextSize - retSize - H;
      if freeSize > 0 {
        WriteSplit(h, retSize, freeSize, prev, i, i + 2);
      } else {
        retSize := size0 + nextSize + H;
        WriteWhole(h, retSize, HeaderAt(mem[..], prev).size, i, i + 2);
      }
      nb := Block(h, retSize, true);
      if size < 0xFFFF_FFFD {
        KeepsInPlace(m, mem[..], bs[i], nb, size);
      } else {
        TooLargeFails(m, mem[..], bs, i, addr, size);
      }
    }

    /** n bytes from src on, arbitrary ones behind the end of memory. */
    method ReadBytes(src: nat, n: nat) returns (buffer: seq<byte>)
      requires src <= mem.Length && n <= mem.Length
      ensures |buffer| == n && forall k :: 0 <= k < n && src + k < mem.Length ==> buffer[k] == mem[src + k]
    {
      var c := if src + n <= mem.Length then n else mem.Length - src;
      assert |mem[..n - c]| == n - c;
      var beyond: seq<byte> :| |beyond| == n - c;
      buffer := mem[src..src + c] + beyond;
    }

    /** memmove within the arena. The source range may run past the end of memory,
        where the bytes read are arbitrary. */
    method MemMove(dst: nat, src: nat, n: nat)
      requires dst + n <= mem.Length && src <= mem.Length
      modifies mem
      ensures Overwritten(old(mem[..]), mem[..], dst, n)
      ensures MovedFrom(old(mem[..]), mem[..], dst, src, n)
    {
      var buffer := ReadBytes(src, n);
      ghost var c := if src + n <= mem.Length then n else mem.Length - src;
      forall k | 0 <= k < n {
        mem[dst + k] := buffer[k];
      }
      Moved(old(mem[..]), mem[..], dst, src, c);
    }

    /** Slide left and leave the previous block a positive remainder. */
    method LeftShrinksPrevious(prev: nat, prevSize: nat, newOffset: nat, retSize: nat, ghost i: nat)
      requires Valid() && 1 < i < |blocks| - 1 && blocks[i].busy && !blocks[i - 1].busy
      requires prev == blocks[i - 1].off && newOffset == prev + H + prevSize
      requires newOffset + H + retSize == blocks[i + 1].off
      requires prevSize % 4 == 0
      modifies mem, this`blocks
      ensures Valid()
      ensures Live(blocks) == (Live(old(blocks)) - {old(blocks)[i]}) + {Block(newOffset, retSize, true)}
      ensures Intact(old(mem[..]), mem[..], Live(old(blocks)) - {old(blocks)[i]})
      ensures newOffset + H + retSize <= mem.Length
      ensures Payload(mem[..], Block(newOffset, retSize, true)) ==
        Payload(old(mem[..]), Block(newOffset, retSize, true))
    {
      hide HeapOf, Extent, Live, LiveIn, Payload, HeaderAt;
      ghost var bs, m := blocks, mem[..];
      Readable(m, bs, i - 1);
      Readable(m, bs, i - 2);
      Readable(m, bs, i + 1);
      LiveAround(m, bs, i - 1, i, i + 1);
      ExtentStops(m, newOffset, true, retSize);
      var fault := WriteHeader(newOffset, true, retSize, prevSize);
      ghost var m1 := mem[..];
      OtherHeader(m, m1, newOffset, bs[i + 1].off, prev);
      ExtentStops(m1, prev, false, prevSize);
      fault := WriteHeader(prev, false, prevSize, HeaderAt(mem[..], prev).prevSize);
      ghost var x, y := Block(prev, prevSize, false), Block(newOffset, retSize, true);
      blocks := WroteTwo(m, m1, mem[..], bs, i - 1, i + 1, x, y);
    }

    /** Slide left and take the whole previous block. Unless the block before it has size
        zero, a free header is then written over the new block's. */
    method LeftTakesPrevious(prev: nat, available: nat, ghost i: nat) returns (torn: bool, fault: bool)
      requires Valid() && 1 < i < |blocks| - 1 && blocks[i].busy && !blocks[i - 1].busy
      requires prev == blocks[i - 1].off && available == blocks[i - 1].size + blocks[i].size + H
      modifies mem, this`blocks
      ensures (torn <==> old(blocks)[i - 2].size != 0) && (fault ==> torn)
      ensures prev + H + available <= mem.Length
      ensures torn && !fault ==> !HeaderAt(mem[..], prev).busy
      ensures !torn ==> Valid() && Intact(old(mem[..]), mem[..], Live(old(blocks)) - {old(blocks)[i]})
      ensures !torn ==> Live(blocks) == (Live(old(blocks)) - {old(blocks)[i]}) + {Block(prev, available, true)}
      ensures !torn ==>
        Payload(mem[..], Block(prev, available, true)) == Payload(old(mem[..]), Block(prev, available, true))
    {
      hide HeapOf, Extent, Live, LiveIn, Payload, HeaderAt, Intact;
      ghost var bs, m := blocks, mem[..];
      Readable(m, bs, i - 1);
      Readable(m, bs, i - 2);
      Readable(m, bs, i);
      LiveAround(m, bs, i - 1, i, i + 1);
      var prevSize := HeaderAt(mem[..], prev).prevSize;
      WriteWhole(prev, available, prevSize, i - 1, i + 1);
      torn, fault := prevSize > 0, false;
      if torn {
        fault := WriteHeader(prev, false, prevSize, HeaderAt(mem[..], prev).prevSize);
      }
    }

    /** The memmove to lower addresses that ends a reallocation to the left. The fault is
        a target that does not fit the memory. */
    method MoveDown(p: nat, addr: nat, size: nat, ghost whole: bool, ghost m: seq<byte>, ghost bs: seq<Block>,
                    ghost i: nat, ghost nb: Block)
        returns (fault: bool)
      requires |m| == mem.Length && HeapOf(m) == Some(bs) && i < |bs| && bs[i].busy && bs[i].Addr() == addr
      requires H <= p == nb.Addr() <= mem.Length && addr <= mem.Length
      requires whole ==>
        && Valid() && nb.busy && bs[i].size <= size && size <= nb.size && nb.Next() <= |m|
        && nb.Addr() <= bs[i].Addr() && bs[i].Next() <= nb.Next()
        && Live(blocks) == (Live(bs) - {bs[i]}) + {nb}
        && Intact(m, mem[..], Live(bs) - {bs[i]}) && Payload(mem[..], nb) == Payload(m, nb)
      requires mem.Length < 0x8000_0000 && (!whole && size < 0xFFFF_FFFD ==> !HeaderAt(mem[..], p - H).busy)
      modifies mem
      ensures fault <==> p + size > mem.Length
      ensures whole && !fault ==> size <= nb.size && Valid() && Reallocated(m, mem[..], bs, blocks, i, nb, size)
      ensures !whole && !fault ==> !Succeeds(m, mem[..], bs, i, p, size)
    {
      hide HeapOf, Live, Payload, HeaderAt, Keeps, Overwritten, MovedFrom, Intact, Reallocated, Succeeds;
      if p + size > mem.Length {
        return true;
      }
      ghost var m2 := mem[..];
      MemMove(p, addr, size);
      if whole {
        Slid(m, m2, mem[..], bs, blocks, i, nb, size);
      } else {
        HeaderBefore(m2, mem[..], p, size, p - H);
        FreeHeaderFails(m, mem[..], bs, i, p, size);
      }
      fault := false;
    }

    method ReallocLeft(addr: nat, size: nat, ghost i: nat) returns (p: nat, fault: bool, ghost nb: Block)
      requires Valid() && Owns(i, addr)
      requires size < WORD_LIMIT && Choose(blocks[i - 1], blocks[i], blocks[i + 1], size) == Left
      modifies mem, this`blocks
      ensures Sound(old(mem[..]), old(blocks), i, size) ==>
        !fault && Valid() && nb.Addr() == p && Reallocated(old(mem[..]), mem[..], old(blocks), blocks, i, nb, size)
      ensures !Sound(old(mem[..]), old(blocks), i, size) ==>
        fault || !Succeeds(old(mem[..]), mem[..], old(blocks), i, p, size)
      ensures nb == Resized(old(blocks)[i - 1], old(blocks)[i], old(blocks)[i + 1], size)
    {
      hide HeapOf, Extent, Live, LiveIn, Payload, HeaderAt, Keeps, Overwritten, MovedFrom, Intact, SameBut;
      hide Sound, Reallocated, Succeeds, RetSize, CeilFour, Choose, Resized;
      ghost var bs, m := blocks, mem[..];
      LeftChosen(m, bs, i, size);
      LeftHeaders(m, bs, i, RetSize(size));
      var h := addr - H;
      var size0 := HeaderAt(mem[..], h).size;
      var prev := addr - HeaderAt(mem[..], h).prevSize - 2 * H;
      var retSize := RetSize(size);
      var available := HeaderAt(mem[..], prev).size + size0 + H;
      var prevSize := available - retSize - H;
      var newOffset := h + size0 - retSize;
      fault := false;
      var torn, whole := false, prevSize <= 0;
      if whole {
        newOffset := prev;
        retSize := available;
      }
      nb := Block(newOffset, retSize, true);
      p := newOffset + H;
      if whole {
        torn, fault := LeftTakesPrevious(prev, available, i);
        if fault { return; }
      } else {
        LeftShrinksPrevious(prev, prevSize, newOffset, retSize, i);
      }
      fault := MoveDown(p, addr, size, size < 0xFFFF_FFFD && !torn, m, bs, i, nb);
    }

    /** Both headers of a block that takes both neighbours: its own, and that of a rest. */
    method WriteBoth(prev: nat, retSize: nat, freeSize: int, ghost i: nat) returns (ghost m1: seq<byte>)
      requires Valid() && 1 < i < |blocks| - 2 && blocks[i].busy && !blocks[i - 1].busy && !blocks[i + 1].busy
      requires prev == blocks[i - 1].off && retSize > blocks[i - 1].size + blocks[i].size + H && freeSize >= -H
      requires prev + H + retSize + freeSize + H == blocks[i + 2].off
      modifies mem
      ensures BothWrote(old(mem[..]), m1, mem[..], blocks, i, Block(prev, retSize, true), freeSize)
    {
      hide HeapOf, Extent, HeaderAt, SameBut;
      ghost var bs, m := blocks, mem[..];
      Readable(m, bs, i - 1);
      Readable(m, bs, i - 2);
      Readable(m, bs, i + 2);
      ExtentStops(m, prev, true, retSize);
      var fault := WriteHeader(prev, true, retSize, HeaderAt(mem[..], prev).prevSize);
      m1 := mem[..];
      if freeSize > 0 {
        var freeOffset := prev + retSize + H;
        OtherHeader(m, m1, prev, freeOffset, bs[i + 2].off);
        ExtentStops(m1, freeOffset, false, freeSize);
        fault := WriteHeader(freeOffset, false, freeSize, retSize);
      }
    }

    method ReallocBoth(addr: nat, size: nat, ghost i: nat) returns (p: nat, ghost nb: Block)
      requires Valid() && Owns(i, addr)
      requires size < WORD_LIMIT && Choose(blocks[i - 1], blocks[i], blocks[i + 1], size) == Both
      modifies mem, this`blocks
      ensures Sound(old(mem[..]), old(blocks), i, size) ==>
        Valid() && nb.Addr() == p && Reallocated(old(mem[..]), mem[..], old(blocks), blocks, i, nb, size)
      ensures !Sound(old(mem[..]), old(blocks), i, size) ==>
        !Succeeds(old(mem[..]), mem[..], old(blocks), i, p, size)
      ensures nb == Resized(old(blocks)[i - 1], old(blocks)[i], old(blocks)[i + 1], size)
    {
      hide HeapOf, Extent, Live, LiveIn, Payload, HeaderAt, Keeps, Overwritten, MovedFrom, Intact, SameBut;
      hide Sound, RetSize, CeilFour, Choose, Resized, Reallocated, Succeeds;
      ghost var bs, m := blocks, mem[..];
      BothChosen(m, bs, i, size);
      Readable(m, bs, i);
      Readable(m, bs, i - 1);
      Readable(m, bs, i + 1);
      Readable(m, bs, i - 2);
      Readable(m, bs, i + 2);
      var h := addr - H;
      var size0 := HeaderAt(mem[..], h).size;
      var prev := addr - HeaderAt(mem[..], h).prevSize - 2 * H;
      var next := addr + size0;
      var retSize := RetSize(size);
      var available := HeaderAt(mem[..], prev).size + size0 + HeaderAt(mem[..], next).size + 2 * H;
      var freeSize := available - retSize - H;
      nb := Block(prev, retSize, true);
      ghost var m1 := WriteBoth(prev, retSize, freeSize, i);
      ghost var m2 := mem[..];
      p := prev + H;
      MemMove(p, addr, size);
      ghost var bs' := BothOutcome(m, m1, m2, mem[..], bs, i, nb, freeSize, size);
      if Sound(m, bs, i, size) {
        blocks := bs';
      }
    }

    method ReallocElsewhere(addr: nat, size: nat, ghost i: nat) returns (p: Option<nat>, ghost nb: Block)
      requires Valid() && Owns(i, addr) && blocks[i].size <= size
      modifies mem, this`blocks
      ensures Valid()
      ensures p == None <==> forall j :: 0 <= j < |old(blocks)| && !old(blocks)[j].busy ==> old(blocks)[j].size < size
      ensures p.None? ==> blocks == old(blocks) && mem[..] == old(mem[..])
      ensures p.Some? ==>
        nb.Addr() == p.value && Reallocated(old(mem[..]), mem[..], old(blocks), blocks, i, nb, size)
      ensures p.Some? ==> FirstFit(old(blocks), nb, size)
    {
      hide HeapOf, Live, LiveIn, Payload, HeaderAt, Keeps, Overwritten, MovedFrom, Intact;
      hide Reallocated, SameBut, CeilFour, Snug;
      ghost var bs, m := blocks, mem[..];
      ghost var k;
      p, k := Alloc(size);
      nb := bs[i];
      if p.None? { return; }
      ghost var m1, bs1 := mem[..], blocks;
      nb := Carved(bs[k], size);
      ghost var j := IndexOf(m1, bs1, nb);
      Readable(m, bs, i);
      Readable(m, bs, i - 1);
      Readable(m, bs, i + 1);
      ghost var i1 := IndexOf(m1, bs1, bs[i]);
      MemMove(p.value, addr, size);
      ghost var m2 := mem[..];
      PayloadWrite(m1, m2, bs1, j, size);
      Free(addr, i1);
      CopiedAway(m, m1, m2, mem[..], bs, bs1, blocks, i, k, nb, size);
    }

    /** mem_realloc. The heap it leaves is whole, with the contents kept and every
        other block untouched, exactly when Sound holds beforehand. */
    method Realloc(addr: Option<nat>, size: nat, ghost i: nat) returns (p: Option<nat>, fault: bool, ghost nb: Block)
      requires Valid() && size < WORD_LIMIT && (addr.Some? ==> Owns(i, addr.value))
      modifies mem, this`blocks
      ensures addr.Some? ==>
        (Sound(old(mem[..]), old(blocks), i, size) <==>
         !fault && Valid() && (p.Some? ==> Succeeds(old(mem[..]), mem[..], old(blocks), i, p.value, size)))
      ensures addr.Some? && Sound(old(mem[..]), old(blocks), i, size) && p.Some? ==>
        nb.Addr() == p.value && Reallocated(old(mem[..]), mem[..], old(blocks), blocks, i, nb, size)
      ensures p == None ==> !fault && Valid() && blocks == old(blocks) && mem[..] == old(mem[..])
      ensures addr.Some? ==> (p == None <==>
        Choose(old(blocks)[i - 1], old(blocks)[i], old(blocks)[i + 1], size) == Elsewhere
        && forall j :: 0 <= j < |old(blocks)| && !old(blocks)[j].busy ==> old(blocks)[j].size < size)
      ensures addr.Some? && size < 0xFFFF_FFFD && p.Some? ==>
        var prev, h, next := old(blocks)[i - 1], old(blocks)[i], old(blocks)[i + 1];
        if NoRoomAround(prev, h, next, size) then FirstFit(old(blocks), nb, size)
        else nb == Resized(prev, h, next, size) && WellPlaced(prev, h, next, nb, size)
      ensures addr.None? ==> Valid() && !fault
      ensures addr.None? ==>
        (p == None <==> forall j :: 0 <= j < |old(blocks)| && !old(blocks)[j].busy ==> old(blocks)[j].size < size)
      ensures addr.None? && p.Some? ==>
        && Live(blocks) == Live(old(blocks)) + {nb} && nb.Addr() == p.value && FirstFit(old(blocks), nb, size)
        && Intact(old(mem[..]), mem[..], Live(old(blocks)))
    {
      hide HeapOf, Live, Payload, Keeps, Intact, Reallocated, HeaderAt, Resized, WellPlaced, NoRoomAround, Snug;
      ghost var bs, m := blocks, mem[..];
      fault := false;
      if addr.None? {
        ghost var k;
        p, k := Alloc(size);
        nb := if p.Some? then Carved(bs[k], size) else Block(0, 0, true);
        return;
      }
      Readable(m, bs, i);
      Readable(m, bs, i - 1);
      Readable(m, bs, i + 1);
      if size < 0xFFFF_FFFD {
        NeighboursOf(m, bs, i);
        ResizedFits(bs[i - 1], bs[i], bs[i + 1], size);
      }
      var a := addr.value;
      var h := HeaderAt(mem[..], a - H);
      var prevH := HeaderAt(mem[..], a - h.prevSize - 2 * H);
      var nextH := HeaderAt(mem[..], a + h.size);
      var retSize := RetSize(size);
      var q: nat := a;
      if size < h.size {
        nb := ReallocShrink(a, size, i);
      } else if !nextH.busy && nextH.size + h.size + H >= retSize {
        nb := ReallocRight(a, size, i);
      } else if !prevH.busy && prevH.size + h.size + H >= retSize {
        q, fault, nb := ReallocLeft(a, size, i);
      } else if !prevH.busy && !nextH.busy && prevH.size + h.size + nextH.size + H * 2 >= retSize {
        q, nb := ReallocBoth(a, size, i);
      } else {
        p, nb := ReallocElsewhere(a, size, i);
        return;
      }
      p := Some(q);
    }
  }
}
