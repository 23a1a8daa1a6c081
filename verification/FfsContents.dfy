/** A file's bytes: its blocks end to end, cut off at its size. */
module FfsContents {
  import opened Bytes
  import opened Sequences
  import opened FfsFormat

  predicate OnDisk(disk: Blocks, bl: seq<nat>)
  {
    Formed(disk) && forall j :: 0 <= j < |bl| ==> bl[j] < |disk|
  }

  /** The blocks bl end to end. */
  function Flat(disk: Blocks, bl: seq<nat>): (r: seq<byte>)
    requires OnDisk(disk, bl)
    ensures |r| == BLOCK * |bl|
  {
    if bl == [] then [] else Flat(disk, bl[..|bl| - 1]) + disk[bl[|bl| - 1]]
  }

  lemma {:induction false} FlatSame(disk: Blocks, disk': Blocks, bl: seq<nat>)
    requires OnDisk(disk, bl) && OnDisk(disk', bl)
    requires forall j :: 0 <= j < |bl| ==> disk'[bl[j]] == disk[bl[j]]
    ensures Flat(disk', bl) == Flat(disk, bl)
  {
    if bl != [] { FlatSame(disk, disk', bl[..|bl| - 1]); }
  }

  lemma {:induction false} FlatAt(disk: Blocks, bl: seq<nat>, j: nat)
    requires OnDisk(disk, bl) && j < |bl|
    ensures BLOCK * j + BLOCK <= |Flat(disk, bl)|
    ensures Flat(disk, bl)[BLOCK * j..BLOCK * j + BLOCK] == disk[bl[j]]
  {
    if j < |bl| - 1 {
      FlatAt(disk, bl[..|bl| - 1], j);
      assert Flat(disk, bl)[BLOCK * j..BLOCK * j + BLOCK] == Flat(disk, bl[..|bl| - 1])[BLOCK * j..BLOCK * j + BLOCK];
    }
  }

  lemma FlatAppend(disk: Blocks, bl: seq<nat>, b: nat)
    requires OnDisk(disk, bl) && b < |disk|
    ensures OnDisk(disk, bl + [b]) && Flat(disk, bl + [b]) == Flat(disk, bl) + disk[b]
  {
    assert (bl + [b])[..|bl|] == bl;
  }

  /** Writing inside one block of a file writes at that place in the file. */
  lemma {:induction false} FlatPoke(disk: Blocks, bl: seq<nat>, j: nat, off: nat, bytes: seq<byte>)
    requires OnDisk(disk, bl) && NoDup(bl) && j < |bl| && off + |bytes| <= BLOCK
    ensures OnDisk(Poke(disk, bl[j], off, bytes), bl)
    ensures Flat(Poke(disk, bl[j], off, bytes), bl) == Splice(Flat(disk, bl), BLOCK * j + off, bytes)
  {
    var disk' := Poke(disk, bl[j], off, bytes);
    var init := bl[..|bl| - 1];
    if j < |bl| - 1 {
      assert bl[j] == init[j] && bl[|bl| - 1] != bl[j];
      FlatPoke(disk, init, j, off, bytes);
      SpliceLeft(Flat(disk, init), disk[bl[|bl| - 1]], BLOCK * j + off, bytes);
    } else {
      FlatSame(disk, disk', init);
      SpliceRight(Flat(disk, init), disk[bl[j]], off, bytes);
    }
  }

  lemma SpliceLeft(a: seq<byte>, b: seq<byte>, o: nat, d: seq<byte>)
    requires o + |d| <= |a|
    ensures Splice(a, o, d) + b == Splice(a + b, o, d)
  {
  }

  lemma SpliceRight(a: seq<byte>, b: seq<byte>, o: nat, d: seq<byte>)
    requires o + |d| <= |b|
    ensures a + Splice(b, o, d) == Splice(a + b, |a| + o, d)
  {
  }

  /** What writing d at position pos makes of the bytes of a file. */
  function Written(bytes: seq<byte>, pos: nat, d: seq<byte>): (r: seq<byte>)
    requires pos <= |bytes|
    ensures |r| == if pos + |d| > |bytes| then pos + |d| else |bytes|
    ensures forall k :: 0 <= k < |r| ==> r[k] == if pos <= k < pos + |d| then d[k - pos] else bytes[k]
  {
    bytes[..pos] + d + if pos + |d| <= |bytes| then bytes[pos + |d|..] else []
  }

  function Max(a: nat, b: nat): nat { if a < b then b else a }

  function Min(a: nat, b: nat): nat { if a < b then a else b }

  /** flat' is flat, possibly longer, with d written at pos. */
  predicate Overlaid(flat: seq<byte>, flat': seq<byte>, pos: nat, d: seq<byte>)
  {
    && |flat| <= |flat'| && (d != [] ==> pos + |d| <= |flat'|)
    && forall k :: 0 <= k < |flat'| && (k < |flat| || pos <= k < pos + |d|) ==>
         flat'[k] == if pos <= k < pos + |d| then d[k - pos] else flat[k]
  }

  /** One chunk of file_write: d follows what has been written so far. */
  lemma WriteMore(flat: seq<byte>, flat': seq<byte>, bytes: seq<byte>, pos: nat, done: seq<byte>, d: seq<byte>)
    requires Overlaid(bytes, flat, pos, done) && Overlaid(flat, flat', pos + |done|, d) && d != []
    ensures Overlaid(bytes, flat', pos, done + d)
  {
    forall k | 0 <= k < |flat'| && (k < |bytes| || pos <= k < pos + |done + d|)
      ensures flat'[k] == if pos <= k < pos + |done + d| then (done + d)[k - pos] else bytes[k]
    {
      assert done == [] || pos + |done| <= |flat|;
    }
  }

  /** What has been laid over the old bytes is what writing makes of them, once they are
      filled up to the position. */
  lemma OverlaidWritten(bytes: seq<byte>, flat: seq<byte>, pos: nat, d: seq<byte>)
    requires Overlaid(bytes, flat, pos, d) && pos <= |flat|
    ensures Max(|bytes|, pos + |d|) <= |flat|
    ensures var hole := flat[|bytes|..Max(|bytes|, pos)];
      Written(bytes + hole, pos, d) == flat[..Max(|bytes|, pos + |d|)]
  {
    var all := bytes + flat[|bytes|..Max(|bytes|, pos)];
    var w, f := Written(all, pos, d), flat[..Max(|bytes|, pos + |d|)];
    forall k | 0 <= k < |f| ensures w[k] == f[k] {}
  }

  // --- Reading ---------------------------------------------------------

  /** What file_read copies out, and where it stops, from position offset when got
      bytes have been copied before: chunks start at the beginning of the block
      offset lies in, and each is bounded by max, not by what is left of it. */
  function Chunks(flat: seq<byte>, size: nat, offset: nat, max: nat, got: nat): (r: (seq<byte>, nat))
    requires size <= |flat| && |flat| % BLOCK == 0
    decreases size - offset
  {
    if got >= max || offset >= size then ([], offset)
    else
      var start := offset / BLOCK * BLOCK;
      var able := Min(size - offset, BLOCK - offset % BLOCK);
      var len := Min(able, max);
      InBlock(flat, size, offset);
      var rest := Chunks(flat, size, offset + len, max, got + len);
      (flat[start..start + len] + rest.0, rest.1)
  }

  lemma InBlock(flat: seq<byte>, size: nat, offset: nat)
    requires size <= |flat| && |flat| % BLOCK == 0 && offset < size
    ensures offset / BLOCK * BLOCK + BLOCK <= |flat|
  {
  }

  function RoundUp(n: nat): (r: nat)
    ensures r % BLOCK == 0 && n <= r < n + BLOCK
  {
    n + BLOCK - 1 - (n + BLOCK - 1) % BLOCK
  }

  /** How far file_read gets from a block boundary when got bytes have been copied
      before: of a request below one block all of it, of a larger one what is left, rounded
      up to whole blocks; the end of the file stops both. */
  function Reach(left: nat, max: nat, got: nat): nat
  {
    if got >= max then 0 else if max < BLOCK then Min(left, max) else Min(left, RoundUp(max - got))
  }

  lemma ChunkAligned(flat: seq<byte>, size: nat, offset: nat, max: nat, got: nat)
    requires size <= |flat| && |flat| % BLOCK == 0 && offset % BLOCK == 0 && offset < size && got < max
    ensures var len := Min(Min(size - offset, BLOCK), max);
      var rest := Chunks(flat, size, offset + len, max, got + len);
      Chunks(flat, size, offset, max, got) == (flat[offset..offset + len] + rest.0, rest.1)
  {
  }

  lemma ChunksStop(flat: seq<byte>, size: nat, offset: nat, max: nat, got: nat)
    requires size <= |flat| && |flat| % BLOCK == 0 && (got >= max || offset >= size)
    ensures Chunks(flat, size, offset, max, got) == ([], offset)
  {
  }

  lemma {:induction false} ChunksAligned(flat: seq<byte>, size: nat, offset: nat, max: nat, got: nat)
    requires size <= |flat| && |flat| % BLOCK == 0 && offset % BLOCK == 0 && offset <= size
    ensures var n := Reach(size - offset, max, got);
      Chunks(flat, size, offset, max, got) == (flat[offset..offset + n], offset + n)
    decreases size - offset
  {
    hide Reach, RoundUp, Chunks;
    var left, n := size - offset, Reach(size - offset, max, got);
    ReachEnds(left, max, got);
    if got >= max || left == 0 {
      assert n == 0 && flat[offset..offset] == [];
      ChunksStop(flat, size, offset, max, got);
    } else if left > BLOCK && max >= BLOCK {
      ChunkAligned(flat, size, offset, max, got);
      ChunksAligned(flat, size, offset + BLOCK, max, got + BLOCK);
      ReachStep(left, max, got);
      assert flat[offset..offset + BLOCK] + flat[offset + BLOCK..offset + n] == flat[offset..offset + n];
    } else {
      assert n == Min(Min(left, BLOCK), max);
      ChunkAligned(flat, size, offset, max, got);
      ChunksStop(flat, size, offset + n, max, got + n);
      assert flat[offset..offset + n] + [] == flat[offset..offset + n];
    }
  }

  lemma ReachEnds(left: nat, max: nat, got: nat)
    ensures got >= max || left == 0 ==> Reach(left, max, got) == 0
    ensures got < max && (left <= BLOCK || max < BLOCK) ==> Reach(left, max, got) == Min(Min(left, BLOCK), max)
    ensures Reach(left, max, got) <= left
  {
  }

  lemma RoundUpStep(n: nat)
    requires n > 0
    ensures RoundUp(n) == if n <= BLOCK then BLOCK else BLOCK + RoundUp(n - BLOCK)
  {
  }

  lemma ReachStep(left: nat, max: nat, got: nat)
    requires left > BLOCK && max >= BLOCK && got < max
    ensures Reach(left, max, got) == BLOCK + Reach(left - BLOCK, max, got + BLOCK)
  {
    hide RoundUp;
    RoundUpStep(max - got);
  }

  /** What file_read returns, for every offset and request: first bytes from the start of
      the block that the offset lies in, as many as there are behind the offset; then,
      if they are not enough, from the next block on. */
  lemma ReadFrom(flat: seq<byte>, size: nat, offset: nat, max: nat)
    requires size <= |flat| && |flat| % BLOCK == 0 && offset < size && max > 0
    ensures var start, n := offset - offset % BLOCK, Min(Min(size - offset, BLOCK - offset % BLOCK), max);
      var more := Reach(size - offset - n, max, n);
      && 0 <= start && start + n <= |flat| && offset + n + more <= size
      && Chunks(flat, size, offset, max, 0) ==
           (flat[start..start + n] + flat[offset + n..offset + n + more], offset + n + more)
  {
    hide RoundUp, Chunks;
    var n := Min(Min(size - offset, BLOCK - offset % BLOCK), max);
    InBlock(flat, size, offset);
    FirstChunk(flat, size, offset, max);
    ReachEnds(size - offset - n, max, n);
    if n >= max || offset + n >= size {
      ChunksStop(flat, size, offset + n, max, n);
      assert flat[offset + n..offset + n] == [];
    } else {
      ChunksAligned(flat, size, offset + n, max, n);
    }
  }

  lemma FirstChunk(flat: seq<byte>, size: nat, offset: nat, max: nat)
    requires size <= |flat| && |flat| % BLOCK == 0 && offset < size && max > 0
    ensures var start, n := offset - offset % BLOCK, Min(Min(size - offset, BLOCK - offset % BLOCK), max);
      && 0 <= start && start + n <= |flat|
      && Chunks(flat, size, offset, max, 0) ==
           (flat[start..start + n] + Chunks(flat, size, offset + n, max, n).0, Chunks(flat, size, offset + n, max, n).1)
  {
  }

  /** file_read returns the bytes asked for whatever the file holds if and only if the
      offset is a multiple of the block size and the request is either smaller than a
      block, or made of whole blocks, or enough for all that is left. */
  lemma ReadsRight(size: nat, offset: nat, max: nat)
    requires offset < size && max > 0
    ensures (forall flat: seq<byte> :: size <= |flat| && |flat| % BLOCK == 0 ==> Right(flat, size, offset, max))
            <==> offset % BLOCK == 0 && (max < BLOCK || max % BLOCK == 0 || size - offset <= max)
  {
    if offset % BLOCK == 0 { AlignedRead(size, offset, max); } else { UnalignedRead(size, offset, max); }
  }

  /** The read that file_read should make of a file with blocks flat. */
  predicate Right(flat: seq<byte>, size: nat, offset: nat, max: nat)
    requires size <= |flat| && |flat| % BLOCK == 0 && offset < size
  {
    Chunks(flat, size, offset, max, 0).0 == flat[offset..offset + Min(size - offset, max)]
  }

  lemma AlignedRead(size: nat, offset: nat, max: nat)
    requires offset < size && max > 0 && offset % BLOCK == 0
    ensures (forall flat: seq<byte> :: size <= |flat| && |flat| % BLOCK == 0 ==> Right(flat, size, offset, max))
            <==> max < BLOCK || max % BLOCK == 0 || size - offset <= max
  {
    var n := Reach(size - offset, max, 0);
    ReachExact(size - offset, max);
    forall flat: seq<byte> | size <= |flat| && |flat| % BLOCK == 0
      ensures Right(flat, size, offset, max) <==> n == Min(size - offset, max)
    {
      ChunksAligned(flat, size, offset, max, 0);
    }
    var flat: seq<byte> := seq(RoundUp(size), i => 0);
    assert Right(flat, size, offset, max) <==> n == Min(size - offset, max);
  }

  lemma ReachExact(left: nat, max: nat)
    requires left > 0 && max > 0
    ensures Reach(left, max, 0) <= left
    ensures Reach(left, max, 0) == Min(left, max) <==> max < BLOCK || max % BLOCK == 0 || left <= max
  {
  }

  lemma UnalignedRead(size: nat, offset: nat, max: nat)
    requires offset < size && max > 0 && offset % BLOCK != 0
    ensures exists flat: seq<byte> :: size <= |flat| && |flat| % BLOCK == 0 && !Right(flat, size, offset, max)
  {
    var flat := seq(RoundUp(size), i => if i == offset then 1 as byte else 0);
    FirstByte(flat, size, offset, max);
    assert flat[offset..offset + Min(size - offset, max)][0] == flat[offset];
    assert !Right(flat, size, offset, max);
  }

  /** The first byte read is the first of the block, not the one at the offset. */
  lemma FirstByte(flat: seq<byte>, size: nat, offset: nat, max: nat)
    requires size <= |flat| && |flat| % BLOCK == 0 && offset < size && max > 0
    ensures offset / BLOCK * BLOCK < |flat|
    ensures var r := Chunks(flat, size, offset, max, 0).0; r != [] && r[0] == flat[offset / BLOCK * BLOCK]
  {
    InBlock(flat, size, offset);
  }
}
