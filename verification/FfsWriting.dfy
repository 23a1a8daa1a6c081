/** fs/ffs.c: file_write, as what it makes of the volume for every position, and when that
    is what it should be. */
module FfsWriting {
  import opened Options
  import opened Bytes
  import opened Sequences
  import opened FfsFormat
  import opened FfsContents
  import opened FfsModel
  import opened FfsSteps
  import opened FfsTree

  // --- The program -----------------------------------------------------

  /** A block is added to the file: count, bit, and entry number k. None when no block is
      left, or the entry lies behind the datablock. */
  function AddBlock(v: Vol, home: nat, k: nat): (r: Option<Vol>)
    requires Framed(v) && home < v.geo.blocks
    ensures r.Some? ==> Framed(r.value) && r.value.geo == v.geo && r.value.inodes == v.inodes && k < MAX_BLOCKS
  {
    var b := FirstClear(v.bmap, 0, v.geo.blocks);
    if b == v.geo.blocks || k >= MAX_BLOCKS then None
    else
      var v1 := PutBytes(v, home, 0, WordBytes((ListWord(v.disk[home], 0) + 1) % WORD_LIMIT));
      Some(PutBytes(MarkBlock(v1, b), home, 4 * (k + 1), WordBytes(b)))
  }

  /** One turn of the loop. */
  function Turn(v: Vol, home: nat, fPos: nat, bytes: seq<byte>): (r: Option<Vol>)
    requires Framed(v) && home < v.geo.blocks && fPos % BLOCK + |bytes| <= BLOCK
    ensures r.Some? ==> Framed(r.value) && r.value.geo == v.geo && r.value.inodes == v.inodes
  {
    var k := fPos / BLOCK;
    var r :=
      if k + 1 > ListWord(v.disk[home], 0) then AddBlock(v, home, k) else if k >= MAX_BLOCKS then None else Some(v);
    if r.None? || ListWord(r.value.disk[home], k + 1) >= v.geo.blocks then None
    else Some(PutBytes(r.value, ListWord(r.value.disk[home], k + 1), fPos % BLOCK, bytes))
  }

  /** How much of the rest goes to the block that fPos lies in. */
  function Chunk(fPos: nat, left: nat): (d: nat)
    ensures d <= left && fPos % BLOCK + d <= BLOCK && (left > 0 ==> d > 0)
    ensures d < left ==> (fPos + d) / BLOCK == fPos / BLOCK + 1 && (fPos + d) % BLOCK == 0
  {
    if left < BLOCK - fPos % BLOCK then left else BLOCK - fPos % BLOCK
  }

  /** The loop, for the bytes of buf that are left. */
  function Turns(v: Vol, home: nat, fPos: nat, buf: seq<byte>): (r: Option<Vol>)
    requires Framed(v) && home < v.geo.blocks
    ensures r.Some? ==> Framed(r.value) && r.value.geo == v.geo && r.value.inodes == v.inodes
    decreases |buf|
  {
    if buf == [] then Some(v)
    else
      var d := Chunk(fPos, |buf|);
      match Turn(v, home, fPos, buf[..d])
      case None => None
      case Some(v1) => Turns(v1, home, fPos + d, buf[d..])
  }

  /** Inode i has its datablock on the device. */
  predicate Writable(v: Vol, i: nat)
  {
    Framed(v) && i < v.geo.files && i in v.inodes && v.inodes[i].Fits() && v.inodes[i].datablock < v.geo.blocks
  }

  /** file_write at p: the loop, and then the size. */
  function WriteFile(v: Vol, i: nat, p: nat, buf: seq<byte>): (r: Option<Vol>)
    requires Writable(v, i)
    ensures r.Some? ==> Framed(r.value) && r.value.geo == v.geo
  {
    match Turns(v, v.inodes[i].datablock, p, buf)
    case None => None
    case Some(v1) => Some(PutFd(v1, i, v.inodes[i].(size := Max(v.inodes[i].size, (p + |buf|) % WORD_LIMIT))))
  }

  lemma WriteFileIs(v: Vol, i: nat, p: nat, buf: seq<byte>)
    requires Writable(v, i)
    ensures var r := Turns(v, v.inodes[i].datablock, p, buf); var size := (p + |buf|) % WORD_LIMIT;
      WriteFile(v, i, p, buf) ==
        if r.None? then None
        else Some(PutFd(r.value, i, v.inodes[i].(size := if size < v.inodes[i].size then v.inodes[i].size else size)))
  {
    hide Turns;
  }

  // --- A position within the blocks of the file, or just behind them ---

  /** What the tables say about file i. */
  lemma NodeAt(v: Vol, fs: Fs, i: nat)
    requires Rep(v, fs) && i in fs.nodes
    ensures Sized(v) && i in v.inodes && i < v.geo.files
    ensures v.inodes[i] == fs.nodes[i].Descriptor() && v.inodes[i].Fits()
    ensures v.geo.Service() <= fs.nodes[i].home < v.geo.blocks == |v.disk|
    ensures |v.disk[fs.nodes[i].home]| == BLOCK && |fs.nodes[i].blocks| <= MAX_BLOCKS
    ensures ListWord(v.disk[fs.nodes[i].home], 0) == |fs.nodes[i].blocks|
    ensures forall j :: 0 <= j < |fs.nodes[i].blocks| ==>
      ListWord(v.disk[fs.nodes[i].home], j + 1) == fs.nodes[i].blocks[j]
  {
    HomeOf(v, fs, i);
    assert NodeOk(v.geo, fs, i) && FdRep(v, fs, i) && ListRep(v, fs, i);
  }

  lemma ExtendFacts(v: Vol, v': Vol, fs: Fs, i: nat, b: nat)
    requires Rep(v, fs) && i in fs.nodes && b < v.geo.blocks && b < 8 * |v.bmap| && !TestBit(v.bmap, b)
    requires Sized(v') && v'.geo == v.geo && Rep(v', Extend(fs, i, b)) && SameBut(v, v', {fs.nodes[i].home})
    ensures OthersKept(v, v', fs, i) && OwnersKept(fs, Extend(fs, i, b), i)
    ensures Room(v.geo, Extend(fs, i, b)) == Room(v.geo, fs) - 1
    ensures var n := fs.nodes[i];
      && OnDisk(v.disk, n.blocks) && OnDisk(v'.disk, n.blocks + [b])
      && Flat(v'.disk, n.blocks + [b])[..BLOCK * |n.blocks|] == Flat(v.disk, n.blocks)
  {
    hide Elems, NoDup, TestBit, BitRep, FdRep, ListRep, ServiceSynced;
    var n := fs.nodes[i];
    Unowned(v, fs, b);
    assert fs.owner[b := i].Keys == fs.owner.Keys + {b};
    assert NodeOk(v.geo, fs, i);
    forall c | c in fs.owner && fs.owner[c] != i && c < |v.disk| ensures v'.disk[c] == v.disk[c] {
      assert OwnerOk(v.geo, fs, c);
    }
    BlocksOnDisk(v, fs, i);
    forall j | 0 <= j < |n.blocks| ensures v'.disk[n.blocks[j]] == v.disk[n.blocks[j]] { DataBlock(v.geo, fs, i, j); }
    FlatSame(v.disk, v'.disk, n.blocks);
    FlatAppend(v'.disk, n.blocks, b);
  }

  lemma Appended(v: Vol, v': Vol, fs: Fs, i: nat, b: nat)
    requires Rep(v, fs) && i in fs.nodes && |fs.nodes[i].blocks| < MAX_BLOCKS && fs.nodes[i].home < v.geo.blocks
    requires b < v.geo.blocks && b < 8 * |v.bmap| && !TestBit(v.bmap, b)
    requires v' == Append(v, fs.nodes[i].home, |fs.nodes[i].blocks|, b)
    ensures Rep(v', Extend(fs, i, b)) && Room(v.geo, Extend(fs, i, b)) == Room(v.geo, fs) - 1
    ensures OthersKept(v, v', fs, i) && OwnersKept(fs, Extend(fs, i, b), i)
    ensures var n := fs.nodes[i];
      && OnDisk(v.disk, n.blocks) && OnDisk(v'.disk, n.blocks + [b])
      && Flat(v'.disk, n.blocks + [b])[..BLOCK * |n.blocks|] == Flat(v.disk, n.blocks)
  {
    AppendRep(v, fs, i, b);
    ExtendFacts(v, v', fs, i, b);
  }

  lemma BlockAt(v: Vol, fs: Fs, i: nat, j: nat)
    requires Rep(v, fs) && i in fs.nodes && j < |fs.nodes[i].blocks|
    ensures fs.nodes[i].blocks[j] < v.geo.blocks
  {
    DataBlock(v.geo, fs, i, j);
  }

  lemma ChunkFacts(v0: Vol, v1: Vol, v2: Vol, fs0: Fs, fs1: Fs, i: nat, j: nat, fPos: nat, bytes: seq<byte>)
    requires Rep(v1, fs1) && i in fs0.nodes && i in fs1.nodes && j < |fs1.nodes[i].blocks| && bytes != []
    requires fPos / BLOCK == j && fPos % BLOCK + |bytes| <= BLOCK
    requires fs1.nodes[i].blocks[j] < v1.geo.blocks
    requires v2 == PutBytes(v1, fs1.nodes[i].blocks[j], fPos - j * BLOCK, bytes)
    requires Rep(v0, fs0) && OthersKept(v0, v1, fs0, i) && (v1.geo == v0.geo)
    requires OwnersKept(fs0, fs1, i)
    requires OnDisk(v0.disk, fs0.nodes[i].blocks) && OnDisk(v1.disk, fs1.nodes[i].blocks)
    requires |fs0.nodes[i].blocks| <= |fs1.nodes[i].blocks|
    requires Flat(v1.disk, fs1.nodes[i].blocks)[..BLOCK * |fs0.nodes[i].blocks|] == Flat(v0.disk, fs0.nodes[i].blocks)
    ensures Rep(v2, fs1) && OthersKept(v0, v2, fs0, i) && OnDisk(v2.disk, fs1.nodes[i].blocks)
    ensures Overlaid(Flat(v0.disk, fs0.nodes[i].blocks), Flat(v2.disk, fs1.nodes[i].blocks), fPos, bytes)
  {
    hide Elems, NoDup, ServiceSynced, BitsRep, FdsRep, ListsRep;
    var bl := fs1.nodes[i].blocks;
    DataBlock(v1.geo, fs1, i, j);
    DataRep(v1, v2, fs1, bl[j]);
    BlocksOnDisk(v1, fs1, i);
    FlatPoke(v1.disk, bl, j, fPos - j * BLOCK, bytes);
    OverlaidSplice(Flat(v0.disk, fs0.nodes[i].blocks), Flat(v1.disk, bl), fPos, bytes);
  }

  lemma OverlaidSplice(flat: seq<byte>, flat1: seq<byte>, pos: nat, d: seq<byte>)
    requires |flat| <= |flat1| && flat1[..|flat|] == flat && pos + |d| <= |flat1|
    ensures Overlaid(flat, Splice(flat1, pos, d), pos, d)
  {
  }

  /** The state of file_write's loop once done is written. */
  ghost predicate Writing(v0: Vol, v: Vol, fs0: Fs, fs: Fs, i: nat, p: nat, done: seq<byte>)
  {
    && i in fs0.nodes && i in fs.nodes && v.geo == v0.geo
    && fs.nodes == fs0.nodes[i := fs0.nodes[i].(blocks := fs.nodes[i].blocks)]
    && |fs.nodes[i].blocks| == |fs0.nodes[i].blocks| + Needed(|fs0.nodes[i].blocks|, p, |done|)
    && Room(v.geo, fs) == Room(v.geo, fs0) - Needed(|fs0.nodes[i].blocks|, p, |done|)
    && OthersKept(v0, v, fs0, i) && OwnersKept(fs0, fs, i)
    && OnDisk(v.disk, fs.nodes[i].blocks)
    && |BytesOf(v0.disk, fs0.nodes[i])| == fs0.nodes[i].size && p / BLOCK <= |fs0.nodes[i].blocks|
    && Overlaid(BytesOf(v0.disk, fs0.nodes[i]), Flat(v.disk, fs.nodes[i].blocks), p, done)
  }

  lemma StartWrite(v: Vol, fs: Fs, i: nat, p: nat)
    requires Rep(v, fs) && i in fs.nodes && p / BLOCK <= |fs.nodes[i].blocks|
    ensures Writing(v, v, fs, fs, i, p, [])
  {
    hide Rep;
    BlocksOnDisk(v, fs, i);
    KeptSelf(v, fs, i);
  }

  lemma ChunkFits(v0: Vol, v: Vol, fs0: Fs, fs: Fs, i: nat, p: nat, buf: seq<byte>, done: nat, d: nat)
    requires done <= |buf| && Writing(v0, v, fs0, fs, i, p, buf[..done]) && Rep(v0, fs0)
    requires 0 < d && done + d <= |buf| && (p + done) % BLOCK + d <= BLOCK
    ensures (p + done) / BLOCK <= |fs.nodes[i].blocks|
    ensures (p + done) / BLOCK == |fs.nodes[i].blocks| && ((p + done) / BLOCK == MAX_BLOCKS || Room(v.geo, fs) == 0) ==>
      Starved(Room(v.geo, fs0), |fs0.nodes[i].blocks|, p, |buf|)
  {
    hide Rep, Needed, Room, OthersKept, OwnersKept, Flat, OnDisk, Written, BytesOf;
    var n := fs0.nodes[i];
    BlocksOnDisk(v0, fs0, i);
    NeededStep(|n.blocks|, p, done, d);
    NeededMono(|n.blocks|, p, done + d, |buf|);
  }

  lemma AllFits(v0: Vol, v: Vol, fs0: Fs, fs: Fs, i: nat, p: nat, buf: seq<byte>)
    requires Writing(v0, v, fs0, fs, i, p, buf) && Rep(v0, fs0)
    requires Rep(v, fs) && !Astray(|fs0.nodes[i].blocks|, p, |buf|)
    ensures !Starved(Room(v.geo, fs0), |fs0.nodes[i].blocks|, p, |buf|)
  {
    hide Rep, Needed, Room, OthersKept, OwnersKept, Flat, OnDisk, Written, BytesOf;
    BlocksOnDisk(v0, fs0, i);
    BlocksOnDisk(v, fs, i);
    RoomIsFree(v, fs);
  }

  lemma WritingStep(v0: Vol, v1: Vol, v2: Vol, fs0: Fs, fs1: Fs, fs2: Fs, i: nat, p: nat, done: seq<byte>, d: seq<byte>)
    requires Writing(v0, v1, fs0, fs1, i, p, done) && i in fs2.nodes && v2.geo == v1.geo && d != []
    requires fs2.nodes == fs1.nodes[i := fs1.nodes[i].(blocks := fs2.nodes[i].blocks)]
    requires |fs2.nodes[i].blocks| == Max(|fs1.nodes[i].blocks|, (p + |done|) / BLOCK + 1)
    requires (p + |done|) % BLOCK + |d| <= BLOCK
    requires Room(v2.geo, fs2) == Room(v2.geo, fs1) - (|fs2.nodes[i].blocks| - |fs1.nodes[i].blocks|)
    requires OthersKept(v1, v2, fs1, i) && OwnersKept(fs1, fs2, i)
    requires OnDisk(v2.disk, fs2.nodes[i].blocks)
    requires Overlaid(Flat(v1.disk, fs1.nodes[i].blocks), Flat(v2.disk, fs2.nodes[i].blocks), p + |done|, d)
    ensures Writing(v0, v2, fs0, fs2, i, p, done + d)
  {
    hide Needed, Room, OthersKept, OwnersKept, OnDisk, Written, BytesOf, Overlaid;
    var n := fs0.nodes[i];
    KeptTrans(v0, v1, v2, fs0, fs1, fs2, i);
    NeededStep(|n.blocks|, p, |done|, |d|);
    var flat, flat' := Flat(v1.disk, fs1.nodes[i].blocks), Flat(v2.disk, fs2.nodes[i].blocks);
    assert |flat| == BLOCK * |fs1.nodes[i].blocks|;
    WriteMore(flat, flat', BytesOf(v0.disk, n), p, done, d);
    assert p + |done + d| == p + |done| + |d|;
  }

  /** What the file holds between its old end and the position of the write. */
  ghost function Hole(v: Vol, fs: Fs, i: nat, size: nat, p: nat): seq<byte>
    requires i in fs.nodes && OnDisk(v.disk, fs.nodes[i].blocks) && Max(size, p) <= BLOCK * |fs.nodes[i].blocks|
  {
    Flat(v.disk, fs.nodes[i].blocks)[size..Max(size, p)]
  }

  lemma EndWrite(v0: Vol, v: Vol, fs0: Fs, fs: Fs, i: nat, p: nat, buf: seq<byte>, size: nat)
    requires Writing(v0, v, fs0, fs, i, p, buf) && Rep(v0, fs0) && Rep(v, fs) && v.inodes == v0.inodes
    requires size == Max(fs0.nodes[i].size, p + |buf|) && !Astray(|fs0.nodes[i].blocks|, p, |buf|)
    ensures i < v.geo.files && i in v.inodes && v.inodes[i].(size := size).Fits()
    ensures Max(fs0.nodes[i].size, p) <= BLOCK * |fs.nodes[i].blocks|
    ensures var v', fs' := PutFd(v, i, v.inodes[i].(size := size)), Resized(fs, i, size, fs.nodes[i].links);
      && Rep(v', fs') && Room(v.geo, fs') == Room(v.geo, fs)
      && TreeOf(v', fs') ==
           TreeWritten(TreePadded(TreeOf(v0, fs0), i, Hole(v, fs, i, fs0.nodes[i].size, p)), i, p, buf)
      && fs'.nodes == fs0.nodes[i := fs'.nodes[i]]
      && fs'.nodes[i] == fs0.nodes[i].(blocks := fs'.nodes[i].blocks, size := size)
      && |fs'.nodes[i].blocks| == |fs0.nodes[i].blocks| + Needed(|fs0.nodes[i].blocks|, p, |buf|)
      && Room(v.geo, fs) == Room(v.geo, fs0) - Needed(|fs0.nodes[i].blocks|, p, |buf|)
  {
    hide Rep, Needed, Written, Max, FdBytes, ServiceSynced, OthersKept, OwnersKept, Flat, OnDisk, ItemOf, Overlaid;
    hide Hole, TreePadded, TreeWritten;
    var n := fs.nodes[i];
    NodeAt(v, fs, i);
    BlocksOnDisk(v, fs, i);
    WritingSize(v0, v, fs0, fs, i, p, buf);
    ResizeRep(v, fs, i, size, n.links);
    var fd := v.inodes[i].(size := size);
    var v', fs' := PutFd(v, i, fd), Resized(fs, i, size, n.links);
    PutFdKeeps(v, fs, i, fd);
    KeptTrans(v0, v, v', fs0, fs, fs', i);
    TreeFrame(v0, v', fs0, fs', i);
    FinalItem(v0, v, fs0, fs, i, p, buf, size, v'.disk);
  }

  lemma FinalItem(v0: Vol, v: Vol, fs0: Fs, fs: Fs, i: nat, p: nat, buf: seq<byte>, size: nat, disk: Blocks)
    requires Writing(v0, v, fs0, fs, i, p, buf) && size == Max(fs0.nodes[i].size, p + |buf|)
    requires Max(fs0.nodes[i].size, p) <= BLOCK * |fs.nodes[i].blocks| && size <= BLOCK * |fs.nodes[i].blocks|
    requires OnDisk(disk, fs.nodes[i].blocks) && Flat(disk, fs.nodes[i].blocks) == Flat(v.disk, fs.nodes[i].blocks)
    ensures
      TreeWritten(TreePadded(TreeOf(v0, fs0), i, Hole(v, fs, i, fs0.nodes[i].size, p)), i, p, buf) ==
        TreeOf(v0, fs0)[i := ItemOf(disk, fs.nodes[i].(size := size))]
  {
    hide OthersKept, OwnersKept, Room, Needed, Overlaid, Written, Flat;
    OverlaidWritten(BytesOf(v0.disk, fs0.nodes[i]), Flat(v.disk, fs.nodes[i].blocks), p, buf);
  }

  lemma WritingSize(v0: Vol, v: Vol, fs0: Fs, fs: Fs, i: nat, p: nat, buf: seq<byte>)
    requires Writing(v0, v, fs0, fs, i, p, buf) && !Astray(|fs0.nodes[i].blocks|, p, |buf|)
    ensures Max(fs0.nodes[i].size, p) <= Max(fs0.nodes[i].size, p + |buf|) <= BLOCK * |fs.nodes[i].blocks|
  {
    hide OthersKept, OwnersKept, Room, Needed, Flat;
  }

  lemma FreeBlock(v: Vol, fs: Fs)
    requires Rep(v, fs)
    ensures FirstClear(v.bmap, 0, v.geo.blocks) == v.geo.blocks <==> Room(v.geo, fs) == 0
  {
    hide TestBit, Room, ServiceSynced, NodesOk, OwnersOk, BitsRep, FdsRep, ListsRep;
    RoomIsFree(v, fs);
  }

  /** After one turn the files are fs'. */
  ghost predicate TurnDone(v: Vol, v': Vol, fs: Fs, fs': Fs, i: nat, fPos: nat, bytes: seq<byte>)
    requires i in fs.nodes
  {
    && Rep(v', fs') && v'.geo == v.geo && i in fs'.nodes
    && fs'.nodes == fs.nodes[i := fs.nodes[i].(blocks := fs'.nodes[i].blocks)]
    && |fs'.nodes[i].blocks| == Max(|fs.nodes[i].blocks|, fPos / BLOCK + 1)
    && Room(v.geo, fs') == Room(v.geo, fs) - (|fs'.nodes[i].blocks| - |fs.nodes[i].blocks|)
    && OthersKept(v, v', fs, i) && OwnersKept(fs, fs', i)
    && OnDisk(v.disk, fs.nodes[i].blocks) && OnDisk(v'.disk, fs'.nodes[i].blocks)
    && Overlaid(Flat(v.disk, fs.nodes[i].blocks), Flat(v'.disk, fs'.nodes[i].blocks), fPos, bytes)
  }

  lemma SmallWord(count: nat)
    requires count < MAX_BLOCKS
    ensures (count + 1) % WORD_LIMIT == count + 1
  {
  }

  lemma AddsAppend(v: Vol, home: nat, count: nat)
    requires Framed(v) && home < v.geo.blocks && ListWord(v.disk[home], 0) == count < MAX_BLOCKS
    requires FirstClear(v.bmap, 0, v.geo.blocks) < v.geo.blocks
    ensures AddBlock(v, home, count) == Some(Append(v, home, count, FirstClear(v.bmap, 0, v.geo.blocks)))
  {
    hide ListWord, MarkBlock, PutBytes, TestBit, Word, WordBytes, FirstClear, Framed;
    SmallWord(count);
  }

  /** The block that the turn adds, if it adds one. */
  lemma TurnAdds(v: Vol, fs: Fs, i: nat, k: nat) returns (v1: Vol, fs1: Fs)
    requires Rep(v, fs) && i in fs.nodes && k == |fs.nodes[i].blocks| < MAX_BLOCKS && Room(v.geo, fs) > 0
    ensures fs.nodes[i].home < v.geo.blocks && AddBlock(v, fs.nodes[i].home, k) == Some(v1)
    ensures Rep(v1, fs1) && v1.geo == v.geo && Room(v.geo, fs1) == Room(v.geo, fs) - 1
    ensures i in fs1.nodes && |fs1.nodes[i].blocks| == |fs.nodes[i].blocks| + 1
    ensures fs1.nodes == fs.nodes[i := fs.nodes[i].(blocks := fs1.nodes[i].blocks)]
    ensures OthersKept(v, v1, fs, i) && OwnersKept(fs, fs1, i)
    ensures OnDisk(v.disk, fs.nodes[i].blocks) && OnDisk(v1.disk, fs1.nodes[i].blocks)
    ensures Flat(v1.disk, fs1.nodes[i].blocks)[..BLOCK * |fs.nodes[i].blocks|] == Flat(v.disk, fs.nodes[i].blocks)
  {
    hide Rep, TestBit, Room, ListWord, AddBlock, Append, OthersKept, OwnersKept, Flat, OnDisk;
    NodeAt(v, fs, i);
    FreeBlock(v, fs);
    AddsAppend(v, fs.nodes[i].home, |fs.nodes[i].blocks|);
    var b := FirstClear(v.bmap, 0, v.geo.blocks);
    v1, fs1 := Append(v, fs.nodes[i].home, |fs.nodes[i].blocks|, b), Extend(fs, i, b);
    Appended(v, v1, fs, i, b);
  }

  lemma TurnSane(v: Vol, fs: Fs, i: nat, fPos: nat, bytes: seq<byte>) returns (fs': Fs)
    requires Rep(v, fs) && i in fs.nodes && bytes != [] && fPos % BLOCK + |bytes| <= BLOCK
    requires fPos / BLOCK <= |fs.nodes[i].blocks|
    ensures fs.nodes[i].home < v.geo.blocks
    ensures var r := Turn(v, fs.nodes[i].home, fPos, bytes); var k := fPos / BLOCK;
      && (r.None? <==> k == |fs.nodes[i].blocks| && (k == MAX_BLOCKS || Room(v.geo, fs) == 0))
      && (r.Some? ==> TurnDone(v, r.value, fs, fs', i, fPos, bytes))
  {
    hide Rep, Room, ListWord, AddBlock, OthersKept, OwnersKept, Flat, OnDisk, Overlaid, NoDup;
    NodeAt(v, fs, i);
    FreeBlock(v, fs);
    BlocksOnDisk(v, fs, i);
    KeptSelf(v, fs, i);
    RoomIsFree(v, fs);
    var home, k := fs.nodes[i].home, fPos / BLOCK;
    var v1, fs1 := v, fs;
    fs' := fs;
    if k == |fs.nodes[i].blocks| {
      if k == MAX_BLOCKS || Room(v.geo, fs) == 0 {
        NoBlockToAdd(v, home, k);
        return;
      }
      v1, fs1 := TurnAdds(v, fs, i, k);
    }
    fs' := fs1;
    NodeAt(v1, fs1, i);
    BlocksOnDisk(v1, fs1, i);
    BlockAt(v1, fs1, i, k);
    ChunkFacts(v, v1, PutBytes(v1, fs1.nodes[i].blocks[k], fPos - k * BLOCK, bytes), fs, fs1, i, k, fPos, bytes);
  }

  lemma NoBlockToAdd(v: Vol, home: nat, k: nat)
    requires Framed(v) && home < v.geo.blocks
    requires k >= MAX_BLOCKS || FirstClear(v.bmap, 0, v.geo.blocks) == v.geo.blocks
    ensures AddBlock(v, home, k) == None
  {
  }

  lemma WritingFacts(v0: Vol, v: Vol, fs0: Fs, fs: Fs, i: nat, p: nat, done: seq<byte>)
    requires Writing(v0, v, fs0, fs, i, p, done)
    ensures i in fs0.nodes && i in fs.nodes && v.geo == v0.geo && fs.nodes[i].home == fs0.nodes[i].home
  {
  }

  lemma WritingGoesOn(v0: Vol, v1: Vol, v2: Vol, fs0: Fs, fs1: Fs, fs2: Fs, i: nat, p: nat, done: seq<byte>,
                      d: seq<byte>)
    requires Writing(v0, v1, fs0, fs1, i, p, done) && i in fs1.nodes && d != [] && (p + |done|) % BLOCK + |d| <= BLOCK
    requires TurnDone(v1, v2, fs1, fs2, i, p + |done|, d)
    ensures Rep(v2, fs2) && Writing(v0, v2, fs0, fs2, i, p, done + d)
  {
    hide Rep, Room, OthersKept, OwnersKept, Flat, OnDisk, Overlaid, BytesOf, Needed;
    WritingStep(v0, v1, v2, fs0, fs1, fs2, i, p, done, d);
  }

  lemma RepFramed(v: Vol, fs: Fs, i: nat)
    requires Rep(v, fs) && i in fs.nodes
    ensures Framed(v) && fs.nodes[i].home < v.geo.blocks
  {
    hide Framed;
    HomeOf(v, fs, i);
  }

  /** The loop over the bytes of buf from done on, one turn further. */
  lemma TurnsStep(v: Vol, home: nat, p: nat, buf: seq<byte>, done: nat)
    requires Framed(v) && home < v.geo.blocks && done <= |buf|
    ensures done == |buf| ==> Turns(v, home, p + done, buf[done..]) == Some(v)
    ensures done < |buf| ==>
      var d := Chunk(p + done, |buf| - done); var r := Turn(v, home, p + done, buf[done..done + d]);
      Turns(v, home, p + done, buf[done..]) ==
        if r.None? then None else Turns(r.value, home, p + done + d, buf[done + d..])
  {
    hide Turn, Framed;
    if done < |buf| {
      var d := Chunk(p + done, |buf| - done);
      assert buf[done..][..d] == buf[done..done + d] && buf[done..][d..] == buf[done + d..];
    }
  }

  lemma {:induction false} TurnsSane(v0: Vol, v: Vol, fs0: Fs, fs: Fs, i: nat, p: nat, buf: seq<byte>, done: nat)
      returns (fs': Fs)
    requires done <= |buf| && Rep(v0, fs0) && Rep(v, fs) && Writing(v0, v, fs0, fs, i, p, buf[..done])
    requires i in fs0.nodes && !Astray(|fs0.nodes[i].blocks|, p, |buf|)
    ensures Framed(v) && fs0.nodes[i].home < v.geo.blocks
    ensures var r := Turns(v, fs0.nodes[i].home, p + done, buf[done..]);
      && (r.None? <==> Starved(Room(v0.geo, fs0), |fs0.nodes[i].blocks|, p, |buf|))
      && (r.Some? ==> Rep(r.value, fs') && Writing(v0, r.value, fs0, fs', i, p, buf))
    decreases |buf| - done
  {
    hide Rep, Framed, Room, Turn, Turns, TurnDone, Writing, Starved, Needed, Astray;
    WritingFacts(v0, v, fs0, fs, i, p, buf[..done]);
    RepFramed(v0, fs0, i);
    RepFramed(v, fs, i);
    TurnsStep(v, fs0.nodes[i].home, p, buf, done);
    fs' := fs;
    if done == |buf| {
      assert buf[..done] == buf;
      AllFits(v0, v, fs0, fs, i, p, buf);
    } else {
      var d := Chunk(p + done, |buf| - done);
      ChunkFits(v0, v, fs0, fs, i, p, buf, done, d);
      var bytes := buf[done..done + d];
      assert buf[..done] + bytes == buf[..done + d];
      fs' := TurnSane(v, fs, i, p + done, bytes);
      var r := Turn(v, fs0.nodes[i].home, p + done, bytes);
      if r.Some? {
        WritingGoesOn(v0, v, r.value, fs0, fs, fs', i, p, buf[..done], bytes);
        fs' := TurnsSane(v0, r.value, fs0, fs', i, p, buf, done + d);
      }
    }
  }

  /** After the whole write the files are fs': the file's bytes, filled up to the position
      with hole, have buf spliced in. */
  ghost predicate WriteDone(v: Vol, v': Vol, fs: Fs, fs': Fs, i: nat, p: nat, buf: seq<byte>, hole: seq<byte>)
  {
    && Rep(v', fs') && v'.geo == v.geo && i in fs.nodes && i in fs'.nodes
    && |hole| == (if p > fs.nodes[i].size then p - fs.nodes[i].size else 0)
    && TreeOf(v', fs') == TreeWritten(TreePadded(TreeOf(v, fs), i, hole), i, p, buf)
    && Room(v.geo, fs') == Room(v.geo, fs) - Needed(|fs.nodes[i].blocks|, p, |buf|)
    && fs'.nodes == fs.nodes[i := fs'.nodes[i]]
    && |fs'.nodes[i].blocks| == |fs.nodes[i].blocks| + Needed(|fs.nodes[i].blocks|, p, |buf|)
    && fs'.nodes[i] ==
         fs.nodes[i].(blocks := fs'.nodes[i].blocks, size := Max(fs.nodes[i].size, p + |buf|))
  }

  lemma NotStarvedEnd(room: int, count: nat, p: nat, len: nat)
    requires p < WORD_LIMIT && !Starved(room, count, p, len)
    ensures (p + len) % WORD_LIMIT == p + len
  {
  }

  /** At such a position the write fails exactly for want of blocks or entries, and does
      what it should otherwise. */
  lemma WriteSane(v: Vol, fs: Fs, i: nat, p: nat, buf: seq<byte>) returns (fs': Fs, hole: seq<byte>)
    requires Rep(v, fs) && i in fs.nodes && p < WORD_LIMIT && !Astray(|fs.nodes[i].blocks|, p, |buf|)
    ensures Writable(v, i)
    ensures var r := WriteFile(v, i, p, buf);
      && (r.None? <==> Starved(Room(v.geo, fs), |fs.nodes[i].blocks|, p, |buf|))
      && (r.Some? ==> WriteDone(v, r.value, fs, fs', i, p, buf, hole))
  {
    hide Rep, Room, Turns, TreeOf, TreeWritten, TreePadded, Writing, Starved, Needed, Flat, OnDisk;
    NodeAt(v, fs, i);
    StartWrite(v, fs, i, p);
    assert buf[..0] == [] && buf[0..] == buf;
    fs' := TurnsSane(v, v, fs, fs, i, p, buf, 0);
    hole := [];
    var r := Turns(v, fs.nodes[i].home, p, buf);
    if r.Some? {
      NotStarvedEnd(Room(v.geo, fs), |fs.nodes[i].blocks|, p, |buf|);
      WritingFacts(v, r.value, fs, fs', i, p, buf);
      EndWrite(v, r.value, fs, fs', i, p, buf, Max(fs.nodes[i].size, p + |buf|));
      BlocksOnDisk(r.value, fs', i);
      hole := Hole(r.value, fs', i, fs.nodes[i].size, p);
      fs' := Resized(fs', i, Max(fs.nodes[i].size, p + |buf|), fs'.nodes[i].links);
    }
  }

  /** Within the file there is no hole. */
  lemma DoneInside(v: Vol, v': Vol, fs: Fs, fs': Fs, i: nat, p: nat, buf: seq<byte>, hole: seq<byte>)
    requires WriteDone(v, v', fs, fs', i, p, buf, hole) && p <= fs.nodes[i].size
    ensures TreeOf(v', fs') == TreeWritten(TreeOf(v, fs), i, p, buf)
    ensures i in fs'.nodes && fs'.nodes == fs.nodes[i := fs'.nodes[i]]
    ensures |fs'.nodes[i].blocks| == |fs.nodes[i].blocks| + Needed(|fs.nodes[i].blocks|, p, |buf|)
    ensures fs'.nodes[i].size == Max(fs.nodes[i].size, p + |buf|) && fs'.nodes[i].links == fs.nodes[i].links
    ensures Room(v.geo, fs') == Room(v.geo, fs) - Needed(|fs.nodes[i].blocks|, p, |buf|)
  {
    hide Rep, TreeOf, TreePadded, TreeWritten, Room, Needed;
    PaddedNone(TreeOf(v, fs), i);
  }

  lemma DoneUse(v: Vol, v': Vol, fs: Fs, fs': Fs, i: nat, p: nat, buf: seq<byte>, hole: seq<byte>)
    requires WriteDone(v, v', fs, fs', i, p, buf, hole)
    ensures UseOf(v.geo, fs') == UseWritten(UseOf(v.geo, fs), i, p, |buf|)
  {
    hide Rep, TreeOf, TreePadded, TreeWritten, Room, Needed;
  }
}
