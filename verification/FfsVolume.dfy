/** fs/ffs.c: a mounted volume. Buffers are the device's blocks; every sync is part of
    the write it follows. */
module FfsVolume {
  import opened Options
  import opened Bytes
  import opened Sequences
  import opened FfsFormat
  import opened FfsContents
  import opened FfsModel
  import opened FfsSteps
  import opened FfsTree
  import opened FfsWriting
  import opened FfsAstray
  import opened FfsDirs
  import opened FfsLinks
  import opened FfsNames
  import opened FfsRemount

  lemma ChunksNil(flat: seq<byte>, size: nat, offset: nat, max: nat)
    requires size <= |flat| && |flat| % BLOCK == 0
    ensures Chunks(flat, size, offset, max, 0).0 == [] + Chunks(flat, size, offset, max, 0).0
  {
  }

  lemma ChunkIs(flat: seq<byte>, size: nat, offset: nat, max: nat, got: nat, block: seq<byte>)
    requires size <= |flat| && |flat| % BLOCK == 0 && got < max && offset < size && |block| == BLOCK
    requires BLOCK * (offset / BLOCK) + BLOCK <= |flat|
    requires flat[BLOCK * (offset / BLOCK)..BLOCK * (offset / BLOCK) + BLOCK] == block
    ensures var len := Min(Min(size - offset, BLOCK - offset % BLOCK), max);
      && 0 < len <= BLOCK
      && Chunks(flat, size, offset, max, got) ==
           (block[..len] + Chunks(flat, size, offset + len, max, got + len).0,
            Chunks(flat, size, offset + len, max, got + len).1)
  {
    var len := Min(Min(size - offset, BLOCK - offset % BLOCK), max);
    var start := BLOCK * (offset / BLOCK);
    InBlock(flat, size, offset);
    assert flat[start..start + len] == flat[start..start + BLOCK][..len];
  }

  lemma WholeRead(disk: Blocks, n: Node, offset: nat)
    requires OnDisk(disk, n.blocks) && n.size <= BLOCK * |n.blocks| && (offset == 0 || offset == n.size)
    ensures Chunks(Flat(disk, n.blocks), n.size, offset, n.size, 0) ==
      if offset == n.size then ([], offset) else (BytesOf(disk, n), n.size)
    ensures |BytesOf(disk, n)| == n.size
  {
    if offset == 0 { ChunksAligned(Flat(disk, n.blocks), n.size, 0, n.size, 0); }
  }

  /** The inode list holds exactly the files. */
  lemma Listed(v: Vol, fs: Fs)
    requires Rep(v, fs)
    ensures forall i: nat :: i in v.inodes <==> i in TreeOf(v, fs)
  {
    hide FdAt, TestBit;
    forall i: nat ensures i in v.inodes <==> i in TreeOf(v, fs) { assert FdRep(v, fs, i); }
  }

  lemma NothingNeeded(v: Vol, fs: Fs, i: nat, pos: nat, len: nat)
    requires Rep(v, fs) && i in fs.nodes && pos + len <= fs.nodes[i].size
    ensures Needed(|fs.nodes[i].blocks|, pos, len) == 0 && !Starved(Room(v.geo, fs), |fs.nodes[i].blocks|, pos, len)
    ensures !Astray(|fs.nodes[i].blocks|, pos, len)
  {
    hide Rep;
    BlocksOnDisk(v, fs, i);
    RoomIsFree(v, fs);
  }

  lemma InsideNotAstray(v: Vol, fs: Fs, i: nat, pos: nat, len: nat)
    requires Rep(v, fs) && i in fs.nodes && pos <= fs.nodes[i].size
    ensures !Astray(|fs.nodes[i].blocks|, pos, len) && pos % WORD_LIMIT == pos
  {
    hide Rep;
    BlocksOnDisk(v, fs, i);
  }

  lemma RoomResized(geo: Geometry, fs: Fs, i: nat, size: nat, links: nat)
    requires i in fs.nodes
    ensures Room(geo, Resized(fs, i, size, links)) == Room(geo, fs)
  {
  }

  lemma RestSplit(buf: seq<byte>, a: nat, n: nat)
    requires a + n <= |buf|
    ensures buf[a..][..n] == buf[a..a + n] && buf[a..][n..] == buf[a + n..]
  {
  }

  predicate FdsTaken(geo: Geometry, fs: Fs)
  {
    forall i :: 0 <= i < geo.files ==> i in fs.nodes
  }

  lemma UseAdded(geo: Geometry, fs: Fs, fs': Fs, i: nat)
    requires i !in fs.nodes && i in fs'.nodes && fs'.nodes == fs.nodes[i := fs'.nodes[i]]
    requires fs'.nodes[i].blocks == [] && Room(geo, fs') == Room(geo, fs) - 1
    ensures UseOf(geo, fs') == Use(UseOf(geo, fs).held[i := 0], Room(geo, fs) - 1)
  {
    hide Room;
  }

  lemma UseResized(geo: Geometry, fs: Fs, i: nat, size: nat, links: nat)
    requires i in fs.nodes
    ensures UseOf(geo, Resized(fs, i, size, links)) == UseOf(geo, fs)
  {
    hide Room;
    RoomResized(geo, fs, i, size, links);
  }

  lemma UseCut(geo: Geometry, fs: Fs, fs': Fs, d: nat)
    requires d in fs.nodes && d in fs'.nodes && fs'.nodes == fs.nodes[d := fs'.nodes[d]]
    requires |fs'.nodes[d].blocks| == |fs.nodes[d].blocks| && Room(geo, fs') == Room(geo, fs)
    ensures UseOf(geo, fs') == UseOf(geo, fs)
  {
    hide Room;
  }

  lemma UseErased(geo: Geometry, fs: Fs, fs': Fs, i: nat)
    requires i in fs.nodes && fs'.nodes == fs.nodes - {i}
    requires Room(geo, fs') == Room(geo, fs) + |fs.nodes[i].blocks| + 1
    ensures UseOf(geo, fs') == UseRemoved(UseOf(geo, fs), i)
  {
    hide Room;
  }

  lemma FdBits(v: Vol, fs: Fs)
    requires Rep(v, fs)
    ensures FdsTaken(v.geo, fs) <==> forall i: nat :: i < v.geo.files && i < 8 * |v.fmap| ==> TestBit(v.fmap, i)
    ensures forall i: nat :: i < v.geo.files && i < 8 * |v.fmap| ==> (TestBit(v.fmap, i) <==> i in fs.nodes)
  {
    hide TestBit;
    forall i: nat | i < v.geo.files ensures i < 8 * |v.fmap| && (TestBit(v.fmap, i) <==> i in fs.nodes) {
      BitInPage(v.geo, i);
      assert FdRep(v, fs, i);
    }
  }

  lemma LeastFreeIs(v: Vol, fs: Fs, i: nat)
    requires i < v.geo.files && i !in fs.nodes && forall k: nat :: k < i ==> k in fs.nodes
    ensures !FdsTaken(v.geo, fs) && LeastFree(fs.nodes.Keys, v.geo.files, 0) == i
  {
    assert LeastFree(fs.nodes.Keys, v.geo.files, 0) <= i || i in fs.nodes;
  }

  lemma MarkFdBits(v: Vol, i: nat)
    requires Framed(v) && i < v.geo.files
    ensures MarkFd(v, i).bmap == v.bmap
  {
  }

  lemma ClearAllNone(v: Vol)
    requires Sized(v)
    ensures ClearAll(v, []) == v
  {
  }

  /** Clearing bits leaves the datablock being read alone. */
  lemma ListStays(v: Vol, fs: Fs, i: nat, k: nat)
    requires Rep(v, fs) && i in fs.nodes && k < |fs.nodes[i].blocks| <= MAX_BLOCKS
    requires forall j :: 0 <= j < |fs.nodes[i].blocks| ==> fs.nodes[i].blocks[j] < v.geo.blocks
    ensures v.geo.Service() <= fs.nodes[i].home < v.geo.blocks
    ensures var w := ClearAll(v, fs.nodes[i].blocks[..k]);
      |w.disk| == |v.disk| && |w.disk[fs.nodes[i].home]| == BLOCK
      && ListWord(w.disk[fs.nodes[i].home], k + 1) == fs.nodes[i].blocks[k]
      && ClearAll(v, fs.nodes[i].blocks[..k + 1]) == ClearBlock(w, fs.nodes[i].blocks[k])
  {
    hide BitsRep, FdsRep, NodesOk, OwnersOk, ListsRep, TestBit;
    NodeAt(v, fs, i);
    ClearAllOnly(v, fs.nodes[i].blocks[..k]);
    ClearAllStep(v, fs.nodes[i].blocks, k);
  }

  lemma ClearAllStep(v: Vol, bl: seq<nat>, k: nat)
    requires Sized(v) && k < |bl| && forall j :: 0 <= j < |bl| ==> bl[j] < v.geo.blocks
    ensures ClearAll(v, bl[..k + 1]) == ClearBlock(ClearAll(v, bl[..k]), bl[k])
  {
    assert bl[..k + 1][..k] == bl[..k];
  }

  lemma FilesAre(v: Vol, fs: Fs)
    ensures forall i: nat :: i in TreeOf(v, fs) <==> i in fs.nodes
  {
  }

  class Volume {
    const geo: Geometry
    const disk: array<seq<byte>>
    const bBitmask: array<byte>
    const fdBitmask: array<byte>
    var inodes: map<nat, Fd>
    ghost var fs: Fs

    ghost function V(): Vol
      reads this, disk, bBitmask, fdBitmask
    {
      Vol(geo, disk[..], bBitmask[..], fdBitmask[..], inodes)
    }

    ghost predicate Whole()
      reads this, disk, bBitmask, fdBitmask
    {
      bBitmask != fdBitmask && Framed(V())
    }

    ghost predicate Ready()
      reads this, disk, bBitmask, fdBitmask
    {
      Whole() && Rep(V(), fs)
    }

    /** The bitmaps in memory are as long as the geometry says. */
    predicate Blank()
    {
      bBitmask != fdBitmask && bBitmask.Length == MapLen(geo.blocks) && fdBitmask.Length == MapLen(geo.files)
    }

    /** The tables of a volume that is about to be read: buffers of zeros and no inode. */
    constructor (disk: array<seq<byte>>, geo: Geometry, ghost fs: Fs)
      ensures this.disk == disk && this.geo == geo && this.fs == fs && fresh(bBitmask) && fresh(fdBitmask)
      ensures Blank() && inodes == map[]
      ensures forall k :: 0 <= k < bBitmask.Length ==> bBitmask[k] == 0
      ensures forall k :: 0 <= k < fdBitmask.Length ==> fdBitmask[k] == 0
    {
      this.geo, this.disk, this.fs := geo, disk, fs;
      bBitmask := new byte[(geo.blocks + 7) / 8](_ => 0);
      fdBitmask := new byte[(geo.files + 7) / 8](_ => 0);
      inodes := map[];
    }

    /** ffs_read_root: both bitmaps, then an inode for each descriptor whose bit is set.
        The fault is a copy that leaves its buffer, or a block that the device does not
        have. */
    method ReadRoot() returns (fault: bool)
      requires Blank() && Formed(disk[..]) && disk.Length > 0 && inodes == map[]
      requires forall k :: 0 <= k < bBitmask.Length ==> bBitmask[k] == 0
      requires forall k :: 0 <= k < fdBitmask.Length ==> fdBitmask[k] == 0
      modifies bBitmask, fdBitmask, this`inodes
      ensures fault <==> MountStrays(geo) || geo.Service() > disk.Length
      ensures !fault ==> V() == Mounted(geo, disk[..])
    {
      hide Strays;
      fault := ReadBitmap(bBitmask, 1, geo.bPages);
      if fault { return; }
      fault := ReadBitmap(fdBitmask, geo.FdPages(), geo.fPages);
      if fault { return; }
      fault := ReadDescriptors();
    }

    /** ffs_fill_super: nothing without the magic, else a volume read from the device. If
        the device was left by volume v with files fs, that volume is back. */
    static method Mount(disk: array<seq<byte>>, ghost v: Vol, ghost fs: Fs) returns (w: Option<Volume>, fault: bool)
      requires disk.Length > 0 && Formed(disk[..])
      ensures fault <==>
        && InfoAt(disk[0]).Some?
        && (MountStrays(InfoAt(disk[0]).value) || InfoAt(disk[0]).value.Service() > disk.Length)
      ensures w.Some? <==> InfoAt(disk[0]).Some? && !fault
      ensures w.Some? ==> fresh(w.value) && w.value.disk == disk && w.value.fs == fs
      ensures w.Some? ==> fresh(w.value.bBitmask) && fresh(w.value.fdBitmask)
      ensures w.Some? ==> w.value.V() == Mounted(InfoAt(disk[0]).value, disk[..])
      ensures w.Some? && Readable(InfoAt(disk[0]).value, disk[..]) ==> w.value.Whole()
      ensures Rep(v, fs) && v.disk == disk[..] ==> (fault <==> v.geo.bPages > 1 || v.geo.fPages > 1)
      ensures Rep(v, fs) && v.disk == disk[..] && !fault ==> w.Some? && w.value.V() == v && w.value.Ready()
    {
      hide InfoAt, Mounted, Rep, Strays, Framed;
      if Rep(v, fs) && v.disk == disk[..] {
        RemountIdentity(v, fs);
        ReadableLoads(v.geo, v.disk);
      }
      var info := InfoAt(disk[0]);
      if info.None? {
        return None, false;
      }
      var vol := new Volume(disk, info.value, fs);
      fault := vol.ReadRoot();
      w := if fault then None else Some(vol);
    }

    /** The loops of ffs_read_root over the descriptors. */
    method ReadDescriptors() returns (fault: bool)
      requires Formed(disk[..]) && geo.FdList() <= disk.Length && inodes == map[]
      requires fdBitmask.Length == MapLen(geo.files)
      modifies this`inodes
      ensures fault <==> geo.Service() > disk.Length
      ensures !fault ==> inodes == Inodes(geo, disk[..], fdBitmask[..], SlotCount(geo))
    {
      hide Inodes, TestBit;
      ghost var v := disk[..];
      if geo.Service() <= disk.Length { InodesNone(geo, v, fdBitmask[..]); }
      var index := 0;
      for i := 0 to geo.fdBlocks
        invariant index == (if 32 * i < geo.files then 32 * i else geo.files) && geo.FdList() + i <= disk.Length
        invariant geo.Service() <= disk.Length ==> inodes == Inodes(geo, disk[..], fdBitmask[..], index)
      {
        if geo.FdList() + i >= disk.Length {
          return true;
        }
        for j := 0 to 32
          invariant index == if 32 * i + j < geo.files then 32 * i + j else geo.files
          invariant geo.Service() <= disk.Length ==> inodes == Inodes(geo, disk[..], fdBitmask[..], index)
        {
          if index < geo.files {
            if geo.Service() <= disk.Length { InodesStep(geo, v, fdBitmask[..], index); }
            SlotOf(index, i, j);
            if Bit(fdBitmask[index / 8], index % 8) {
              inodes := inodes[index := FdAt(disk[geo.FdList() + i], 16 * j)];
            }
            index := index + 1;
          }
        }
      }
      return false;
    }

    /** The loop of ffs_read_root that copies a bitmap's pages into memory. */
    method ReadBitmap(bm: array<byte>, base: nat, pages: nat) returns (fault: bool)
      requires Formed(disk[..]) && base <= disk.Length
      requires forall k :: 0 <= k < bm.Length ==> bm[k] == 0
      modifies bm
      ensures fault <==> Strays(bm.Length, pages) || base + pages > disk.Length
      ensures !fault ==> bm[..] == Loaded(disk[..], base, pages, bm.Length)
    {
      hide PageStrays;
      var copied: int := 0;
      for i := 0 to pages
        invariant copied == Offset(bm.Length, i) && forall j :: 0 <= j < i ==> !PageStrays(bm.Length, j)
        invariant base + i <= disk.Length
        invariant forall k :: 0 <= k < bm.Length ==> bm[k] == if i > 0 && k < BLOCK then disk[base][k] else 0
      {
        if base + i >= disk.Length {
          return true;
        }
        PageStraysAt(bm.Length, i);
        var toCopy := bm.Length - copied;
        toCopy := if toCopy >= BLOCK then BLOCK else toCopy;
        if toCopy > 0 && (copied < 0 || copied + toCopy > bm.Length) {
          return true;
        }
        for k := 0 to toCopy
          invariant forall j :: 0 <= j < bm.Length ==> bm[j] == if j < k then disk[base + i][j] else old(bm[j])
        {
          bm[copied + k] := disk[base + i][k];
        }
        copied := copied - toCopy;
      }
      return false;
    }

    /** memcpy into the buffer of block b. */
    method Copy(b: nat, off: nat, bytes: seq<byte>)
      requires Whole() && b < geo.blocks && off + |bytes| <= BLOCK
      modifies disk
      ensures Whole() && V() == PutBytes(old(V()), b, off, bytes)
    {
      disk[b] := Splice(disk[b], off, bytes);
    }

    /** ffs_write_b_bitmask */
    method WriteBBitmask(i: nat)
      requires Whole() && i < geo.blocks
      modifies disk
      ensures i < 8 * bBitmask.Length && 1 + PageOfBit(i) < disk.Length
      ensures Whole() && V() == old(V()).(disk := Flush(old(disk[..]), 1, bBitmask[..], i))
    {
      BitPlaced(geo, i);
      var page := i / 8 / BLOCK;
      var len := bBitmask.Length - page * BLOCK;
      len := if len > BLOCK then BLOCK else len;
      disk[1 + page] := Splice(disk[1 + page], 0, bBitmask[page * BLOCK..page * BLOCK + len]);
    }

    /** ffs_write_fd_bitmask */
    method WriteFdBitmask(i: nat)
      requires Whole() && i < geo.files
      modifies disk
      ensures i < 8 * fdBitmask.Length && geo.FdPages() + PageOfBit(i) < disk.Length
      ensures Whole() && V() == old(V()).(disk := Flush(old(disk[..]), geo.FdPages(), fdBitmask[..], i))
    {
      BitPlaced(geo, i);
      var page := i / 8 / BLOCK;
      var len := fdBitmask.Length - page * BLOCK;
      len := if len > BLOCK then BLOCK else len;
      disk[geo.FdPages() + page] := Splice(disk[geo.FdPages() + page], 0, fdBitmask[page * BLOCK..page * BLOCK + len]);
    }

    /** ffs_get_empty_block: the number of the first free block plus one, or 0. */
    method GetEmptyBlock() returns (r: nat)
      requires Whole()
      modifies disk, bBitmask
      ensures Whole() && V() == Grab(old(V()))
      ensures geo.blocks <= 8 * |old(bBitmask[..])|
      ensures var b := FirstClear(old(bBitmask[..]), 0, geo.blocks); r == if b < geo.blocks then b + 1 else 0
      ensures r == 0 ==>
        V() == old(V()) && forall b: nat :: b < geo.blocks && b < 8 * bBitmask.Length ==> TestBit(bBitmask[..], b)
      ensures r > 0 ==> r - 1 < geo.blocks && V() == MarkBlock(old(V()), r - 1)
      ensures r > 0 ==> r - 1 < 8 * |old(bBitmask[..])| && !TestBit(old(bBitmask[..]), r - 1)
      ensures r > 0 ==> forall b: nat :: b < r - 1 && b < 8 * |old(bBitmask[..])| ==> TestBit(old(bBitmask[..]), b)
    {
      hide Flush, Bit, Or, PageOfBit, FdBlock, Formed, FirstClear;
      for i := 0 to geo.blocks
        invariant V() == old(V())
        invariant forall b: nat :: b < i && b < 8 * bBitmask.Length ==> TestBit(bBitmask[..], b)
      {
        BitPlaced(geo, i);
        if !Bit(bBitmask[i / 8], i % 8) {
          bBitmask[i / 8] := Or(bBitmask[i / 8], i % 8);
          assert bBitmask[..] == WithBit(old(bBitmask[..]), i);
          WriteBBitmask(i);
          FirstClearIs(old(bBitmask[..]), geo.blocks, i);
          return i + 1;
        }
      }
      FirstClearIs(bBitmask[..], geo.blocks, geo.blocks);
      return 0;
    }

    /** ffs_get_empty_fd */
    method GetEmptyFd() returns (r: nat)
      requires Whole()
      modifies disk, fdBitmask
      ensures Whole()
      ensures r == 0 ==>
        V() == old(V()) && forall i: nat :: i < geo.files && i < 8 * fdBitmask.Length ==> TestBit(fdBitmask[..], i)
      ensures r > 0 ==> r - 1 < geo.files && V() == MarkFd(old(V()), r - 1)
      ensures r > 0 ==> r - 1 < 8 * |old(fdBitmask[..])| && !TestBit(old(fdBitmask[..]), r - 1)
      ensures r > 0 ==> forall i: nat :: i < r - 1 && i < 8 * |old(fdBitmask[..])| ==> TestBit(old(fdBitmask[..]), i)
    {
      hide Flush, Bit, Or, PageOfBit, FdBlock, Formed;
      for i := 0 to geo.files
        invariant V() == old(V())
        invariant forall b: nat :: b < i && b < 8 * fdBitmask.Length ==> TestBit(fdBitmask[..], b)
      {
        BitPlaced(geo, i);
        if !Bit(fdBitmask[i / 8], i % 8) {
          fdBitmask[i / 8] := Or(fdBitmask[i / 8], i % 8);
          assert fdBitmask[..] == WithBit(old(fdBitmask[..]), i);
          WriteFdBitmask(i);
          return i + 1;
        }
      }
      return 0;
    }

    /** ffs_write_inode, after a change of the descriptor in memory to fd. */
    method WriteInode(i: nat, fd: Fd)
      requires Whole() && i < geo.files && fd.Fits()
      modifies disk, this`inodes
      ensures Whole() && V() == PutFd(old(V()), i, fd)
    {
      hide FdBytes, PageOfBit;
      inodes := inodes[i := fd];
      BitPlaced(geo, i);
      var fdPerBlock := BLOCK / 16;
      var block := geo.FdList() + i / fdPerBlock;
      var posInBlock := 16 * i - (i / fdPerBlock) * 16 * fdPerBlock;
      assert posInBlock == FdPos(i);
      disk[block] := Splice(disk[block], posInBlock, FdBytes(fd));
    }

    /** The part of file_write's loop that adds a block. The fault is an entry written
        behind the datablock, or the number of no block, which cannot be read. */
    method AppendBlock(home: nat, k: nat) returns (fault: bool)
      requires Whole() && home < geo.blocks
      modifies disk, bBitmask
      ensures fault <==> AddBlock(old(V()), home, k) == None
      ensures !fault ==> Whole() && Some(V()) == AddBlock(old(V()), home, k)
    {
      hide TestBit, Flush, ListWord, MarkBlock, FirstClear, Poke;
      ghost var v0 := V();
      var count := ListWord(disk[home], 0);
      Copy(home, 0, WordBytes((count + 1) % WORD_LIMIT));
      var b := GetEmptyBlock();
      if k + 1 > MAX_BLOCKS {
        return true;
      }
      if b == 0 {
        Copy(home, 4 * (k + 1), WordBytes(WORD_LIMIT - 1));
        return true;
      }
      Copy(home, 4 * (k + 1), WordBytes(b - 1));
      return false;
    }

    /** One turn of file_write's loop. */
    method WriteChunk(home: nat, fPos: nat, bytes: seq<byte>) returns (fault: bool)
      requires Whole() && home < geo.blocks && fPos % BLOCK + |bytes| <= BLOCK
      modifies disk, bBitmask
      ensures fault <==> Turn(old(V()), home, fPos, bytes) == None
      ensures !fault ==> Whole() && Some(V()) == Turn(old(V()), home, fPos, bytes)
    {
      hide ListWord, AddBlock, Poke;
      var blockIndex := fPos / BLOCK;
      if blockIndex + 1 > ListWord(disk[home], 0) {
        fault := AppendBlock(home, blockIndex);
        if fault { return; }
      }
      if blockIndex + 1 > MAX_BLOCKS {
        return true;
      }
      var last := ListWord(disk[home], blockIndex + 1);
      if last >= geo.blocks {
        return true;
      }
      Copy(last, fPos - blockIndex * BLOCK, bytes);
      fault := false;
    }

    /** The loop of file_write. */
    method WriteAll(home: nat, p: nat, buf: seq<byte>) returns (fault: bool)
      requires Whole() && home < geo.blocks
      modifies disk, bBitmask
      ensures fault <==> Turns(old(V()), home, p, buf) == None
      ensures !fault ==> Whole() && Some(V()) == Turns(old(V()), home, p, buf)
    {
      hide Turn, Formed;
      ghost var v0 := V();
      var copyLeft, fPos: nat := |buf|, p;
      assert buf[0..] == buf;
      while copyLeft > 0
        invariant 0 <= copyLeft <= |buf| && Whole() && inodes == v0.inodes
        invariant Turns(v0, home, p, buf) == Turns(V(), home, fPos, buf[|buf| - copyLeft..])
      {
        var blockIndex := fPos / BLOCK;
        var rem := (blockIndex + 1) * BLOCK - fPos;
        var toCopy := if copyLeft < rem then copyLeft else rem;
        assert toCopy == Chunk(fPos, copyLeft);
        RestSplit(buf, |buf| - copyLeft, toCopy);
        fault := WriteChunk(home, fPos, buf[|buf| - copyLeft..|buf| - copyLeft + toCopy]);
        if fault { return; }
        copyLeft := copyLeft - toCopy;
        fPos := fPos + toCopy;
      }
      assert buf[|buf|..] == [];
      fault := false;
    }

    /** file_write: at pos, or at the end with O_APPEND; positions are cut to a word.
        Returns the new position. The fault comes when the device has too few free blocks
        or the file too many. Otherwise the volume is consistent again exactly when the
        position leaves out no block. Between its old end and the position the file then
        holds whatever its blocks held. */
    method FileWrite(i: nat, buf: seq<byte>, pos: nat, append: bool)
        returns (pos': nat, fault: bool, ghost hole: seq<byte>)
      requires Ready() && i in fs.nodes
      modifies disk, bBitmask, this`inodes, this`fs
      ensures Writable(old(V()), i)
      ensures var n := old(fs).nodes[i]; var p := if append then n.size else pos % WORD_LIMIT;
        && (fault <==> Starved(Room(geo, old(fs)), |n.blocks|, p, |buf|))
        && (fault <==> WriteFile(old(V()), i, p, buf) == None)
        && (!fault ==> Whole() && Some(V()) == WriteFile(old(V()), i, p, buf))
        && (!fault ==> pos' == if buf == [] then pos else p + |buf|)
        && (!fault && !Astray(|n.blocks|, p, |buf|) ==>
              Ready() && WriteDone(old(V()), V(), old(fs), fs, i, p, buf, hole))
        && (!fault && Astray(|n.blocks|, p, |buf|) ==>
              LeftAstray(old(V()), V(), n, i, p, buf) && forall fs': Fs :: !Agrees(V(), fs'))
    {
      hide Rep, Agrees, Room, Turns, Starved, Astray, Framed, Formed, FdBytes, ListWord, LeftAstray, WriteDone;
      hide WriteFile, PutFd;
      ghost var v0 := V();
      NodeAt(v0, fs, i);
      var p := if append then inodes[i].size else pos % WORD_LIMIT;
      ghost var fs';
      fs', hole := WriteFate(v0, fs, i, p, buf);
      WriteFileIs(v0, i, p, buf);
      pos' := pos;
      fault := WriteAll(inodes[i].datablock, p, buf);
      if fault { return; }
      var fPos := (p + |buf|) % WORD_LIMIT;
      pos' := if buf == [] then pos else fPos;
      var size := if fPos < inodes[i].size then inodes[i].size else fPos;
      WriteInode(i, inodes[i].(size := size));
      fs := fs';
    }

    /** file_read: what is copied out from position offset on, and the new position. */
    method FileRead(i: nat, max: nat, offset: nat) returns (out: seq<byte>, offset': nat)
      requires Ready() && i in fs.nodes
      ensures OnDisk(disk[..], fs.nodes[i].blocks)
      ensures fs.nodes[i].size <= BLOCK * |fs.nodes[i].blocks|
      ensures (out, offset') == Chunks(Flat(disk[..], fs.nodes[i].blocks), fs.nodes[i].size, offset, max, 0)
    {
      hide Rep, ListWord, OnDisk, Flat, Chunks, NoDup;
      ghost var v := V();
      NodeAt(v, fs, i);
      BlocksOnDisk(v, fs, i);
      ghost var flat, size := Flat(v.disk, fs.nodes[i].blocks), fs.nodes[i].size;
      out, offset' := [], offset;
      ChunksNil(flat, size, offset, max);
      while |out| < max
        invariant Chunks(flat, size, offset, max, 0).0 == out + Chunks(flat, size, offset', max, |out|).0
        invariant Chunks(flat, size, offset, max, 0).1 == Chunks(flat, size, offset', max, |out|).1
        decreases if offset' < size then size - offset' else 0
      {
        var blockIndex := offset' / BLOCK;
        var blockOffset := offset' - blockIndex * BLOCK;
        var tillEnd := inodes[i].size - blockIndex * BLOCK - blockOffset;
        if tillEnd <= 0 {
          break;
        }
        InBlock(flat, size, offset');
        FlatAt(v.disk, fs.nodes[i].blocks, blockIndex);
        BlockAt(v, fs, i, blockIndex);
        var blockNum := ListWord(disk[inodes[i].datablock], blockIndex + 1);
        var able := BLOCK - blockOffset;
        able := if tillEnd < able then tillEnd else able;
        var len := if able <= max then able else max;
        ChunkIs(flat, size, offset', max, |out|, disk[blockNum]);
        out := out + disk[blockNum][..len];
        offset' := offset' + len;
      }
      ChunksStop(flat, size, offset', max, |out|);
      assert out + [] == out;
    }

    /** The callers' loop that reads a whole file into a buffer of its size. */
    method ReadWhole(i: nat) returns (content: seq<byte>)
      requires Ready() && i in fs.nodes
      ensures i in TreeOf(V(), fs) && content == TreeOf(V(), fs)[i].bytes
    {
      hide Rep, OnDisk, Flat, Chunks, Formed;
      NodeAt(V(), fs, i);
      ghost var size := fs.nodes[i].size;
      content := seq(inodes[i].size, _ => 0);
      var offset, more := 0, true;
      while more
        invariant |content| == size && (offset == 0 || (offset == size && content == BytesOf(disk[..], fs.nodes[i])))
        invariant !more ==> content == BytesOf(disk[..], fs.nodes[i])
        decreases if more then 1 + size - offset else 0
      {
        var out, offset' := FileRead(i, inodes[i].size, offset);
        WholeRead(disk[..], fs.nodes[i], offset);
        content := out + content[|out|..];
        offset, more := offset', out != [];
      }
    }

    /** A changed size or link count, written out. */
    method SetInode(i: nat, size: nat, links: nat)
      requires Ready() && i in fs.nodes && size <= fs.nodes[i].size && links < WORD_LIMIT
      modifies disk, this`inodes, this`fs
      ensures Ready() && TreeOf(V(), fs) == TreeSet(old(TreeOf(V(), fs)), i, size, links)
      ensures fs == Resized(old(fs), i, size, links)
    {
      hide Rep, TreeSet, TreeOf, FdBytes;
      NodeAt(V(), fs, i);
      SetTree(V(), fs, i, size, links);
      WriteInode(i, inodes[i].(size := size, links := links));
      fs := Resized(fs, i, size, links);
    }

    /** add_to_dir */
    method AddToDir(d: nat, i: nat, name: Name, junk: seq<byte>) returns (fault: bool)
      requires Ready() && d in fs.nodes && Addable(i + 1, name, junk)
      modifies disk, bBitmask, this`inodes, this`fs
      ensures fault <==> Starved(Room(geo, old(fs)), |old(fs).nodes[d].blocks|, old(fs).nodes[d].size, ENTRY)
      ensures d in old(TreeOf(V(), fs))
      ensures !fault ==> Ready() && TreeOf(V(), fs) == TreeAdd(old(TreeOf(V(), fs)), d, i + 1, name, junk)
      ensures !fault ==> d in fs.nodes && fs.nodes == old(fs).nodes[d := fs.nodes[d]]
      ensures !fault ==> UseOf(geo, fs) == UseWritten(UseOf(geo, old(fs)), d, old(fs).nodes[d].size, ENTRY)
    {
      hide Rep, TreeOf, EntryBytes, Room, Needed, Starved, WriteDone, LeftAstray, Astray, Agrees;
      hide UseOf, UseWritten;
      ItemAt(V(), fs, d);
      InsideNotAstray(V(), fs, d, fs.nodes[d].size, ENTRY);
      ghost var v0, fs0 := V(), fs;
      var pos;
      ghost var hole;
      pos, fault, hole := FileWrite(d, EntryBytes(i + 1, name, junk), 0, true);
      if !fault {
        DoneInside(v0, V(), fs0, fs, d, fs0.nodes[d].size, EntryBytes(i + 1, name, junk), hole);
        DoneUse(v0, V(), fs0, fs, d, fs0.nodes[d].size, EntryBytes(i + 1, name, junk), hole);
      }
    }

    /** ffs_iget */
    method Iget(i: int) returns (found: bool)
      requires Ready()
      ensures found <==> i >= 0 && i in TreeOf(V(), fs)
    {
      hide Rep;
      Listed(V(), fs);
      found := i >= 0 && i in inodes;
    }

    /** ffs_lookup */
    method LookUp(d: nat, name: Name) returns (r: Lookup)
      requires Ready() && d in fs.nodes
      ensures r == TreeLookup(TreeOf(V(), fs), d, name)
    {
      hide Rep, TreeOf, Entries, Seek, EntryAt, Formed, BytesOf;
      ghost var t := TreeOf(V(), fs);
      NodeAt(V(), fs, d);
      ItemAt(V(), fs, d);
      if inodes[d].kind != DIR {
        return NotDirectory;
      }
      var content := ReadWhole(d);
      var k := 0;
      while k < inodes[d].size / ENTRY
        invariant k <= |content| / ENTRY
        invariant Seek(Entries(content), name, t.Keys, 0) == Seek(Entries(content), name, t.Keys, k)
      {
        SeekStep(content, name, t.Keys, k);
        if EntryAt(content, k).name == name {
          var found := Iget(EntryAt(content, k).fd - 1);
          if found {
            return Found(EntryAt(content, k).fd - 1);
          }
        }
        k := k + 1;
      }
      SeekEnd(content, name, t.Keys);
      return Negative;
    }

    /** The body of remove_from_dir's loop, for the entry found at position k. */
    method CutEntry(d: nat, k: nat, content: seq<byte>)
      requires Ready() && d in fs.nodes && content == BytesOf(disk[..], fs.nodes[d]) && ENTRY * k + ENTRY <= |content|
      modifies disk, bBitmask, this`inodes, this`fs
      ensures Ready() && d in old(TreeOf(V(), fs)) && ENTRY * k + ENTRY <= |old(TreeOf(V(), fs))[d].bytes|
      ensures TreeOf(V(), fs) == TreeCut(old(TreeOf(V(), fs)), d, k)
      ensures d in fs.nodes && fs.nodes == old(fs).nodes[d := fs.nodes[d]]
      ensures |fs.nodes[d].blocks| == |old(fs).nodes[d].blocks|
      ensures Room(geo, fs) == Room(geo, old(fs))
    {
      hide Rep, TreeOf, TreeCut, TreeSet, TreeWritten, Room, Needed, WriteDone, LeftAstray, Astray, Agrees;
      hide Starved, Framed, Formed, ListWord, WriteFile;
      ghost var t := TreeOf(V(), fs);
      NodeAt(V(), fs, d);
      ItemAt(V(), fs, d);
      var size := inodes[d].size;
      NothingNeeded(V(), fs, d, ENTRY * k, size - ENTRY * (k + 1));
      InsideNotAstray(V(), fs, d, ENTRY * k, |content| - ENTRY * k - ENTRY);
      ghost var v0, fs0, hole := V(), fs, [];
      var pos, fault;
      pos, fault, hole := FileWrite(d, content[ENTRY * k + ENTRY..], ENTRY * k, false);
      DoneInside(v0, V(), fs0, fs, d, ENTRY * k, content[ENTRY * k + ENTRY..], hole);
      NodeAt(V(), fs, d);
      ShiftedDown(t, d, k, inodes[d].links);
      ghost var fs1 := fs;
      SetInode(d, size - ENTRY, inodes[d].links);
      RoomResized(geo, fs1, d, size - ENTRY, fs1.nodes[d].links);
    }

    /** remove_from_dir */
    method RemoveFromDir(d: nat, name: Name)
      requires Ready() && d in fs.nodes
      modifies disk, bBitmask, this`inodes, this`fs
      ensures Ready() && d in old(TreeOf(V(), fs))
      ensures TreeOf(V(), fs) == TreeCutName(old(TreeOf(V(), fs)), d, name)
      ensures d in fs.nodes && fs.nodes == old(fs).nodes[d := fs.nodes[d]]
      ensures |fs.nodes[d].blocks| == |old(fs).nodes[d].blocks| && Room(geo, fs) == Room(geo, old(fs))
    {
      hide Rep, TreeOf, Entries, TreeCutName, Room, EntryAt;
      ghost var t := TreeOf(V(), fs);
      NodeAt(V(), fs, d);
      ItemAt(V(), fs, d);
      var content := ReadWhole(d);
      var size := inodes[d].size;
      for k := 0 to size / ENTRY
        invariant V() == old(V()) && fs == old(fs)
        invariant forall j :: 0 <= j < k ==> EntryAt(content, j).name != name
      {
        if EntryAt(content, k).name == name {
          CutEntry(d, k, content);
          CutNameIs(t, d, name, k);
          return;
        }
      }
      CutNameNone(t, d, name);
    }

    /** The part of create_entry up to ffs_write_inode: a descriptor, an empty datablock
        and an inode. An unknown kind of file, which no caller passes, would cost a descriptor. */
    method NewInode(kind: nat) returns (r: Option<nat>, fault: bool)
      requires Ready()
      modifies disk, bBitmask, fdBitmask, this`inodes, this`fs
      ensures fault <==> !FdsTaken(geo, old(fs)) && kind <= SLINK && Room(geo, old(fs)) == 0
      ensures r.Some? <==> !FdsTaken(geo, old(fs)) && kind <= SLINK && !fault
      ensures FdsTaken(geo, old(fs)) ==> V() == old(V()) && fs == old(fs)
      ensures !FdsTaken(geo, old(fs)) ==> LeastFree(old(fs).nodes.Keys, geo.files, 0) < geo.files
      ensures !FdsTaken(geo, old(fs)) && kind > SLINK ==>
        V() == MarkFd(old(V()), LeastFree(old(fs).nodes.Keys, geo.files, 0))
      ensures r.Some? ==>
        Ready() && r.value == LeastFree(old(fs).nodes.Keys, geo.files, 0) < geo.files && r.value !in old(fs).nodes
      ensures r.Some? ==> TreeOf(V(), fs) == old(TreeOf(V(), fs))[r.value := Item(kind, 1, [])]
      ensures r.Some? ==> r.value in fs.nodes && fs.nodes == old(fs).nodes[r.value := fs.nodes[r.value]]
      ensures r.Some? ==> Room(geo, fs) == Room(geo, old(fs)) - 1 && fs.nodes[r.value].blocks == []
    {
      hide Rep, TreeOf, TestBit, Flush, PageOfBit, MarkBlock, MarkFd, FdsTaken, Formed, FdBytes, Room, LeastFree;
      ghost var v0 := V();
      FdBits(v0, fs);
      RoomIsFree(v0, fs);
      var f := GetEmptyFd();
      if f == 0 {
        return None, false;
      }
      var i := f - 1;
      LeastFreeIs(v0, fs, i);
      MarkFdBits(v0, i);
      if kind > SLINK {
        return None, false;
      }
      var b := GetEmptyBlock();
      if b == 0 {
        return None, true;
      }
      InitInode(i, b - 1, kind, v0);
      return Some(i), false;
    }

    /** Its end: datablock b is cleared and the descriptor written. */
    method InitInode(i: nat, b: nat, kind: nat, ghost v0: Vol)
      requires Framed(v0) && Rep(v0, fs) && i < v0.geo.files && i !in fs.nodes && kind <= SLINK
      requires b < v0.geo.blocks && b < 8 * |v0.bmap| && !TestBit(v0.bmap, b)
      requires Whole() && V() == MarkBlock(MarkFd(v0, i), b)
      modifies disk, this`inodes, this`fs
      ensures Ready() && TreeOf(V(), fs) == TreeOf(v0, old(fs))[i := Item(kind, 1, [])]
      ensures fs == Add(old(fs), i, b, kind) && Room(geo, fs) == Room(geo, old(fs)) - 1
    {
      hide Rep, TreeOf, TestBit, MarkBlock, MarkFd, Formed, FdBytes, Room;
      Copy(b, 0, Zeros());
      WriteInode(i, Fd(kind, b, 1, 0));
      assert V() == Create(v0, i, b, kind);
      CreateTree(v0, fs, i, b, kind);
      fs := Add(fs, i, b, kind);
    }

    /** create_entry: the new file's index; None, and nothing done, when no descriptor is
        free. */
    method CreateEntry(d: nat, kind: nat, name: Name, junk: seq<byte>) returns (r: Option<nat>, fault: bool)
      requires Ready() && d in fs.nodes && NameOk(name) && |name| + 5 + |junk| == ENTRY
      modifies disk, bBitmask, fdBitmask, this`inodes, this`fs
      ensures fault <==>
        && !FdsTaken(geo, old(fs)) && kind <= SLINK
        && CreateStarves(Room(geo, old(fs)), |old(fs).nodes[d].blocks|, old(fs).nodes[d].size)
      ensures r.Some? <==> !FdsTaken(geo, old(fs)) && kind <= SLINK && !fault
      ensures FdsTaken(geo, old(fs)) ==> V() == old(V()) && fs == old(fs)
      ensures !FdsTaken(geo, old(fs)) ==> LeastFree(old(fs).nodes.Keys, geo.files, 0) < geo.files
      ensures !FdsTaken(geo, old(fs)) && kind > SLINK ==>
        V() == MarkFd(old(V()), LeastFree(old(fs).nodes.Keys, geo.files, 0))
      ensures r.Some? ==>
        Ready() && r.value == LeastFree(old(fs).nodes.Keys, geo.files, 0) < geo.files && r.value !in old(fs).nodes
      ensures r.Some? ==> d in old(TreeOf(V(), fs)) && Addable(r.value + 1, name, junk)
      ensures r.Some? ==> TreeOf(V(), fs) == TreeCreate(old(TreeOf(V(), fs)), d, r.value, kind, name, junk)
      ensures r.Some? ==> r.value in TreeOf(V(), fs) && TreeOf(V(), fs)[r.value] == Item(kind, 1, [])
      ensures r.Some? ==> UseOf(geo, fs) == UseCreated(UseOf(geo, old(fs)), d, r.value, old(fs).nodes[d].size)
    {
      hide Rep, TreeOf, Needed, TreeAdd, FdsTaken, Formed, Room, LeastFree, MarkFd;
      ghost var fs0 := fs;
      NodeAt(V(), fs, d);
      ItemAt(V(), fs, d);
      RoomIsFree(V(), fs);
      r, fault := NewInode(kind);
      if r.Some? {
        UseAdded(geo, fs0, fs, r.value);
        AddSpares(TreeOf(V(), fs), d, r.value, name, junk);
        fault := AddToDir(d, r.value, name, junk);
        if fault { return None, true; }
      }
    }

    /** ffs_link: another name for file i. */
    method LinkFile(i: nat, d: nat, name: Name, junk: seq<byte>) returns (fault: bool)
      requires Ready() && d in fs.nodes && i in fs.nodes && i != d && fs.nodes[i].links + 1 < WORD_LIMIT
      requires Addable(i + 1, name, junk)
      modifies disk, bBitmask, this`inodes, this`fs
      ensures fault <==> Starved(Room(geo, old(fs)), |old(fs).nodes[d].blocks|, old(fs).nodes[d].size, ENTRY)
      ensures d in old(TreeOf(V(), fs)) && i in old(TreeOf(V(), fs))
      ensures !fault ==> Ready() && TreeOf(V(), fs) == TreeLink(old(TreeOf(V(), fs)), d, i, name, junk)
      ensures !fault ==> UseOf(geo, fs) == UseWritten(UseOf(geo, old(fs)), d, old(fs).nodes[d].size, ENTRY)
    {
      hide Rep, TreeOf, EntryBytes, Needed, TreeAdd, Room, TreeSet, Starved, UseOf, UseWritten;
      ghost var t := TreeOf(V(), fs);
      ItemAt(V(), fs, d);
      ItemAt(V(), fs, i);
      fault := AddToDir(d, i, name, junk);
      if fault { return; }
      ghost var t1 := TreeOf(V(), fs);
      NodeAt(V(), fs, i);
      ItemAt(V(), fs, i);
      SetLinks(t1, i, inodes[i].links + 1);
      UseResized(geo, fs, i, inodes[i].size, inodes[i].links + 1);
      SetInode(i, inodes[i].size, inodes[i].links + 1);
    }

    /** ffs_clear_fd */
    method ReleaseFd(i: nat)
      requires Ready() && i in fs.nodes
      modifies disk, bBitmask, fdBitmask
      ensures i < geo.files && fs.nodes[i].home < geo.blocks
      ensures forall j :: 0 <= j < |fs.nodes[i].blocks| ==> fs.nodes[i].blocks[j] < geo.blocks
      ensures Whole()
      ensures V() == ClearFd(ClearBlock(ClearAll(old(V()), fs.nodes[i].blocks), fs.nodes[i].home), i)
    {
      hide Rep, TestBit, Flush, PageOfBit, ListWord, ClearAll, ServiceSynced, Formed, WithoutBit;
      ghost var v0, n := V(), fs.nodes[i];
      NodeAt(v0, fs, i);
      BlocksInRange(v0, fs, i);
      ClearAllNone(v0);
      var home := inodes[i].datablock;
      var len := ListWord(disk[home], 0);
      assert n.blocks[..0] == [];
      for b := 1 to len + 1
        invariant Whole() && V() == ClearAll(v0, n.blocks[..b - 1])
      {
        ListStays(v0, fs, i, b - 1);
        ClearBlockBit(ListWord(disk[home], b));
      }
      assert n.blocks[..len] == n.blocks;
      ClearBlockBit(home);
      ClearFdBit(i);
    }

    /** RESET_BIT in the block bitmap, written out. */
    method ClearBlockBit(b: nat)
      requires Whole() && b < geo.blocks
      modifies disk, bBitmask
      ensures Whole() && V() == ClearBlock(old(V()), b)
    {
      hide Bit, AndNot, Flush, PageOfBit;
      BitPlaced(geo, b);
      bBitmask[b / 8] := AndNot(bBitmask[b / 8], b % 8);
      assert bBitmask[..] == WithoutBit(old(bBitmask[..]), b);
      WriteBBitmask(b);
    }

    method ClearFdBit(i: nat)
      requires Whole() && i < geo.files
      modifies disk, fdBitmask
      ensures Whole() && V() == ClearFd(old(V()), i)
    {
      hide Bit, AndNot, Flush, PageOfBit;
      BitPlaced(geo, i);
      fdBitmask[i / 8] := AndNot(fdBitmask[i / 8], i % 8);
      assert fdBitmask[..] == WithoutBit(old(fdBitmask[..]), i);
      WriteFdBitmask(i);
    }

    /** The last link is gone: ffs_clear_fd, and the inode leaves the list. */
    method EraseFile(i: nat)
      requires Ready() && i in fs.nodes
      modifies disk, bBitmask, fdBitmask, this`inodes, this`fs
      ensures Ready() && TreeOf(V(), fs) == old(TreeOf(V(), fs)) - {i} && fs.nodes == old(fs).nodes - {i}
      ensures Room(geo, fs) == Room(geo, old(fs)) + |old(fs).nodes[i].blocks| + 1
    {
      hide Rep, TreeOf, Room, ClearAll, ClearBlock, ClearFd, Formed;
      EraseTree(V(), fs, i);
      ReleaseFd(i);
      inodes := inodes - {i};
      fs := Removed(fs, i);
    }

    /** ffs_unlink: file i loses its name in directory d, and goes with its last one. */
    method UnlinkFile(d: nat, name: Name, i: nat)
      requires Ready() && Unlinkable(TreeOf(V(), fs), geo.files, d, name, i)
      modifies disk, bBitmask, fdBitmask, this`inodes, this`fs
      ensures Ready() && d in old(TreeOf(V(), fs))
      ensures TreeOf(V(), fs) == TreeUnlink(old(TreeOf(V(), fs)), d, name, i)
      ensures i in old(fs).nodes
      ensures Room(geo, fs) == Room(geo, old(fs)) + if i in fs.nodes then 0 else |old(fs).nodes[i].blocks| + 1
      ensures i in old(TreeOf(V(), fs))
      ensures UseOf(geo, fs) ==
        if old(TreeOf(V(), fs))[i].links == 1 then UseRemoved(UseOf(geo, old(fs)), i) else UseOf(geo, old(fs))
    {
      hide Rep, TreeOf, TreeCutName, TreeDrop, TreeSet, Room, Unlinkable, Erase, TreeOk, DirMap;
      hide TreeUnlink, Formed, Removed, UseOf, UseRemoved;
      ghost var t, fs0 := TreeOf(V(), fs), fs;
      UnlinkFacts(t, geo.files, d, name, i);
      FilesAre(V(), fs);
      RemoveFromDir(d, name);
      UseCut(geo, fs0, fs, d);
      ghost var v1, fs1, t1 := V(), fs, TreeOf(V(), fs);
      NodeAt(v1, fs, i);
      ItemAt(v1, fs, i);
      DropIs(t1, i);
      var links := inodes[i].links - 1;
      if links == 0 {
        EraseFile(i);
        UseErased(geo, fs1, fs, i);
      } else {
        UseResized(geo, fs1, i, inodes[i].size, links);
        SetInode(i, inodes[i].size, links);
        RoomResized(geo, fs1, i, fs1.nodes[i].size, links);
      }
    }

    /** ffs_rmdir: only an empty directory goes. */
    method RemoveDir(d: nat, name: Name, i: nat) returns (ok: bool)
      requires Ready() && TreeOk(TreeOf(V(), fs), geo.files)
      requires IsDir(TreeOf(V(), fs), d) && IsDir(TreeOf(V(), fs), i) && i != 0
      requires name in DirMap(TreeOf(V(), fs), d) && DirMap(TreeOf(V(), fs), d)[name] == i + 1
      modifies disk, bBitmask, fdBitmask, this`inodes, this`fs
      ensures Ready() && d in old(TreeOf(V(), fs)) && i in old(TreeOf(V(), fs))
      ensures ok <==> old(TreeOf(V(), fs))[i].bytes == []
      ensures TreeOf(V(), fs) == if ok then TreeUnlink(old(TreeOf(V(), fs)), d, name, i) else old(TreeOf(V(), fs))
      ensures UseOf(geo, fs) ==
        if ok && old(TreeOf(V(), fs))[i].links == 1 then UseRemoved(UseOf(geo, old(fs)), i) else UseOf(geo, old(fs))
    {
      hide Rep, TreeOf, TreeOk, DirMap, TreeUnlink, UseOf, UseRemoved;
      FilesAre(V(), fs);
      NodeAt(V(), fs, i);
      ItemAt(V(), fs, i);
      if inodes[i].size > 0 {
        return false;
      }
      UnlinkFile(d, name, i);
      return true;
    }
  }
}
