/** The steps that the file system's operations are made of, and that each keeps device
    and memory in agreement. */
module FfsSteps {
  import opened Bytes
  import opened Sequences
  import opened FfsFormat
  import opened FfsModel

  /** What a bitmap step may change: its bitmap and the pages it is kept in. */
  ghost predicate OnlyBlockMap(v: Vol, v': Vol)
  {
    && Sized(v') && |v'.disk| == |v.disk| && v' == v.(bmap := v'.bmap, disk := v'.disk)
    && (forall b :: 0 <= b < |v.disk| && !(1 <= b < v.geo.FdPages()) ==> v'.disk[b] == v.disk[b])
    && (forall p: nat :: p < v.geo.bPages ==> Synced(v'.disk, 1, v'.bmap, p))
  }

  ghost predicate OnlyFdMap(v: Vol, v': Vol)
  {
    && Sized(v') && |v'.disk| == |v.disk| && v' == v.(fmap := v'.fmap, disk := v'.disk)
    && (forall b :: 0 <= b < |v.disk| && !(v.geo.FdPages() <= b < v.geo.FdList()) ==> v'.disk[b] == v.disk[b])
    && (forall p: nat :: p < v.geo.fPages ==> Synced(v'.disk, v.geo.FdPages(), v'.fmap, p))
  }

  lemma MarkBlockOnly(v: Vol, b: nat)
    requires Sized(v) && ServiceSynced(v) && b < v.geo.blocks
    ensures OnlyBlockMap(v, MarkBlock(v, b)) && OnlyBlockMap(v, ClearBlock(v, b))
    ensures forall c: nat :: c < v.geo.blocks && c < 8 * |v.bmap| ==>
      (TestBit(MarkBlock(v, b).bmap, c) <==> c == b || TestBit(v.bmap, c))
    ensures forall c: nat :: c < v.geo.blocks && c < 8 * |v.bmap| ==>
      (TestBit(ClearBlock(v, b).bmap, c) <==> c != b && TestBit(v.bmap, c))
  {
    hide TestBit, Flush, Synced, PageOfBit;
    BitInPage(v.geo, b);
    forall p: nat | p < v.geo.bPages
      ensures Synced(MarkBlock(v, b).disk, 1, MarkBlock(v, b).bmap, p)
      ensures Synced(ClearBlock(v, b).disk, 1, ClearBlock(v, b).bmap, p)
    {
      FlushSyncs(v.disk, 1, v.bmap, WithBit(v.bmap, b), b, p);
      FlushSyncs(v.disk, 1, v.bmap, WithoutBit(v.bmap, b), b, p);
    }
    forall c: nat | c < v.geo.blocks && c < 8 * |v.bmap|
      ensures TestBit(MarkBlock(v, b).bmap, c) <==> c == b || TestBit(v.bmap, c)
      ensures TestBit(ClearBlock(v, b).bmap, c) <==> c != b && TestBit(v.bmap, c)
    {
      BitInPage(v.geo, c);
      BitSet(v.bmap, b, c);
    }
  }

  lemma MarkFdOnly(v: Vol, i: nat)
    requires Sized(v) && ServiceSynced(v) && i < v.geo.files
    ensures OnlyFdMap(v, MarkFd(v, i)) && OnlyFdMap(v, ClearFd(v, i))
    ensures forall c: nat :: c < v.geo.files && c < 8 * |v.fmap| ==>
      (TestBit(MarkFd(v, i).fmap, c) <==> c == i || TestBit(v.fmap, c))
    ensures forall c: nat :: c < v.geo.files && c < 8 * |v.fmap| ==>
      (TestBit(ClearFd(v, i).fmap, c) <==> c != i && TestBit(v.fmap, c))
  {
    hide TestBit, Flush, Synced, PageOfBit;
    BitInPage(v.geo, i);
    forall p: nat | p < v.geo.fPages
      ensures Synced(MarkFd(v, i).disk, v.geo.FdPages(), MarkFd(v, i).fmap, p)
      ensures Synced(ClearFd(v, i).disk, v.geo.FdPages(), ClearFd(v, i).fmap, p)
    {
      FlushSyncs(v.disk, v.geo.FdPages(), v.fmap, WithBit(v.fmap, i), i, p);
      FlushSyncs(v.disk, v.geo.FdPages(), v.fmap, WithoutBit(v.fmap, i), i, p);
    }
    forall c: nat | c < v.geo.files && c < 8 * |v.fmap|
      ensures TestBit(MarkFd(v, i).fmap, c) <==> c == i || TestBit(v.fmap, c)
      ensures TestBit(ClearFd(v, i).fmap, c) <==> c != i && TestBit(v.fmap, c)
    {
      BitInPage(v.geo, c);
      BitSet(v.fmap, i, c);
    }
  }

  // --- Every step keeps device and memory in agreement -----------------

  /** Blocks that hold a file's bytes. */
  ghost predicate IsData(geo: Geometry, fs: Fs, b: nat)
  {
    geo.Service() <= b && forall i :: i in fs.nodes ==> fs.nodes[i].home != b
  }

  lemma SyncedSame(v: Vol, v': Vol)
    requires Sized(v) && ServiceSynced(v) && Sized(v') && v' == v.(disk := v'.disk, inodes := v'.inodes)
    requires forall c :: 0 <= c < |v.disk| && c < v.geo.FdList() ==> c < |v'.disk| && v'.disk[c] == v.disk[c]
    ensures ServiceSynced(v')
  {
    forall p: nat | p < v.geo.bPages ensures Synced(v'.disk, 1, v'.bmap, p) { assert Synced(v.disk, 1, v.bmap, p); }
    forall p: nat | p < v.geo.fPages ensures Synced(v'.disk, v.geo.FdPages(), v'.fmap, p) {
      assert Synced(v.disk, v.geo.FdPages(), v.fmap, p);
    }
  }

  /** Writing into a data block or an unused one touches no table. */
  lemma DataRep(v: Vol, v': Vol, fs: Fs, b: nat)
    requires Rep(v, fs) && Sized(v') && v' == v.(disk := v'.disk) && |v'.disk| == |v.disk|
    requires b < |v.disk| && IsData(v.geo, fs, b)
    requires forall c :: 0 <= c < |v.disk| && c != b ==> v'.disk[c] == v.disk[c]
    ensures Rep(v', fs)
  {
    hide Elems, NoDup, TestBit, ListWord, FdAt;
    SyncedSame(v, v');
    forall c: nat ensures BitRep(v', fs, c) { assert BitRep(v, fs, c); }
    forall i: nat ensures FdRep(v', fs, i) { assert FdRep(v, fs, i) && NodeOk(v.geo, fs, i); BitInPage(v.geo, i); }
    forall i: nat ensures ListRep(v', fs, i) { assert ListRep(v, fs, i); }
  }

  lemma DataBlock(geo: Geometry, fs: Fs, i: nat, j: nat)
    requires NodesOk(geo, fs) && OwnersOk(geo, fs) && i in fs.nodes && j < |fs.nodes[i].blocks|
    ensures IsData(geo, fs, fs.nodes[i].blocks[j]) && fs.nodes[i].blocks[j] < geo.blocks
    ensures fs.nodes[i].blocks[j] in fs.owner && fs.owner[fs.nodes[i].blocks[j]] == i
  {
    var b := fs.nodes[i].blocks[j];
    assert NodeOk(geo, fs, i) && b in Elems(fs.nodes[i].blocks) && OwnerOk(geo, fs, b);
    forall k | k in fs.nodes ensures fs.nodes[k].home != b { assert NodeOk(geo, fs, k); }
  }

  /** File i with block b behind its others. */
  function Extend(fs: Fs, i: nat, b: nat): Fs
    requires i in fs.nodes
  {
    var n := fs.nodes[i];
    Fs(fs.nodes[i := n.(blocks := n.blocks + [b])], fs.owner[b := i])
  }

  /** Taking up an unused block: count, bit and entry, in this order. */
  function Append(v: Vol, home: nat, count: nat, b: nat): (r: Vol)
    requires Framed(v) && home < v.geo.blocks && b < v.geo.blocks && count < MAX_BLOCKS
    ensures Framed(r) && r.geo == v.geo
  {
    var v1 := PutBytes(v, home, 0, WordBytes(count + 1));
    var v2 := MarkBlock(v1, b);
    PutBytes(v2, home, 4 * (count + 1), WordBytes(b))
  }

  /** Same device but for the block bitmap and for the blocks in bs. */
  ghost predicate SameBut(v: Vol, v': Vol, bs: set<nat>)
  {
    && |v'.disk| == |v.disk|
    && forall c :: 0 <= c < |v.disk| && !(1 <= c < v.geo.FdPages()) && c !in bs ==> v'.disk[c] == v.disk[c]
  }

  lemma AppendDisk(v: Vol, home: nat, count: nat, b: nat)
    requires Sized(v) && ServiceSynced(v) && v.geo.Service() <= home < v.geo.blocks
    requires b < v.geo.blocks && count < MAX_BLOCKS
    ensures var v' := Append(v, home, count, b);
      && Sized(v') && ServiceSynced(v') && v' == v.(bmap := v'.bmap, disk := v'.disk) && SameBut(v, v', {home})
      && (forall c: nat :: c < v.geo.blocks && c < 8 * |v.bmap| ==>
            (TestBit(v'.bmap, c) <==> c == b || TestBit(v.bmap, c)))
      && (forall j :: 0 <= j <= MAX_BLOCKS ==>
            ListWord(v'.disk[home], j) ==
              if j == 0 then count + 1 else if j == count + 1 then b else ListWord(v.disk[home], j))
  {
    hide TestBit, Flush, Synced, ListWord, PageOf;
    var v1 := PutBytes(v, home, 0, WordBytes(count + 1));
    SyncedSame(v, v1);
    var v2 := MarkBlock(v1, b);
    MarkBlockOnly(v1, b);
    var v3 := PutBytes(v2, home, 4 * (count + 1), WordBytes(b));
    FdPagesKept(v1, v2);
    SyncedSame(v2, v3);
    assert v1.disk[home] == PutWord(v.disk[home], 0, count + 1);
    assert v3.disk[home] == PutWord(v1.disk[home], count + 1, b);
  }

  lemma FdPagesKept(v: Vol, v': Vol)
    requires Sized(v) && ServiceSynced(v) && OnlyBlockMap(v, v')
    ensures ServiceSynced(v')
  {
    hide Synced;
    forall p: nat | p < v.geo.fPages ensures Synced(v'.disk, v.geo.FdPages(), v'.fmap, p) {
      assert Synced(v.disk, v.geo.FdPages(), v.fmap, p);
      SyncedAt(v.disk, v'.disk, v.geo.FdPages(), v.fmap, p);
    }
  }

  lemma SyncedAt(disk: Blocks, disk': Blocks, base: nat, bm: seq<byte>, p: nat)
    requires Synced(disk, base, bm, p) && |disk'| == |disk| && (base + p < |disk| ==> disk'[base + p] == disk[base + p])
    ensures Synced(disk', base, bm, p)
  {
  }

  lemma Unowned(v: Vol, fs: Fs, b: nat)
    requires Rep(v, fs) && b < v.geo.blocks && b < 8 * |v.bmap| && !TestBit(v.bmap, b)
    ensures v.geo.Service() <= b && b !in fs.owner
    ensures forall i :: i in fs.nodes ==> b != fs.nodes[i].home && b !in Elems(fs.nodes[i].blocks)
  {
    hide Elems, NoDup, TestBit;
    assert BitRep(v, fs, b);
    forall i | i in fs.nodes ensures b != fs.nodes[i].home && b !in Elems(fs.nodes[i].blocks) {
      assert NodeOk(v.geo, fs, i);
    }
  }

  lemma HomeOf(v: Vol, fs: Fs, i: nat)
    requires Rep(v, fs) && i in fs.nodes
    ensures i < v.geo.files && v.geo.Service() <= fs.nodes[i].home < v.geo.blocks
    ensures forall k :: k in fs.nodes && k != i ==> fs.nodes[k].home != fs.nodes[i].home
  {
    assert NodeOk(v.geo, fs, i) && OwnerOk(v.geo, fs, fs.nodes[i].home);
    forall k | k in fs.nodes && k != i ensures fs.nodes[k].home != fs.nodes[i].home { assert NodeOk(v.geo, fs, k); }
  }

  lemma AppendRep(v: Vol, fs: Fs, i: nat, b: nat)
    requires Rep(v, fs) && i in fs.nodes && |fs.nodes[i].blocks| < MAX_BLOCKS
    requires b < v.geo.blocks && b < 8 * |v.bmap| && !TestBit(v.bmap, b)
    ensures fs.nodes[i].home < v.geo.blocks
    ensures Rep(Append(v, fs.nodes[i].home, |fs.nodes[i].blocks|, b), Extend(fs, i, b))
    ensures SameBut(v, Append(v, fs.nodes[i].home, |fs.nodes[i].blocks|, b), {fs.nodes[i].home})
  {
    hide Elems, NoDup, TestBit, ListWord, ListRep, FdAt, Append;
    Unowned(v, fs, b);
    HomeOf(v, fs, i);
    var n := fs.nodes[i];
    AppendDisk(v, n.home, |n.blocks|, b);
    var v', fs' := Append(v, n.home, |n.blocks|, b), Extend(fs, i, b);
    ElemsAppend(n.blocks, b);
    forall k: nat ensures NodeOk(v.geo, fs', k) { assert NodeOk(v.geo, fs, k); }
    forall c: nat ensures OwnerOk(v.geo, fs', c) { assert OwnerOk(v.geo, fs, c); }
    forall c: nat ensures BitRep(v', fs', c) { assert BitRep(v, fs, c); }
    AppendFds(v, v', fs, i, b);
    AppendLists(v, v', fs, i, b);
  }

  lemma AppendLists(v: Vol, v': Vol, fs: Fs, i: nat, b: nat)
    requires Rep(v, fs) && i in fs.nodes && |fs.nodes[i].blocks| < MAX_BLOCKS && Sized(v') && |v'.disk| == |v.disk|
    requires SameBut(v, v', {fs.nodes[i].home}) && v'.geo == v.geo
    requires fs.nodes[i].home < v.geo.blocks
    requires forall j :: 0 <= j <= MAX_BLOCKS ==>
      ListWord(v'.disk[fs.nodes[i].home], j) ==
        if j == 0 then |fs.nodes[i].blocks| + 1
        else if j == |fs.nodes[i].blocks| + 1 then b
        else ListWord(v.disk[fs.nodes[i].home], j)
    ensures ListsRep(v', Extend(fs, i, b))
  {
    hide Elems, NoDup, TestBit, ListWord, FdAt, BitsRep, FdsRep, NodesOk, OwnersOk, ServiceSynced;
    forall k: nat ensures ListRep(v', Extend(fs, i, b), k) {
      assert ListRep(v, fs, k);
      if k in fs.nodes { HomeOf(v, fs, k); }
    }
  }

  lemma AppendFds(v: Vol, v': Vol, fs: Fs, i: nat, b: nat)
    requires Rep(v, fs) && i in fs.nodes && Sized(v') && SameBut(v, v', {fs.nodes[i].home})
    requires v' == v.(bmap := v'.bmap, disk := v'.disk)
    ensures FdsRep(v', Extend(fs, i, b))
  {
    hide Elems, NoDup, TestBit, FdAt;
    HomeOf(v, fs, i);
    forall k: nat ensures FdRep(v', Extend(fs, i, b), k) {
      assert FdRep(v, fs, k) && NodeOk(v.geo, fs, k);
      BitInPage(v.geo, k);
    }
  }

  /** A file's descriptor record changes and no other. */
  lemma PutFdDisk(v: Vol, i: nat, fd: Fd)
    requires Sized(v) && ServiceSynced(v) && i < v.geo.files && fd.Fits()
    ensures ServiceSynced(PutFd(v, i, fd)) && FdBlock(v.geo, i) < v.geo.Service()
    ensures forall k: nat :: k < v.geo.files ==> Record(PutFd(v, i, fd), k) == if k == i then fd else Record(v, k)
  {
    hide FdAt, FdBytes;
    BitInPage(v.geo, i);
    SyncedSame(v, PutFd(v, i, fd));
    forall k: nat | k < v.geo.files
      ensures Record(PutFd(v, i, fd), k) == if k == i then fd else Record(v, k)
    {
      BitInPage(v.geo, k);
      if FdBlock(v.geo, k) == FdBlock(v.geo, i) {
        Slots(i, k);
        FdSpliced(v.disk[FdBlock(v.geo, i)], FdPos(i), fd, FdPos(k));
      }
    }
  }

  /** Records in one block are apart. */
  lemma Slots(i: nat, k: nat)
    requires i / 32 == k / 32
    ensures if i == k then FdPos(k) == FdPos(i) else FdPos(k) + 16 <= FdPos(i) || FdPos(i) + 16 <= FdPos(k)
  {
  }

  function Resized(fs: Fs, i: nat, size: nat, links: nat): Fs
    requires i in fs.nodes
  {
    fs.(nodes := fs.nodes[i := fs.nodes[i].(size := size, links := links)])
  }

  lemma ResizeRep(v: Vol, fs: Fs, i: nat, size: nat, links: nat)
    requires Rep(v, fs) && i in fs.nodes && size <= BLOCK * |fs.nodes[i].blocks| && links < WORD_LIMIT
    ensures i < v.geo.files && fs.nodes[i].(size := size, links := links).Descriptor().Fits()
    ensures Rep(PutFd(v, i, fs.nodes[i].(size := size, links := links).Descriptor()), Resized(fs, i, size, links))
  {
    hide Elems, NoDup, TestBit, FdAt, ListWord, FdBytes;
    assert NodeOk(v.geo, fs, i);
    var fd := fs.nodes[i].(size := size, links := links).Descriptor();
    var v', fs' := PutFd(v, i, fd), Resized(fs, i, size, links);
    PutFdDisk(v, i, fd);
    forall k: nat ensures NodeOk(v.geo, fs', k) { assert NodeOk(v.geo, fs, k); }
    forall c: nat ensures OwnerOk(v.geo, fs', c) { assert OwnerOk(v.geo, fs, c); }
    forall c: nat ensures BitRep(v', fs', c) { assert BitRep(v, fs, c); }
    forall k: nat ensures FdRep(v', fs', k) { assert FdRep(v, fs, k) && NodeOk(v.geo, fs, k); }
    forall k: nat ensures ListRep(v', fs', k) { assert ListRep(v, fs, k); if k in fs.nodes { HomeOf(v, fs, k); } }
  }

  /** A new file without blocks. */
  function Add(fs: Fs, i: nat, b: nat, kind: nat): Fs
  {
    Fs(fs.nodes[i := Node(kind, b, [], 0, 1)], fs.owner[b := i])
  }

  /** create_entry up to ffs_write_inode: descriptor bit, block bit, an empty datablock
      and the descriptor. */
  function Create(v: Vol, i: nat, b: nat, kind: nat): (r: Vol)
    requires Framed(v) && i < v.geo.files && b < v.geo.blocks && kind < WORD_LIMIT
    ensures Framed(r) && r.geo == v.geo
  {
    var v3 := PutBytes(MarkBlock(MarkFd(v, i), b), b, 0, Zeros());
    PutFd(v3, i, Fd(kind, b, 1, 0))
  }

  /** Both bits taken: only bitmaps and their pages change. */
  lemma TakeBits(v: Vol, i: nat, b: nat)
    requires Sized(v) && ServiceSynced(v) && i < v.geo.files && b < v.geo.blocks
    ensures var v' := MarkBlock(MarkFd(v, i), b);
      && ServiceSynced(v') && v'.geo == v.geo && v'.inodes == v.inodes
      && |v'.disk| == |v.disk| && (forall c :: v.geo.FdList() <= c < |v.disk| ==> v'.disk[c] == v.disk[c])
      && (forall c: nat :: c < v.geo.blocks && c < 8 * |v.bmap| ==>
            (TestBit(v'.bmap, c) <==> c == b || TestBit(v.bmap, c)))
      && (forall c: nat :: c < v.geo.files && c < 8 * |v.fmap| ==>
            (TestBit(v'.fmap, c) <==> c == i || TestBit(v.fmap, c)))
  {
    hide TestBit, Flush, Synced, PageOf;
    MarkFdOnly(v, i);
    BlockPagesKept(v, MarkFd(v, i));
    MarkBlockOnly(MarkFd(v, i), b);
    FdPagesKept(MarkFd(v, i), MarkBlock(MarkFd(v, i), b));
  }

  lemma CreateDisk(v: Vol, i: nat, b: nat, kind: nat)
    requires Sized(v) && ServiceSynced(v) && i < v.geo.files && v.geo.Service() <= b < v.geo.blocks && kind < WORD_LIMIT
    ensures var v' := Create(v, i, b, kind);
      && Sized(v') && ServiceSynced(v') && v'.geo == v.geo && v'.inodes == v.inodes[i := Fd(kind, b, 1, 0)]
      && |v'.disk| == |v.disk| && (forall c :: v.geo.Service() <= c < |v.disk| && c != b ==> v'.disk[c] == v.disk[c])
      && (forall c: nat :: c < v.geo.blocks && c < 8 * |v.bmap| ==>
            (TestBit(v'.bmap, c) <==> c == b || TestBit(v.bmap, c)))
      && (forall c: nat :: c < v.geo.files && c < 8 * |v.fmap| ==>
            (TestBit(v'.fmap, c) <==> c == i || TestBit(v.fmap, c)))
      && (forall k: nat :: k < v.geo.files ==> Record(v', k) == if k == i then Fd(kind, b, 1, 0) else Record(v, k))
      && v'.disk[b] == Zeros()
  {
    hide TestBit, Flush, ServiceSynced, FdAt, FdBytes, MarkFd, MarkBlock;
    RegionsApart(v.geo);
    TakeBits(v, i, b);
    var v2 := MarkBlock(MarkFd(v, i), b);
    var v3 := PutBytes(v2, b, 0, Zeros());
    SyncedSame(v2, v3);
    PutFdDisk(v3, i, Fd(kind, b, 1, 0));
    assert v3.disk[b] == Zeros();
  }

  lemma RegionsApart(geo: Geometry)
    requires geo.Ok()
    ensures forall k: nat :: k < geo.files ==> geo.FdList() <= FdBlock(geo, k) < geo.Service()
  {
    forall k: nat | k < geo.files ensures geo.FdList() <= FdBlock(geo, k) < geo.Service() { BitInPage(geo, k); }
  }

  lemma BlockPagesKept(v: Vol, v': Vol)
    requires Sized(v) && ServiceSynced(v) && OnlyFdMap(v, v')
    ensures ServiceSynced(v')
  {
    hide Synced;
    forall p: nat | p < v.geo.bPages ensures Synced(v'.disk, 1, v'.bmap, p) {
      assert Synced(v.disk, 1, v.bmap, p);
      SyncedAt(v.disk, v'.disk, 1, v.bmap, p);
    }
  }

  lemma CreateFds(v: Vol, v': Vol, fs: Fs, i: nat, b: nat, kind: nat)
    requires Rep(v, fs) && i < v.geo.files && i !in fs.nodes && Sized(v') && v'.geo == v.geo
    requires v'.inodes == v.inodes[i := Fd(kind, b, 1, 0)] && |v'.fmap| == |v.fmap|
    requires forall c: nat :: c < v.geo.files && c < 8 * |v.fmap| ==>
      (TestBit(v'.fmap, c) <==> c == i || TestBit(v.fmap, c))
    requires forall k: nat :: k < v.geo.files ==> Record(v', k) == if k == i then Fd(kind, b, 1, 0) else Record(v, k)
    ensures FdsRep(v', Add(fs, i, b, kind))
  {
    hide Elems, NoDup, TestBit, Record, ListsRep, BitsRep, ServiceSynced;
    forall k: nat ensures FdRep(v', Add(fs, i, b, kind), k) { assert FdRep(v, fs, k) && NodeOk(v.geo, fs, k); }
  }

  lemma CreateLists(v: Vol, v': Vol, fs: Fs, i: nat, b: nat, kind: nat)
    requires Rep(v, fs) && i !in fs.nodes && |v'.disk| == |v.disk| && b < |v.disk| && v'.disk[b] == Zeros()
    requires forall c :: v.geo.Service() <= c < |v.disk| && c != b ==> v'.disk[c] == v.disk[c]
    requires forall k :: k in fs.nodes ==> b != fs.nodes[k].home
    ensures ListsRep(v', Add(fs, i, b, kind))
  {
    hide Elems, NoDup, TestBit, ListWord, FdsRep, BitsRep, ServiceSynced;
    ZeroWord();
    forall k: nat ensures ListRep(v', Add(fs, i, b, kind), k) {
      assert ListRep(v, fs, k);
      if k in fs.nodes { HomeOf(v, fs, k); }
    }
  }

  lemma CreateRep(v: Vol, fs: Fs, i: nat, b: nat, kind: nat)
    requires Rep(v, fs) && i < v.geo.files && i !in fs.nodes && kind < WORD_LIMIT
    requires b < v.geo.blocks && b < 8 * |v.bmap| && !TestBit(v.bmap, b)
    ensures Rep(Create(v, i, b, kind), Add(fs, i, b, kind))
  {
    hide Elems, NoDup, TestBit, Record, ListWord, Create, FdRep, ListRep;
    Unowned(v, fs, b);
    CreateDisk(v, i, b, kind);
    var v', fs' := Create(v, i, b, kind), Add(fs, i, b, kind);
    ElemsNil();
    forall k: nat ensures NodeOk(v.geo, fs', k) { assert NodeOk(v.geo, fs, k); }
    forall c: nat ensures OwnerOk(v.geo, fs', c) { assert OwnerOk(v.geo, fs, c); }
    forall c: nat ensures BitRep(v', fs', c) { assert BitRep(v, fs, c); }
    CreateFds(v, v', fs, i, b, kind);
    CreateLists(v, v', fs, i, b, kind);
  }

  lemma ZeroWord()
    ensures ListWord(Zeros(), 0) == 0
  {
  }

  /** ffs_clear_fd's loop: the bits of the listed blocks go one by one. */
  function ClearAll(v: Vol, bl: seq<nat>): (r: Vol)
    requires Framed(v) && forall j :: 0 <= j < |bl| ==> bl[j] < v.geo.blocks
    ensures Framed(r) && r.geo == v.geo
  {
    if bl == [] then v else ClearBlock(ClearAll(v, bl[..|bl| - 1]), bl[|bl| - 1])
  }

  lemma {:induction false} ClearAllOnly(v: Vol, bl: seq<nat>)
    requires Sized(v) && ServiceSynced(v) && forall j :: 0 <= j < |bl| ==> bl[j] < v.geo.blocks
    ensures var v' := ClearAll(v, bl);
      && ServiceSynced(v') && SameBut(v, v', {}) && v' == v.(bmap := v'.bmap, disk := v'.disk)
      && (forall c: nat :: c < v.geo.blocks && c < 8 * |v.bmap| ==>
            (TestBit(v'.bmap, c) <==> c !in Elems(bl) && TestBit(v.bmap, c)))
  {
    hide TestBit, Flush, Synced, Elems;
    if bl == [] {
      ElemsNil();
    } else {
      var init, b := bl[..|bl| - 1], bl[|bl| - 1];
      assert bl == init + [b];
      ClearAllOnly(v, init);
      ElemsAppend(init, b);
      MarkBlockOnly(ClearAll(v, init), b);
      FdPagesKept(ClearAll(v, init), ClearAll(v, bl));
    }
  }

  /** A file and the blocks it owns. */
  ghost function Owned(n: Node): set<nat>
  {
    Elems(n.blocks) + {n.home}
  }

  ghost function Removed(fs: Fs, i: nat): Fs
    requires i in fs.nodes
  {
    Fs(fs.nodes - {i}, fs.owner - Owned(fs.nodes[i]))
  }

  /** ffs_clear_fd, and the inode leaves the list. */
  function Erase(v: Vol, i: nat, home: nat, bl: seq<nat>): Vol
    requires Framed(v) && i < v.geo.files && home < v.geo.blocks && forall j :: 0 <= j < |bl| ==> bl[j] < v.geo.blocks
  {
    var v1 := ClearBlock(ClearAll(v, bl), home);
    var v2 := ClearFd(v1, i);
    v2.(inodes := v2.inodes - {i})
  }

  lemma EraseDisk(v: Vol, i: nat, home: nat, bl: seq<nat>)
    requires Sized(v) && ServiceSynced(v) && i < v.geo.files && home < v.geo.blocks
    requires forall j :: 0 <= j < |bl| ==> bl[j] < v.geo.blocks
    ensures var v' := Erase(v, i, home, bl);
      && Sized(v') && ServiceSynced(v') && v'.geo == v.geo && v'.inodes == v.inodes - {i}
      && |v'.disk| == |v.disk| && (forall c :: v.geo.FdList() <= c < |v.disk| ==> v'.disk[c] == v.disk[c])
      && (forall c: nat :: c < v.geo.blocks && c < 8 * |v.bmap| ==>
            (TestBit(v'.bmap, c) <==> c != home && c !in Elems(bl) && TestBit(v.bmap, c)))
      && (forall c: nat :: c < v.geo.files && c < 8 * |v.fmap| ==>
            (TestBit(v'.fmap, c) <==> c != i && TestBit(v.fmap, c)))
  {
    hide TestBit, Flush, Synced, Elems, ClearAll;
    ClearAllOnly(v, bl);
    var v0 := ClearAll(v, bl);
    var v1 := ClearBlock(v0, home);
    MarkBlockOnly(v0, home);
    FdPagesKept(v0, v1);
    MarkFdOnly(v1, i);
    BlockPagesKept(v1, ClearFd(v1, i));
    SyncedSame(ClearFd(v1, i), Erase(v, i, home, bl));
  }

  lemma BlocksInRange(v: Vol, fs: Fs, i: nat)
    requires Rep(v, fs) && i in fs.nodes
    ensures forall j :: 0 <= j < |fs.nodes[i].blocks| ==> fs.nodes[i].blocks[j] < v.geo.blocks
  {
    forall j | 0 <= j < |fs.nodes[i].blocks| ensures fs.nodes[i].blocks[j] < v.geo.blocks {
      DataBlock(v.geo, fs, i, j);
    }
  }

  lemma EraseRep(v: Vol, fs: Fs, i: nat)
    requires Rep(v, fs) && i in fs.nodes
    ensures i < v.geo.files && fs.nodes[i].home < v.geo.blocks
    ensures forall j :: 0 <= j < |fs.nodes[i].blocks| ==> fs.nodes[i].blocks[j] < v.geo.blocks
    ensures Rep(Erase(v, i, fs.nodes[i].home, fs.nodes[i].blocks), Removed(fs, i))
  {
    hide Elems, NoDup, TestBit, FdAt, ListWord, Erase;
    HomeOf(v, fs, i);
    BlocksInRange(v, fs, i);
    var n, fs' := fs.nodes[i], Removed(fs, i);
    EraseDisk(v, i, n.home, n.blocks);
    var v' := Erase(v, i, n.home, n.blocks);
    assert NodeOk(v.geo, fs, i);
    forall k: nat ensures NodeOk(v.geo, fs', k) { assert NodeOk(v.geo, fs, k); }
    forall c: nat ensures OwnerOk(v.geo, fs', c) { assert OwnerOk(v.geo, fs, c); }
    forall c: nat ensures BitRep(v', fs', c) { assert BitRep(v, fs, c) && OwnerOk(v.geo, fs, c); }
    forall k: nat ensures FdRep(v', fs', k) { assert FdRep(v, fs, k); }
    forall k: nat ensures ListRep(v', fs', k) { assert ListRep(v, fs, k); if k in fs.nodes { HomeOf(v, fs, k); } }
  }
}
