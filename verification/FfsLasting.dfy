/** How large a device may be: for which sizes a file system made by mkfs can be mounted,
    and goes on to survive the next mount whatever blocks have been taken. */
module FfsLasting {
  import opened Bytes
  import opened Powers
  import opened FfsFormat
  import opened FfsModel
  import opened FfsSteps
  import opened FfsTree
  import opened FfsRemount
  import opened FfsMkfs
  import opened FfsImage

  /** n calls of ffs_get_empty_block. */
  function Grabs(v: Vol, n: nat): (r: Vol)
    requires Framed(v)
    ensures Framed(r) && r.geo == v.geo
  {
    if n == 0 then v else Grab(Grabs(v, n - 1))
  }

  /** Remounting gives the same volume however many blocks have been handed out. */
  ghost predicate Lasts(v: Vol)
    requires Framed(v)
  {
    forall n: nat :: Mounted(v.geo, Grabs(v, n).disk) == Grabs(v, n)
  }

  /** Adding the first free block to a file keeps device and memory in agreement, and
      remounting then gives the same volume. */
  ghost predicate GrowsWell(geo: Geometry, v: Vol, fs: Fs, i: nat)
  {
    && v.geo == geo && Agrees(v, fs)
    && i in fs.nodes && |fs.nodes[i].blocks| < MAX_BLOCKS && fs.nodes[i].home < geo.blocks
    && FirstClear(v.bmap, 0, geo.blocks) < geo.blocks ==>
      var b := FirstClear(v.bmap, 0, geo.blocks);
      var v' := Append(v, fs.nodes[i].home, |fs.nodes[i].blocks|, b);
      Agrees(v', Extend(fs, i, b)) && Mounted(geo, v'.disk) == v'
  }

  /** So does creating a file. */
  ghost predicate CreatesWell(geo: Geometry, v: Vol, fs: Fs, i: nat, kind: nat)
  {
    && v.geo == geo && Agrees(v, fs)
    && i < geo.files && i !in fs.nodes && kind <= SLINK
    && FirstClear(v.bmap, 0, geo.blocks) < geo.blocks ==>
      var b := FirstClear(v.bmap, 0, geo.blocks);
      var v' := Create(v, i, b, kind);
      Agrees(v', Add(fs, i, b, kind)) && Mounted(geo, v'.disk) == v'
  }

  /** Mounting stays within its buffers and finds the three files, and from then on
      whatever is allocated is there after the next mount. */
  ghost predicate Works(geo: Geometry, disk: Blocks, junk: seq<byte>)
    requires Readable(geo, disk) && |junk| == 2
  {
    && !MountStrays(geo) && Fresh(Mounted(geo, disk), junk) && Lasts(Mounted(geo, disk))
    && (forall v: Vol, fs: Fs, i: nat :: GrowsWell(geo, v, fs, i))
    && (forall v: Vol, fs: Fs, i: nat, kind: nat :: CreatesWell(geo, v, fs, i, kind))
  }

  // --- One page per bitmap ---------------------------------------------

  /** The tables in memory are the ones on the device. */
  ghost predicate Kept(v: Vol)
  {
    Framed(v) && OnePage(v.geo) && ServiceSynced(v) && v.inodes == Inodes(v.geo, v.disk, v.fmap, v.geo.files)
  }

  lemma KeptRemounts(v: Vol)
    requires Kept(v)
    ensures Mounted(v.geo, v.disk) == v
  {
    hide ServiceSynced, Inodes, Loaded;
    MapsLoaded(v);
  }

  lemma GrabKept(v: Vol)
    requires Kept(v)
    ensures Kept(Grab(v))
  {
    hide ServiceSynced, TestBit, MarkBlock, FdAt;
    var b := FirstClear(v.bmap, 0, v.geo.blocks);
    if b < v.geo.blocks {
      var v' := MarkBlock(v, b);
      MarkBlockOnly(v, b);
      FdPagesKept(v, v');
      forall i: nat | i < v.geo.files ensures RecordAt(v.geo, v'.disk, i) == RecordAt(v.geo, v.disk, i) {
        BitPlaced(v.geo, i);
      }
    }
  }

  lemma {:induction false} GrabsKept(v: Vol, n: nat)
    requires Kept(v)
    ensures Kept(Grabs(v, n))
  {
    hide ServiceSynced, Inodes, Grab;
    if n > 0 {
      GrabsKept(v, n - 1);
      GrabKept(Grabs(v, n - 1));
    }
  }

  lemma KeptLasts(v: Vol)
    requires Kept(v)
    ensures Lasts(v)
  {
    hide ServiceSynced, Inodes, Grabs, Mounted;
    forall n: nat ensures Mounted(v.geo, Grabs(v, n).disk) == Grabs(v, n) {
      GrabsKept(v, n);
      KeptRemounts(Grabs(v, n));
    }
  }

  lemma GrowthWorks(geo: Geometry, v: Vol, fs: Fs, i: nat)
    requires OnePage(geo)
    ensures GrowsWell(geo, v, fs, i)
  {
    hide ServiceSynced, NodesOk, OwnersOk, BitsRep, FdsRep, ListsRep, Mounted, TestBit, Append, MountStrays, TreeOf;
    if v.geo == geo && Agrees(v, fs) && i in fs.nodes && |fs.nodes[i].blocks| < MAX_BLOCKS {
      var b := FirstClear(v.bmap, 0, geo.blocks);
      if b < geo.blocks {
        AppendRep(v, fs, i, b);
        RemountIdentity(Append(v, fs.nodes[i].home, |fs.nodes[i].blocks|, b), Extend(fs, i, b));
      }
    }
  }

  lemma CreationWorks(geo: Geometry, v: Vol, fs: Fs, i: nat, kind: nat)
    requires OnePage(geo)
    ensures CreatesWell(geo, v, fs, i, kind)
  {
    hide ServiceSynced, NodesOk, OwnersOk, BitsRep, FdsRep, ListsRep, Mounted, TestBit, Create, MountStrays, TreeOf;
    if v.geo == geo && Agrees(v, fs) && i < geo.files && i !in fs.nodes && kind <= SLINK {
      var b := FirstClear(v.bmap, 0, geo.blocks);
      if b < geo.blocks {
        CreateRep(v, fs, i, b, kind);
        RemountIdentity(Create(v, i, b, kind), Add(fs, i, b, kind));
      }
    }
  }

  lemma OnePageWorks(geo: Geometry, was: Blocks, disk: Blocks, junk: seq<byte>)
    requires Made(geo, was, disk, junk)
    ensures Readable(geo, disk) && (Works(geo, disk, junk) <==> geo.files >= 3 && CleanMaps(geo, was))
  {
    hide Image, Mounted, CleanMaps, Fresh, MountStrays, Lasts, GrowsWell, CreatesWell, ServiceSynced;
    var m := Mounted(geo, disk);
    FreshExactly(geo, was, disk, junk);
    MountsSafely(geo);
    ImageSynced(geo, was, disk, junk);
    MountedKept(geo, disk);
    KeptLasts(m);
    forall v: Vol, fs: Fs, i: nat ensures GrowsWell(geo, v, fs, i) { GrowthWorks(geo, v, fs, i); }
    forall v: Vol, fs: Fs, i: nat, kind: nat ensures CreatesWell(geo, v, fs, i, kind) {
      CreationWorks(geo, v, fs, i, kind);
    }
  }

  lemma MountedKept(geo: Geometry, disk: Blocks)
    requires Readable(geo, disk) && OnePage(geo) && ServiceSynced(Mounted(geo, disk))
    ensures Kept(Mounted(geo, disk))
  {
    hide ServiceSynced;
  }

  // --- The block behind the page ---------------------------------------

  /** The bitmap has one page, and more blocks than there are bits in it. */
  predicate Overfull(geo: Geometry)
  {
    geo.Placed() && geo.bPages == 1 && geo.blocks > 8 * BLOCK
  }

  /** The first k blocks are taken and the one behind the page is not. */
  predicate TakenTo(v: Vol, k: nat)
  {
    && Framed(v) && Overfull(v.geo) && v.bmap[BLOCK] == 0
    && forall b: nat :: b < k && b < 8 * BLOCK ==> TestBit(v.bmap, b)
  }

  lemma GrabNext(v: Vol, k: nat)
    requires TakenTo(v, k) && k < 8 * BLOCK && !TestBit(v.bmap, k)
    ensures TakenTo(Grab(v), k + 1)
  {
    hide TestBit, Or, Flush;
    FirstClearIs(v.bmap, v.geo.blocks, k);
    forall b: nat | b <= 8 * BLOCK ensures TestBit(WithBit(v.bmap, k), b) <==> b == k || TestBit(v.bmap, b) {
      BitSet(v.bmap, k, b);
    }
  }

  /** Calls of ffs_get_empty_block use up the page sooner or later. */
  lemma {:induction false} UsedUp(v: Vol, k: nat) returns (n: nat)
    requires TakenTo(v, 0) && k <= 8 * BLOCK
    ensures TakenTo(Grabs(v, n), k)
  {
    hide TestBit, Grab;
    if k == 0 { return 0; }
    n := UsedUp(v, k - 1);
    if !TestBit(Grabs(v, n).bmap, k - 1) {
      GrabNext(Grabs(v, n), k - 1);
      n := n + 1;
    }
  }

  /** Taking the block behind the page is recorded in the first block of the descriptor
      bitmap, and nowhere else: after the next mount the block is free again, and files
      are gone whose descriptors are still in use. */
  lemma PageOverrun(v: Vol, i: nat)
    requires Framed(v) && Overfull(v.geo) && v.bmap[BLOCK] == 0
    requires 1 <= v.geo.fPages && 1 <= i < 8 && i < v.geo.files
    ensures var r := MarkBlock(v, 8 * BLOCK); var m := Mounted(v.geo, r.disk);
      && r.fmap == v.fmap && r.inodes == v.inodes
      && r.disk[v.geo.FdPages()] != [] && r.disk[v.geo.FdPages()][0] == 1
      && TestBit(r.bmap, 8 * BLOCK) && !TestBit(m.bmap, 8 * BLOCK) && i !in m.inodes
  {
    hide Inodes, SetIn;
    var b := 8 * BLOCK;
    BitSet(v.bmap, b, b);
    LowestBit();
    NoBits(i - 1);
    NoBits(0);
    var r := MarkBlock(v, b);
    var m := Mounted(v.geo, r.disk);
    assert r.disk[v.geo.FdPages()][0] == 1;
    assert m.fmap[0] == 1;
    assert m.bmap[BLOCK] == 0;
    assert !TestBit(m.fmap, i);
    InodesOnly(v.geo, r.disk, m.fmap, i);
  }

  lemma LowestBit()
    ensures SetIn(0, 0) == 1
  {
  }

  lemma InodesOnly(geo: Geometry, disk: Blocks, fmap: seq<byte>, i: nat)
    requires Readable(geo, disk) && i < geo.files <= 8 * |fmap|
    ensures i in Inodes(geo, disk, fmap, geo.files) <==> TestBit(fmap, i)
  {
  }

  lemma {:induction false} GrabsOnly(v: Vol, n: nat)
    requires Framed(v)
    ensures Grabs(v, n).fmap == v.fmap && Grabs(v, n).inodes == v.inodes
  {
    hide WithBit, Flush, TestBit;
    if n > 0 { GrabsOnly(v, n - 1); }
  }

  /** After n calls of ffs_get_empty_block the block behind the page is taken. */
  lemma Overrun(v: Vol) returns (n: nat)
    requires TakenTo(v, 0) && 1 <= v.geo.fPages && 3 <= v.geo.files
    ensures var w := Grabs(v, n); var m := Mounted(v.geo, w.disk);
      && w.inodes == v.inodes && 1 !in m.inodes && 2 !in m.inodes
      && TestBit(w.bmap, 8 * BLOCK) && !TestBit(m.bmap, 8 * BLOCK)
  {
    hide TestBit, MarkBlock, Mounted;
    n := UsedUp(v, 8 * BLOCK);
    var w := Grabs(v, n);
    GrabsOnly(v, n);
    NextIs(w);
    PageOverrun(w, 1);
    PageOverrun(w, 2);
    n := n + 1;
  }

  lemma NextIs(v: Vol)
    requires TakenTo(v, 8 * BLOCK)
    ensures Grab(v) == MarkBlock(v, 8 * BLOCK)
  {
    hide MarkBlock;
    NoBits(0);
    FirstClearIs(v.bmap, v.geo.blocks, 8 * BLOCK);
  }

  // --- Sizes of mkfs ---------------------------------------------------

  lemma Layouts(size: nat)
    requires 10 * BLOCK <= size < BLOCK * WORD_LIMIT
    ensures Layout(size).files < 3 <==> size < 9600
    ensures size < 4097 * BLOCK ==> OnePage(Layout(size))
    ensures 4097 * BLOCK <= size < 4104 * BLOCK ==> Overfull(Layout(size)) && Layout(size).fPages == 1
    ensures size >= 4104 * BLOCK ==> Layout(size).bPages >= 2
  {
  }

  /** The image for size bytes on a device that held was. */
  predicate MadeFor(size: nat, was: Blocks, disk: Blocks, junk: seq<byte>)
  {
    && 10 * BLOCK <= size < BLOCK * WORD_LIMIT && |was| == |disk| == size / BLOCK
    && Formed(was) && Formed(disk) && |junk| == 2
    && Roomy(Layout(size)) && Image(Layout(size), was, disk, Layout(size).Service(), junk)
  }

  lemma OverfullImage(size: nat, was: Blocks, disk: Blocks, junk: seq<byte>)
    requires MadeFor(size, was, disk, junk) && 4097 * BLOCK <= size < 4104 * BLOCK
    ensures Readable(Layout(size), disk) && TakenTo(Mounted(Layout(size), disk), 0)
    ensures {0, 1, 2} <= Mounted(Layout(size), disk).inodes.Keys
  {
    hide Layout, Inodes, MapPages, LowBits, FdsBlock, OneBlock, RootBytes;
    var geo := Layout(size);
    Layouts(size);
    LayoutRoomy(size);
    var m := Mounted(geo, disk);
    LowBitsIs(3);
    assert m.fmap[0] == Pow2(3) - 1;
    forall i: nat | i < 3 ensures i in m.inodes {
      LowBitsAre(3, i);
      InodesOnly(geo, disk, m.fmap, i);
    }
  }

  /** From 4097 to 4103 blocks mounting finds the three files, but once the device has
      filled up the next mount has lost two of them. */
  lemma LosesFiles(size: nat, was: Blocks, disk: Blocks, junk: seq<byte>) returns (n: nat)
    requires MadeFor(size, was, disk, junk) && 4097 * BLOCK <= size < 4104 * BLOCK
    ensures Readable(Layout(size), disk) && !MountStrays(Layout(size))
    ensures var geo := Layout(size); var v := Grabs(Mounted(geo, disk), n);
      {1, 2} <= v.inodes.Keys && {1, 2} !! Mounted(geo, v.disk).inodes.Keys && Mounted(geo, v.disk) != v
  {
    hide Layout, Image, Mounted, Grabs, TestBit, Strays;
    OverfullImage(size, was, disk, junk);
    Layouts(size);
    n := Overrun(Mounted(Layout(size), disk));
    StraysExactly(MapLen(Layout(size).blocks), 1);
    StraysExactly(MapLen(Layout(size).files), 1);
  }

  /** What mkfs writes is mounted within the buffers, holds its files, and survives
      whatever is allocated, exactly for sizes from 9600 bytes up to 4096 whole blocks, on
      devices whose unwritten bitmap bits were clear. */
  lemma WorksExactly(size: nat, was: Blocks, disk: Blocks, junk: seq<byte>)
    requires MadeFor(size, was, disk, junk)
    ensures Readable(Layout(size), disk)
    ensures Works(Layout(size), disk, junk) <==> 9600 <= size < 4097 * BLOCK && CleanMaps(Layout(size), was)
  {
    hide Layout, Image, Mounted, CleanMaps, Works, MountStrays, Grabs;
    LayoutRoomy(size);
    Layouts(size);
    if size < 4097 * BLOCK {
      OnePageWorks(Layout(size), was, disk, junk);
    } else {
      TooLarge(size, was, disk, junk);
    }
  }

  lemma TooLarge(size: nat, was: Blocks, disk: Blocks, junk: seq<byte>)
    requires MadeFor(size, was, disk, junk) && 4097 * BLOCK <= size
    ensures Readable(Layout(size), disk) && !Works(Layout(size), disk, junk)
  {
    hide Layout, Image, Mounted, Grabs, Fresh, GrowsWell, CreatesWell, Strays;
    LayoutRoomy(size);
    Layouts(size);
    if size < 4104 * BLOCK {
      var n := LosesFiles(size, was, disk, junk);
    } else {
      StraysExactly(MapLen(Layout(size).blocks), Layout(size).bPages);
    }
  }
}
