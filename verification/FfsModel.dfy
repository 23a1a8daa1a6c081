/** State of a mounted flat file system: the device, the tables kept in memory, and
    the files that both describe. Every change the program makes is a composition of
    a few steps, each of which keeps device and memory in agreement. */
module FfsModel {
  import opened Options
  import opened Bytes
  import opened Sequences
  import opened FfsFormat

  /** A file: its datablock, the blocks listed there, its size and its link count. */
  datatype Node = Node(kind: nat, home: nat, blocks: seq<nat>, size: nat, links: nat) {
    function Descriptor(): Fd { Fd(kind, home, links, size) }
  }

  /** Files by descriptor index (inode number minus one), and who owns each block. */
  datatype Fs = Fs(nodes: map<nat, Node>, owner: map<nat, nat>)

  /** Device and memory: both bitmaps and the inode list, a descriptor per file. */
  datatype Vol = Vol(geo: Geometry, disk: Blocks, bmap: seq<byte>, fmap: seq<byte>, inodes: map<nat, Fd>)

  /** Device and bitmaps are as large as the geometry says. */
  predicate Framed(v: Vol)
  {
    && v.geo.Placed() && |v.disk| == v.geo.blocks && Formed(v.disk)
    && |v.bmap| == (v.geo.blocks + 7) / 8 && |v.fmap| == (v.geo.files + 7) / 8
  }

  /** And there is a page on the device for every bit. */
  predicate Sized(v: Vol)
  {
    Framed(v) && v.geo.Ok()
  }

  function FdBlock(geo: Geometry, i: nat): nat { geo.FdList() + i / 32 }

  function FdPos(i: nat): (p: nat)
    ensures p + 16 <= BLOCK
  {
    16 * (i % 32)
  }

  lemma BitInPage(geo: Geometry, n: nat)
    requires geo.Ok()
    ensures n < geo.blocks ==> n < 8 * ((geo.blocks + 7) / 8) && PageOfBit(n) < geo.bPages
    ensures n < geo.files ==>
      n < 8 * ((geo.files + 7) / 8) && PageOfBit(n) < geo.fPages && FdBlock(geo, n) < geo.Service()
  {
  }

  /** Without that, a bit's page may belong to another region, but it is on the device. */
  lemma BitPlaced(geo: Geometry, n: nat)
    requires geo.Placed()
    ensures n < geo.blocks ==> n < 8 * ((geo.blocks + 7) / 8) && 1 + PageOfBit(n) < geo.blocks
    ensures n < geo.files ==> n < 8 * ((geo.files + 7) / 8) && geo.FdPages() + PageOfBit(n) < geo.blocks
    ensures n < geo.files ==> FdBlock(geo, n) < geo.Service()
  {
  }

  /** Descriptor k as the device has it. */
  function Record(v: Vol, k: nat): Fd
    requires Framed(v) && k < v.geo.files
  {
    BitPlaced(v.geo, k);
    FdAt(v.disk[FdBlock(v.geo, k)], FdPos(k))
  }

  // --- Invariant -------------------------------------------------------

  ghost predicate NodeOk(geo: Geometry, fs: Fs, i: nat)
  {
    i in fs.nodes ==>
      var n := fs.nodes[i];
      && i < geo.files && n.Descriptor().Fits()
      && |n.blocks| <= MAX_BLOCKS && NoDup(n.blocks) && n.size <= BLOCK * |n.blocks|
      && n.home in fs.owner && fs.owner[n.home] == i && n.home !in Elems(n.blocks)
      && forall b :: b in Elems(n.blocks) ==> b in fs.owner && fs.owner[b] == i
  }

  /** A block has one owner at most: as its datablock or as one entry of its list. */
  ghost predicate OwnerOk(geo: Geometry, fs: Fs, b: nat)
  {
    b in fs.owner ==>
      && geo.Service() <= b < geo.blocks && fs.owner[b] in fs.nodes
      && (b == fs.nodes[fs.owner[b]].home || b in Elems(fs.nodes[fs.owner[b]].blocks))
  }

  /** A block's bit is set exactly when it is a service block or owned. */
  ghost predicate BitRep(v: Vol, fs: Fs, b: nat)
  {
    b < v.geo.blocks && b < 8 * |v.bmap| ==> (TestBit(v.bmap, b) <==> b < v.geo.Service() || b in fs.owner)
  }

  /** Descriptor i: its bit, the inode in memory and the record on the device. */
  ghost predicate FdRep(v: Vol, fs: Fs, i: nat)
    requires Framed(v)
  {
    && (i in v.inodes <==> i in fs.nodes)
    && (i < v.geo.files && i < 8 * |v.fmap| ==> (TestBit(v.fmap, i) <==> i in fs.nodes))
    && (i in fs.nodes && i in v.inodes && i < v.geo.files ==>
          v.inodes[i] == fs.nodes[i].Descriptor() && Record(v, i) == fs.nodes[i].Descriptor())
  }

  /** The datablock holds the count and then the blocks in order. */
  ghost predicate ListRep(v: Vol, fs: Fs, i: nat)
  {
    && i in fs.nodes && fs.nodes[i].home < |v.disk|
    && |v.disk[fs.nodes[i].home]| == BLOCK && |fs.nodes[i].blocks| <= MAX_BLOCKS ==>
      && ListWord(v.disk[fs.nodes[i].home], 0) == |fs.nodes[i].blocks|
      && forall j :: 0 <= j < |fs.nodes[i].blocks| ==>
        ListWord(v.disk[fs.nodes[i].home], j + 1) == fs.nodes[i].blocks[j]
  }

  ghost predicate NodesOk(geo: Geometry, fs: Fs) { forall i: nat :: NodeOk(geo, fs, i) }
  ghost predicate OwnersOk(geo: Geometry, fs: Fs) { forall b: nat :: OwnerOk(geo, fs, b) }
  ghost predicate BitsRep(v: Vol, fs: Fs) { forall b: nat :: BitRep(v, fs, b) }
  ghost predicate FdsRep(v: Vol, fs: Fs) requires Framed(v) { forall i: nat :: FdRep(v, fs, i) }
  ghost predicate ListsRep(v: Vol, fs: Fs) { forall i: nat :: ListRep(v, fs, i) }

  /** The information sector and the bitmaps on the device are the ones in memory. */
  ghost predicate ServiceSynced(v: Vol)
  {
    && (|v.disk| > 0 && |v.disk[0]| == BLOCK ==> InfoAt(v.disk[0]) == Some(v.geo))
    && (forall p: nat :: p < v.geo.bPages ==> Synced(v.disk, 1, v.bmap, p))
    && (forall p: nat :: p < v.geo.fPages ==> Synced(v.disk, v.geo.FdPages(), v.fmap, p))
  }

  /** Device and memory agree on the files fs. */
  ghost predicate Agrees(v: Vol, fs: Fs)
  {
    && Framed(v) && ServiceSynced(v)
    && NodesOk(v.geo, fs) && OwnersOk(v.geo, fs) && BitsRep(v, fs) && FdsRep(v, fs) && ListsRep(v, fs)
  }

  /** And every bit has its page, so that they can go on agreeing. */
  ghost predicate Rep(v: Vol, fs: Fs)
  {
    Agrees(v, fs) && v.geo.Ok()
  }

  // --- Steps -----------------------------------------------------------

  /** SET_BIT in the block bitmap, written through. */
  function MarkBlock(v: Vol, b: nat): (r: Vol)
    requires Framed(v) && b < v.geo.blocks
    ensures Framed(r) && r.geo == v.geo
  {
    BitPlaced(v.geo, b);
    v.(bmap := WithBit(v.bmap, b), disk := Flush(v.disk, 1, WithBit(v.bmap, b), b))
  }

  /** RESET_BIT in the block bitmap, written through. */
  function ClearBlock(v: Vol, b: nat): (r: Vol)
    requires Framed(v) && b < v.geo.blocks
    ensures Framed(r) && r.geo == v.geo
  {
    BitPlaced(v.geo, b);
    v.(bmap := WithoutBit(v.bmap, b), disk := Flush(v.disk, 1, WithoutBit(v.bmap, b), b))
  }

  function MarkFd(v: Vol, i: nat): (r: Vol)
    requires Framed(v) && i < v.geo.files
    ensures Framed(r) && r.geo == v.geo
  {
    BitPlaced(v.geo, i);
    v.(fmap := WithBit(v.fmap, i), disk := Flush(v.disk, v.geo.FdPages(), WithBit(v.fmap, i), i))
  }

  function ClearFd(v: Vol, i: nat): (r: Vol)
    requires Framed(v) && i < v.geo.files
    ensures Framed(r) && r.geo == v.geo
  {
    BitPlaced(v.geo, i);
    v.(fmap := WithoutBit(v.fmap, i), disk := Flush(v.disk, v.geo.FdPages(), WithoutBit(v.fmap, i), i))
  }

  /** A changed descriptor, in memory and written out by ffs_write_inode. */
  function PutFd(v: Vol, i: nat, fd: Fd): (r: Vol)
    requires Framed(v) && i < v.geo.files && fd.Fits()
    ensures Framed(r) && r.geo == v.geo
  {
    BitPlaced(v.geo, i);
    v.(inodes := v.inodes[i := fd], disk := Poke(v.disk, FdBlock(v.geo, i), FdPos(i), FdBytes(fd)))
  }

  /** memcpy into a block. */
  function PutBytes(v: Vol, b: nat, off: nat, bytes: seq<byte>): (r: Vol)
    requires Framed(v) && b < v.geo.blocks && off + |bytes| <= BLOCK
    ensures Framed(r) && r.geo == v.geo
  {
    v.(disk := Poke(v.disk, b, off, bytes))
  }

  /** The first clear bit from bit b on, among the first n; n when there is none. */
  function FirstClear(bm: seq<byte>, b: nat, n: nat): (r: nat)
    requires b <= n <= 8 * |bm|
    ensures b <= r <= n && (r < n ==> !TestBit(bm, r))
    ensures forall c: nat :: b <= c < r ==> TestBit(bm, c)
    decreases n - b
  {
    if b < n && TestBit(bm, b) then FirstClear(bm, b + 1, n) else b
  }

  /** What ffs_get_empty_block does to a volume. */
  function Grab(v: Vol): (r: Vol)
    requires Framed(v)
    ensures Framed(r) && r.geo == v.geo
  {
    var b := FirstClear(v.bmap, 0, v.geo.blocks);
    if b < v.geo.blocks then MarkBlock(v, b) else v
  }

  lemma FirstClearIs(bm: seq<byte>, n: nat, b: nat)
    requires b <= n <= 8 * |bm| && (b < n ==> !TestBit(bm, b))
    requires forall c: nat :: c < b && c < 8 * |bm| ==> TestBit(bm, c)
    ensures FirstClear(bm, 0, n) == b
  {
    hide TestBit;
  }
}
