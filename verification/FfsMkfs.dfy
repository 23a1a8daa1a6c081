/** fs/mkfs.ffs/mkfs.c: the image of a fresh file system, with a root directory and two
    small files. */
module FfsMkfs {
  import opened Bytes
  import opened Powers
  import opened FfsFormat
  import opened FfsModel
  import opened FfsTree
  import opened FfsDirs

  /** The layout for a file of size bytes: 0.005 * size bytes go to descriptors of 16
      bytes each. */
  function Layout(size: nat): Geometry
  {
    var blocks, files := size / BLOCK, size / 3200;
    Geometry(blocks, (files + 31) / 32, files, (blocks / 8 + BLOCK - 1) / BLOCK, ((files + 7) / 8 + BLOCK - 1) / BLOCK)
  }

  /** Bytes of the block bitmap that mkfs writes, for s service blocks and six more. */
  function MapEnd(s: nat): nat { (s + 13) / 8 }

  /** Everything that mkfs writes has a place of its own. */
  predicate Roomy(geo: Geometry)
  {
    && geo.Placed() && 1 <= geo.bPages && 1 <= geo.fPages && 1 <= geo.fdBlocks
    && geo.Service() + 6 <= geo.blocks && MapEnd(geo.Service()) <= BLOCK * geo.bPages
  }

  /** Files of ten blocks or more have that place. */
  lemma LayoutRoomy(size: nat)
    requires 10 * BLOCK <= size < BLOCK * WORD_LIMIT
    ensures Roomy(Layout(size)) && Layout(size).blocks == size / BLOCK
  {
  }

  /** One descriptor for every 3200 bytes; as many blocks as they and their bitmap need; and
      as many for the block bitmap as hold all but at most its last seven bits. */
  lemma LayoutTight(size: nat)
    ensures var geo := Layout(size);
      && BLOCK * geo.blocks <= size < BLOCK * (geo.blocks + 1) && 3200 * geo.files <= size < 3200 * (geo.files + 1)
      && 32 * (geo.fdBlocks - 1) < geo.files <= 32 * geo.fdBlocks
      && 8 * BLOCK * (geo.fPages - 1) < geo.files <= 8 * BLOCK * geo.fPages
      && 8 * BLOCK * (geo.bPages - 1) + 7 < geo.blocks <= 8 * BLOCK * geo.bPages + 7
  {
  }

  const HELLO: Name := [104, 101, 108, 108, 111, 46, 116, 120, 116]
  const WORLD: Name := [119, 111, 114, 108, 100, 46, 116, 120, 116]
  const FORTY_TWO: seq<byte> := [52, 50, 10]
  const BLA: seq<byte> := [98, 108, 97, 10]

  /** BIT_MASK(k): the k lowest bits. */
  function LowBits(k: nat): byte
    requires k <= 8
  {
    EightBits();
    Monotone(k, 8);
    Pow2(k) - 1
  }

  lemma {:induction false} LowBitsAre(k: nat, j: nat)
    ensures Bit(Pow2(k) - 1, j) <==> j < k
  {
    if k > 0 {
      Halved(Pow2(k - 1));
      if j > 0 { LowBitsAre(k - 1, j - 1); }
    } else {
      NoBits(j);
    }
  }

  lemma Halved(p: nat)
    requires p >= 1
    ensures (2 * p - 1) / 2 == p - 1 && (2 * p - 1) % 2 == 1
  {
  }

  lemma {:induction false} NoBits(j: nat)
    ensures !Bit(0, j)
  {
    if j > 0 { NoBits(j - 1); }
  }

  /** A datablock that lists the one block b. */
  function OneBlock(was: seq<byte>, b: nat): (r: seq<byte>)
    requires |was| == BLOCK && b < WORD_LIMIT
    ensures |r| == BLOCK
  {
    Splice(Splice(was, 0, WordBytes(1)), 4, WordBytes(b))
  }

  /** Descriptors of the root and the two files. */
  function FdsBlock(was: seq<byte>, s: nat): (r: seq<byte>)
    requires |was| == BLOCK && s + 2 < WORD_LIMIT
    ensures |r| == BLOCK
  {
    var m := Splice(Splice(was, 0, FdBytes(Fd(DIR, s, 1, 2 * ENTRY))), 16, FdBytes(Fd(REG, s + 1, 1, 3)));
    Splice(m, 32, FdBytes(Fd(REG, s + 2, 1, 4)))
  }

  function RootBytes(junk: seq<byte>): (r: seq<byte>)
    requires |junk| == 2
    ensures |r| == 2 * ENTRY
  {
    EntryBytes(2, HELLO, junk) + EntryBytes(3, WORLD, junk)
  }

  /** Byte n of the block bitmap when the first c bits are set. */
  function MapByte(c: nat, n: nat): byte
  {
    if 8 * n + 8 <= c then 255 else if 8 * n < c then LowBits(c - 8 * n) else 0
  }

  /** Page p of the block bitmap once the first n bytes of all pages are written. */
  predicate MapPage(was: seq<byte>, page: seq<byte>, c: nat, p: nat, n: nat)
  {
    && |was| == |page| == BLOCK
    && forall k :: 0 <= k < BLOCK ==> page[k] == if BLOCK * p + k < n then MapByte(c, BLOCK * p + k) else was[k]
  }

  predicate MapPages(was: Blocks, disk: Blocks, pages: nat, c: nat, n: nat)
  {
    pages < |was| == |disk| && forall q :: 1 <= q <= pages ==> MapPage(was[q], disk[q], c, q - 1, n)
  }

  /** What mkfs makes of a device that held was; s is the number of service blocks. What
      it does not write stays as it was. */
  predicate Image(geo: Geometry, was: Blocks, disk: Blocks, s: nat, junk: seq<byte>)
    requires Roomy(geo) && |was| == |disk| == geo.blocks && Formed(was) && s == geo.Service() && |junk| == 2
  {
    && disk[0] == Splice(was[0], 0, InfoBytes(geo))
    && MapPages(was, disk, geo.bPages, s + 6, MapEnd(s))
    && disk[geo.FdPages()] == Splice(was[geo.FdPages()], 0, [LowBits(3)])
    && disk[geo.FdList()] == FdsBlock(was[geo.FdList()], s)
    && disk[s] == OneBlock(was[s], s + 3)
    && disk[s + 1] == OneBlock(was[s + 1], s + 4)
    && disk[s + 2] == OneBlock(was[s + 2], s + 5)
    && disk[s + 3] == Splice(was[s + 3], 0, RootBytes(junk))
    && disk[s + 4] == Splice(was[s + 4], 0, FORTY_TWO)
    && disk[s + 5] == Splice(was[s + 5], 0, BLA)
  }

  function MkFs(s: nat): Fs
  {
    Fs(map[0 := Node(DIR, s, [s + 3], 2 * ENTRY, 1),
           1 := Node(REG, s + 1, [s + 4], 3, 1),
           2 := Node(REG, s + 2, [s + 5], 4, 1)],
       map[s := 0, s + 3 := 0, s + 1 := 1, s + 4 := 1, s + 2 := 2, s + 5 := 2])
  }

  function MkTree(junk: seq<byte>): Tree
    requires |junk| == 2
  {
    map[0 := Item(DIR, 1, RootBytes(junk)), 1 := Item(REG, 1, FORTY_TWO), 2 := Item(REG, 1, BLA)]
  }

  // --- The program -----------------------------------------------------

  /** lseek and write, within one block. */
  method WriteAt(disk: array<seq<byte>>, offset: nat, bytes: seq<byte>)
    requires offset / BLOCK < disk.Length && |disk[offset / BLOCK]| == BLOCK && offset % BLOCK + |bytes| <= BLOCK
    modifies disk
    ensures disk[..] == old(disk[..])[offset / BLOCK := Splice(old(disk[offset / BLOCK]), offset % BLOCK, bytes)]
  {
    disk[offset / BLOCK] := Splice(disk[offset / BLOCK], offset % BLOCK, bytes);
  }

  /** One more byte of the bitmap. */
  lemma MapStep(was: Blocks, disk: Blocks, disk': Blocks, pages: nat, c: nat, n: nat)
    requires MapPages(was, disk, pages, c, n) && Formed(disk) && n < BLOCK * pages
    requires disk' == disk[1 + n / BLOCK := Splice(disk[1 + n / BLOCK], n % BLOCK, [MapByte(c, n)])]
    ensures MapPages(was, disk', pages, c, n + 1)
  {
    hide MapByte;
    forall q | 1 <= q <= pages ensures MapPage(was[q], disk'[q], c, q - 1, n + 1) {
      assert MapPage(was[q], disk[q], c, q - 1, n);
    }
  }

  /** The loop that writes c set bits, a byte at a time, from block 1 on. */
  method WriteBitmap(disk: array<seq<byte>>, c: nat, ghost pages: nat)
    requires pages < disk.Length && Formed(disk[..]) && (c + 7) / 8 <= BLOCK * pages
    modifies disk
    ensures Formed(disk[..]) && MapPages(old(disk[..]), disk[..], pages, c, (c + 7) / 8)
    ensures forall b :: 0 <= b < disk.Length && !(1 <= b <= pages) ==> disk[b] == old(disk[b])
  {
    hide MapPages, LowBits;
    ghost var was := disk[..];
    MapStart(was, pages, c);
    var left, n := c, 0;
    while left > 0
      invariant if left > 0 then left + 8 * n == c else n == (c + 7) / 8
      invariant Formed(disk[..]) && MapPages(was, disk[..], pages, c, n)
      invariant forall b :: 0 <= b < disk.Length && !(1 <= b <= pages) ==> disk[b] == was[b]
    {
      ghost var d := disk[..];
      ByteIs(c, n);
      var b: byte := 0;
      if left >= 8 {
        b := LowBits(8);
        left := left - 8;
      } else {
        b := LowBits(left);
        left := 0;
      }
      assert (BLOCK * 1 + n) / BLOCK == 1 + n / BLOCK && (BLOCK * 1 + n) % BLOCK == n % BLOCK;
      WriteAt(disk, BLOCK * 1 + n, [b]);
      MapStep(was, d, disk[..], pages, c, n);
      n := n + 1;
    }
  }

  lemma MapStart(was: Blocks, pages: nat, c: nat)
    requires Formed(was) && pages < |was|
    ensures MapPages(was, was, pages, c, 0)
  {
  }

  lemma ByteIs(c: nat, n: nat)
    requires 8 * n < c
    ensures MapByte(c, n) == if 8 * n + 8 <= c then LowBits(8) else LowBits(c - 8 * n)
  {
    EightBits();
  }

  lemma TwoSplices(m: seq<byte>, a: seq<byte>, b: seq<byte>)
    requires |a| + |b| <= |m|
    ensures Splice(Splice(m, 0, a), |a|, b) == Splice(m, 0, a + b)
  {
  }

  /** A count of one and the block's number. */
  method WriteList(disk: array<seq<byte>>, at: nat, b: nat)
    requires at < disk.Length && |disk[at]| == BLOCK && b < WORD_LIMIT
    modifies disk
    ensures disk[..] == old(disk[..])[at := OneBlock(old(disk[at]), b)]
  {
    hide WordBytes;
    WriteAt(disk, BLOCK * at, WordBytes(1));
    WriteAt(disk, BLOCK * at + 4, WordBytes(b));
  }

  method WriteRoot(disk: array<seq<byte>>, at: nat, junk: seq<byte>)
    requires at < disk.Length && |disk[at]| == BLOCK && |junk| == 2
    modifies disk
    ensures disk[..] == old(disk[..])[at := Splice(old(disk[at]), 0, RootBytes(junk))]
  {
    hide EntryBytes;
    WriteAt(disk, BLOCK * at, EntryBytes(2, HELLO, junk));
    WriteAt(disk, BLOCK * at + ENTRY, EntryBytes(3, WORLD, junk));
    TwoSplices(old(disk[at]), EntryBytes(2, HELLO, junk), EntryBytes(3, WORLD, junk));
  }

  method WriteDescriptors(disk: array<seq<byte>>, at: nat, s: nat)
    requires at < disk.Length && |disk[at]| == BLOCK && s + 2 < WORD_LIMIT
    modifies disk
    ensures disk[..] == old(disk[..])[at := FdsBlock(old(disk[at]), s)]
  {
    hide FdBytes;
    WriteAt(disk, BLOCK * at, FdBytes(Fd(DIR, s, 1, 2 * ENTRY)));
    WriteAt(disk, BLOCK * at + 16, FdBytes(Fd(REG, s + 1, 1, 3)));
    WriteAt(disk, BLOCK * at + 32, FdBytes(Fd(REG, s + 2, 1, 4)));
  }

  /** The part of main that writes the datablocks and the data of the three files. */
  method WriteFiles(disk: array<seq<byte>>, s: nat, junk: seq<byte>)
    requires s + 6 <= disk.Length < WORD_LIMIT && |junk| == 2 && Formed(disk[..])
    modifies disk
    ensures Formed(disk[..]) && forall b :: 0 <= b < s ==> disk[b] == old(disk[b])
    ensures disk[s] == OneBlock(old(disk[s]), s + 3)
    ensures disk[s + 1] == OneBlock(old(disk[s + 1]), s + 4)
    ensures disk[s + 2] == OneBlock(old(disk[s + 2]), s + 5)
    ensures disk[s + 3] == Splice(old(disk[s + 3]), 0, RootBytes(junk))
    ensures disk[s + 4] == Splice(old(disk[s + 4]), 0, FORTY_TWO)
    ensures disk[s + 5] == Splice(old(disk[s + 5]), 0, BLA)
  {
    hide RootBytes, WordBytes, Splice;
    WriteList(disk, s, s + 3);
    WriteList(disk, s + 1, s + 4);
    WriteList(disk, s + 2, s + 5);
    WriteRoot(disk, s + 3, junk);
    WriteAt(disk, BLOCK * (s + 4), FORTY_TWO);
    WriteAt(disk, BLOCK * (s + 5), BLA);
  }

  /** Writing elsewhere before or after does not matter to the bitmap. */
  lemma MapsMoved(was: Blocks, was': Blocks, d: Blocks, disk: Blocks, pages: nat, c: nat, n: nat)
    requires MapPages(was', d, pages, c, n) && |was| == |was'| && |disk| == |d|
    requires forall p :: 1 <= p <= pages ==> was'[p] == was[p] && disk[p] == d[p]
    ensures MapPages(was, disk, pages, c, n)
  {
    forall q | 1 <= q <= pages ensures MapPage(was[q], disk[q], c, q - 1, n) {
      assert MapPage(was'[q], d[q], c, q - 1, n);
    }
  }

  /** main, for a file of ten blocks or more, whatever it holds. The two bytes of padding
      in a directory entry are whatever the stack holds. */
  method Mkfs(disk: array<seq<byte>>, size: nat, junk: seq<byte>)
    requires 10 * BLOCK <= size < BLOCK * WORD_LIMIT && disk.Length == size / BLOCK && |junk| == 2
    requires Formed(disk[..])
    modifies disk
    ensures Roomy(Layout(size)) && Formed(disk[..])
    ensures Image(Layout(size), old(disk[..]), disk[..], Layout(size).Service(), junk)
  {
    hide Splice, InfoBytes, MapPages, LowBits, OneBlock, FdsBlock, RootBytes, Layout;
    var geo := Layout(size);
    LayoutRoomy(size);
    ghost var was := disk[..];
    var s := 1 + geo.bPages + geo.fPages + geo.fdBlocks;
    WriteAt(disk, 0, InfoBytes(geo));
    ghost var d1 := disk[..];
    WriteBitmap(disk, s + 6, geo.bPages);
    MapsMoved(was, d1, disk[..], disk[..], geo.bPages, s + 6, MapEnd(s));
    ghost var d2 := disk[..];
    WriteAt(disk, BLOCK * (1 + geo.bPages), [LowBits(3)]);
    WriteDescriptors(disk, 1 + geo.bPages + geo.fPages, s);
    WriteFiles(disk, s, junk);
    MapsMoved(was, was, d2, disk[..], geo.bPages, s + 6, MapEnd(s));
  }
}
