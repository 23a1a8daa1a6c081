/** On-disk format of the flat file system (fs/const.h, fs/ffs.h): 512-byte blocks,
    bitmaps, 16-byte file descriptors and datablocks listing the blocks of a file. */
module FfsFormat {
  import opened Options
  import opened Bytes
  import opened Powers

  const BLOCK: nat := 512

  /** Most blocks a datablock has room to list after its count word. */
  const MAX_BLOCKS: nat := 127

  const REG: nat := 0
  const DIR: nat := 1
  const SLINK: nat := 2

  type Blocks = seq<seq<byte>>

  /** The fields of the information sector. */
  datatype Geometry = Geometry(blocks: nat, fdBlocks: nat, files: nat, bPages: nat, fPages: nat) {
    function FdPages(): nat { 1 + bPages }
    function FdList(): nat { 1 + bPages + fPages }
    function Service(): nat { 1 + bPages + fPages + fdBlocks }

    /** All descriptors fit their region, and the service blocks the device. */
    predicate Placed()
    {
      files <= 32 * fdBlocks && Service() <= blocks < WORD_LIMIT && files < WORD_LIMIT && 2 <= blocks
    }

    /** Both bitmaps fit their regions as well. */
    predicate Ok()
    {
      Placed() && (blocks + 7) / 8 <= BLOCK * bPages && (files + 7) / 8 <= BLOCK * fPages && 0 < files
    }
  }

  const MAGIC: nat := 0xBA0B_AB00

  /** The information sector: magic, block count, block size, then the geometry. */
  function InfoBytes(geo: Geometry): (r: seq<byte>)
    requires geo.blocks < WORD_LIMIT && geo.fdBlocks < WORD_LIMIT && geo.files < WORD_LIMIT
    requires geo.bPages < WORD_LIMIT && geo.fPages < WORD_LIMIT
    ensures |r| == 28
  {
    WordBytes(MAGIC) + WordBytes(geo.blocks) + WordBytes(BLOCK) + WordBytes(geo.fdBlocks) + WordBytes(geo.files)
    + WordBytes(geo.bPages) + WordBytes(geo.fPages)
  }

  /** What mounting reads from block 0: nothing without the magic. */
  function InfoAt(blk: seq<byte>): Option<Geometry>
    requires |blk| == BLOCK
  {
    if Word(blk, 0) != MAGIC then None
    else Some(Geometry(Word(blk, 4), Word(blk, 12), Word(blk, 16), Word(blk, 20), Word(blk, 24)))
  }

  // --- Bitmaps ---------------------------------------------------------

  /** x >> k & 1 */
  predicate Bit(x: nat, k: nat)
  {
    if k == 0 then x % 2 == 1 else Bit(x / 2, k - 1)
  }

  function SetIn(x: nat, k: nat): nat
  {
    if k == 0 then x - x % 2 + 1 else 2 * SetIn(x / 2, k - 1) + x % 2
  }

  function ClearIn(x: nat, k: nat): (y: nat)
    ensures y <= x
  {
    if k == 0 then x - x % 2 else 2 * ClearIn(x / 2, k - 1) + x % 2
  }

  lemma {:induction false} SetFits(x: nat, k: nat, n: nat)
    requires k < n && x < Pow2(n)
    ensures SetIn(x, k) < Pow2(n)
  {
    if k > 0 { SetFits(x / 2, k - 1, n - 1); }
  }

  /** x | 1 << k */
  function Or(x: byte, k: nat): (y: byte)
    requires k < 8
  {
    EightBits();
    SetFits(x, k, 8);
    SetIn(x, k)
  }

  /** x & ~(1 << k) */
  function AndNot(x: byte, k: nat): (y: byte)
    requires k < 8
  {
    ClearIn(x, k)
  }

  lemma {:induction false} BitOr(x: nat, k: nat, j: nat)
    ensures Bit(SetIn(x, k), j) <==> j == k || Bit(x, j)
  {
    if k > 0 && j > 0 { BitOr(x / 2, k - 1, j - 1); }
  }

  lemma {:induction false} BitAndNot(x: nat, k: nat, j: nat)
    ensures Bit(ClearIn(x, k), j) <==> j != k && Bit(x, j)
  {
    if k > 0 && j > 0 { BitAndNot(x / 2, k - 1, j - 1); }
  }

  /** CHECK_BIT */
  predicate TestBit(bm: seq<byte>, n: nat)
    requires n < 8 * |bm|
  {
    Bit(bm[n / 8], n % 8)
  }

  /** SET_BIT */
  function WithBit(bm: seq<byte>, n: nat): (r: seq<byte>)
    requires n < 8 * |bm|
    ensures |r| == |bm|
  {
    bm[n / 8 := Or(bm[n / 8], n % 8)]
  }

  /** RESET_BIT */
  function WithoutBit(bm: seq<byte>, n: nat): (r: seq<byte>)
    requires n < 8 * |bm|
    ensures |r| == |bm|
  {
    bm[n / 8 := AndNot(bm[n / 8], n % 8)]
  }

  /** Setting or clearing a bit changes that bit and no other. */
  lemma BitSet(bm: seq<byte>, n: nat, m: nat)
    requires n < 8 * |bm| && m < 8 * |bm|
    ensures TestBit(WithBit(bm, n), m) <==> m == n || TestBit(bm, m)
    ensures TestBit(WithoutBit(bm, n), m) <==> m != n && TestBit(bm, m)
  {
    hide Bit, SetIn, ClearIn;
    if n / 8 == m / 8 {
      BitOr(bm[n / 8], n % 8, m % 8);
      BitAndNot(bm[n / 8], n % 8, m % 8);
      assert m == n <==> m % 8 == n % 8;
    }
  }

  // --- Blocks ----------------------------------------------------------

  /** The device, or one region of it, as blocks of 512 bytes. */
  predicate Formed(disk: Blocks)
  {
    forall b :: 0 <= b < |disk| ==> |disk[b]| == BLOCK
  }

  /** An empty block. */
  function Zeros(): (z: seq<byte>)
    ensures |z| == BLOCK && forall k :: 0 <= k < BLOCK ==> z[k] == 0
  {
    seq(BLOCK, _ => 0)
  }

  /** memcpy into the buffer of block b, written through. */
  function Poke(disk: Blocks, b: nat, off: nat, bytes: seq<byte>): (r: Blocks)
    requires b < |disk| && off + |bytes| <= |disk[b]|
    ensures |r| == |disk| && |r[b]| == |disk[b]|
    ensures forall a :: 0 <= a < |disk| && a != b ==> r[a] == disk[a]
    ensures Formed(disk) ==> Formed(r)
  {
    disk[b := Splice(disk[b], off, bytes)]
  }

  // --- Bitmap pages ----------------------------------------------------

  function PageLen(len: nat, p: nat): (n: nat)
    requires BLOCK * p <= len
    ensures n <= BLOCK && BLOCK * p + n <= len
  {
    if len - BLOCK * p > BLOCK then BLOCK else len - BLOCK * p
  }

  /** Bytes of the bitmap that page p holds. */
  function PageOf(bm: seq<byte>, p: nat): (r: seq<byte>)
    requires BLOCK * p <= |bm|
    ensures |r| == PageLen(|bm|, p)
  {
    bm[BLOCK * p..BLOCK * p + PageLen(|bm|, p)]
  }

  /** Page p of the bitmap at block base agrees with the copy in memory. */
  predicate Synced(disk: Blocks, base: nat, bm: seq<byte>, p: nat)
  {
    base + p < |disk| && BLOCK * p <= |bm| && |disk[base + p]| == BLOCK ==>
      disk[base + p][..PageLen(|bm|, p)] == PageOf(bm, p)
  }

  /** BITMASK_PAGE */
  function PageOfBit(n: nat): nat { n / 8 / BLOCK }

  /** ffs_write_b_bitmask and ffs_write_fd_bitmask: write out the page of bit n. */
  function Flush(disk: Blocks, base: nat, bm: seq<byte>, n: nat): (r: Blocks)
    requires Formed(disk) && n < 8 * |bm| && base + PageOfBit(n) < |disk|
    ensures Formed(r) && |r| == |disk|
    ensures forall b :: 0 <= b < |disk| && b != base + PageOfBit(n) ==> r[b] == disk[b]
  {
    Poke(disk, base + PageOfBit(n), 0, PageOf(bm, PageOfBit(n)))
  }

  lemma FlushSyncs(disk: Blocks, base: nat, bm: seq<byte>, bm': seq<byte>, n: nat, p: nat)
    requires Formed(disk) && n < 8 * |bm'| && base + PageOfBit(n) < |disk| && |bm'| == |bm|
    requires forall k :: 0 <= k < |bm| && k != n / 8 ==> bm'[k] == bm[k]
    requires Synced(disk, base, bm, p)
    ensures Synced(Flush(disk, base, bm', n), base, bm', p)
  {
    if p != PageOfBit(n) && BLOCK * p <= |bm| { assert PageOf(bm', p) == PageOf(bm, p); }
  }

  // --- File descriptors ------------------------------------------------

  datatype Fd = Fd(kind: nat, datablock: nat, links: nat, size: nat) {
    predicate Fits()
    {
      kind < WORD_LIMIT && datablock < WORD_LIMIT && links < WORD_LIMIT && size < WORD_LIMIT
    }
  }

  function FdBytes(fd: Fd): (r: seq<byte>)
    requires fd.Fits()
    ensures |r| == 16
  {
    WordBytes(fd.kind) + WordBytes(fd.datablock) + WordBytes(fd.links) + WordBytes(fd.size)
  }

  function FdAt(blk: seq<byte>, pos: nat): Fd
    requires pos + 16 <= |blk|
  {
    Fd(Word(blk, pos), Word(blk, pos + 4), Word(blk, pos + 8), Word(blk, pos + 12))
  }

  /** Words written by Splice read back; words elsewhere are as before. */
  lemma WordSpliced(m: seq<byte>, o: nat, b: seq<byte>, k: nat)
    requires o + |b| <= |m| && k + 4 <= |m|
    ensures k + 4 <= o || o + |b| <= k ==> Word(Splice(m, o, b), k) == Word(m, k)
    ensures o <= k && k + 4 <= o + |b| ==> Word(Splice(m, o, b), k) == Word(b, k - o)
  {
  }

  lemma FdSpliced(blk: seq<byte>, pos: nat, fd: Fd, at: nat)
    requires pos + 16 <= |blk| && at + 16 <= |blk| && fd.Fits()
    requires at == pos || at + 16 <= pos || pos + 16 <= at
    ensures FdAt(Splice(blk, pos, FdBytes(fd)), at) == if at == pos then fd else FdAt(blk, at)
  {
    var b := FdBytes(fd);
    FdBytesWords(fd);
    forall k | k == 0 || k == 4 || k == 8 || k == 12
      ensures Word(Splice(blk, pos, b), at + k) == if at == pos then Word(b, k) else Word(blk, at + k)
    {
      WordSpliced(blk, pos, b, at + k);
    }
  }

  /** The four words of a descriptor on the device. */
  lemma FdBytesWords(fd: Fd)
    requires fd.Fits()
    ensures var b := FdBytes(fd);
      Word(b, 0) == fd.kind && Word(b, 4) == fd.datablock && Word(b, 8) == fd.links && Word(b, 12) == fd.size
  {
    var b := FdBytes(fd);
    WordIn(b, WordBytes(fd.kind), 0);
    WordIn(b, WordBytes(fd.datablock), 4);
    WordIn(b, WordBytes(fd.links), 8);
    WordIn(b, WordBytes(fd.size), 12);
  }

  lemma WordIn(b: seq<byte>, w: seq<byte>, k: nat)
    requires |w| == 4 && k + 4 <= |b|
    requires forall i :: 0 <= i < 4 ==> b[k + i] == w[i]
    ensures Word(b, k) == Word(w, 0)
  {
    assert b[k + 0] == w[0] && b[k + 1] == w[1] && b[k + 2] == w[2] && b[k + 3] == w[3];
  }

  // --- Datablocks ------------------------------------------------------

  /** Word k of a datablock: the block count for k == 0, else entry k - 1. */
  function ListWord(blk: seq<byte>, k: nat): nat
    requires |blk| == BLOCK && k <= MAX_BLOCKS
  {
    Word(blk, 4 * k)
  }

  function PutWord(blk: seq<byte>, k: nat, w: nat): (r: seq<byte>)
    requires |blk| == BLOCK && k <= MAX_BLOCKS && w < WORD_LIMIT
    ensures |r| == BLOCK
    ensures forall j :: 0 <= j <= MAX_BLOCKS ==> ListWord(r, j) == if j == k then w else ListWord(blk, j)
  {
    forall j | 0 <= j <= MAX_BLOCKS
      ensures ListWord(Splice(blk, 4 * k, WordBytes(w)), j) == if j == k then w else ListWord(blk, j)
    {
      WordSpliced(blk, 4 * k, WordBytes(w), 4 * j);
    }
    Splice(blk, 4 * k, WordBytes(w))
  }

  lemma InfoRoundTrip(geo: Geometry, blk: seq<byte>)
    requires geo.blocks < WORD_LIMIT && geo.fdBlocks < WORD_LIMIT && geo.files < WORD_LIMIT
    requires geo.bPages < WORD_LIMIT && geo.fPages < WORD_LIMIT && |blk| == BLOCK
    ensures InfoAt(Splice(blk, 0, InfoBytes(geo))) == Some(geo)
    ensures var m := Splice(blk, 0, InfoBytes(geo));
      && Word(m, 0) == 0xBA0B_AB00 && Word(m, 4) == geo.blocks && Word(m, 8) == 512 && Word(m, 12) == geo.fdBlocks
      && Word(m, 16) == geo.files && Word(m, 20) == geo.bPages && Word(m, 24) == geo.fPages
  {
    var b, m := InfoBytes(geo), Splice(blk, 0, InfoBytes(geo));
    WordIn(m, WordBytes(MAGIC), 0);
    WordIn(m, WordBytes(geo.blocks), 4);
    WordIn(m, WordBytes(BLOCK), 8);
    WordIn(m, WordBytes(geo.fdBlocks), 12);
    WordIn(m, WordBytes(geo.files), 16);
    WordIn(m, WordBytes(geo.bPages), 20);
    WordIn(m, WordBytes(geo.fPages), 24);
  }
}
