/** Mounting: everything the program keeps in memory is rebuilt from the device. */
module FfsRemount {
  import opened Options
  import opened Bytes
  import opened FfsFormat
  import opened FfsModel
  import opened FfsTree

  /** A device that is laid out as its information sector says. */
  predicate Readable(geo: Geometry, disk: Blocks)
  {
    geo.Placed() && |disk| == geo.blocks && Formed(disk)
  }

  /** A device with all the blocks that mounting reads. */
  predicate Loadable(geo: Geometry, disk: Blocks)
  {
    geo.Service() <= |disk| && Formed(disk)
  }

  lemma ReadableLoads(geo: Geometry, disk: Blocks)
    requires Readable(geo, disk)
    ensures Loadable(geo, disk) && |disk| > 0
  {
  }

  // --- The loop over the pages of a bitmap -----------------------------

  function MapLen(bits: nat): nat { (bits + 7) / 8 }

  /** Bytes copied from a page when copied is the running offset. */
  function PageCopy(len: nat, copied: int): int
  {
    if len - copied >= BLOCK then BLOCK else len - copied
  }

  /** The running offset before page i: each page takes from it what it copied. */
  function Offset(len: nat, i: nat): int
  {
    if i == 0 then 0 else Offset(len, i - 1) - PageCopy(len, Offset(len, i - 1))
  }

  /** Some bytes of page i go to a place outside the buffer of len bytes. */
  predicate PageStrays(len: nat, i: nat)
  {
    var at, n := Offset(len, i), PageCopy(len, Offset(len, i));
    n > 0 && (at < 0 || at + n > len)
  }

  predicate Strays(len: nat, pages: nat)
  {
    exists i :: 0 <= i < pages && PageStrays(len, i)
  }

  lemma {:induction false} OffsetFalls(len: nat, i: nat)
    ensures Offset(len, i) <= 0 && PageCopy(len, Offset(len, i)) >= 0
    ensures i >= 1 && len > 0 ==> Offset(len, i) < 0
  {
    if i > 0 { OffsetFalls(len, i - 1); }
  }

  lemma PageStraysAt(len: nat, i: nat)
    ensures PageStrays(len, i) <==> PageCopy(len, Offset(len, i)) > 0 && Offset(len, i) < 0
    ensures PageStrays(len, i) <==> i >= 1 && len > 0
    ensures 0 <= PageCopy(len, Offset(len, i)) <= len - Offset(len, i)
    ensures !PageStrays(len, i) && PageCopy(len, Offset(len, i)) > 0 ==> i == 0
  {
    OffsetFalls(len, i);
  }

  /** The offset is decreased after each page, so that the second page goes in front of
      the buffer: exactly the bitmaps of one page are read to the right place. */
  lemma StraysExactly(len: nat, pages: nat)
    ensures Strays(len, pages) <==> pages >= 2 && len > 0
  {
    forall i: nat ensures PageStrays(len, i) <==> i >= 1 && len > 0 { PageStraysAt(len, i); }
    if pages >= 2 && len > 0 { assert PageStrays(len, 1); }
  }

  predicate MountStrays(geo: Geometry)
  {
    Strays(MapLen(geo.blocks), geo.bPages) || Strays(MapLen(geo.files), geo.fPages)
  }

  /** A bitmap of len bytes read from at most one page, into a buffer of zeros. */
  function Loaded(disk: Blocks, base: nat, pages: nat, len: nat): (r: seq<byte>)
    requires Formed(disk) && base + pages <= |disk|
    ensures |r| == len
  {
    seq(len, k requires 0 <= k => if pages > 0 && k < BLOCK then disk[base][k] else 0)
  }

  // --- What mounting makes of a device ---------------------------------

  /** Descriptors that mounting looks at. */
  function SlotCount(geo: Geometry): nat
  {
    if geo.files < 32 * geo.fdBlocks then geo.files else 32 * geo.fdBlocks
  }

  lemma SlotPlaced(geo: Geometry, i: nat)
    requires i < 32 * geo.fdBlocks
    ensures FdBlock(geo, i) < geo.Service()
  {
  }

  /** Descriptor i on the device. */
  function RecordAt(geo: Geometry, disk: Blocks, i: nat): Fd
    requires Loadable(geo, disk) && i < 32 * geo.fdBlocks
  {
    SlotPlaced(geo, i);
    FdAt(disk[FdBlock(geo, i)], FdPos(i))
  }

  /** Inodes for the first n descriptors, those whose bit is set. */
  function Inodes(geo: Geometry, disk: Blocks, fmap: seq<byte>, n: nat): map<nat, Fd>
    requires Loadable(geo, disk) && n <= 32 * geo.fdBlocks && n <= 8 * |fmap|
  {
    map i | 0 <= i < n && TestBit(fmap, i) :: RecordAt(geo, disk, i)
  }

  lemma InodesNone(geo: Geometry, disk: Blocks, fmap: seq<byte>)
    requires Loadable(geo, disk)
    ensures Inodes(geo, disk, fmap, 0) == map[]
  {
  }

  lemma InodesStep(geo: Geometry, disk: Blocks, fmap: seq<byte>, n: nat)
    requires Loadable(geo, disk) && n < 32 * geo.fdBlocks && n < 8 * |fmap|
    ensures n / 8 < |fmap| && geo.FdList() + n / 32 < |disk|
    ensures Inodes(geo, disk, fmap, n + 1) ==
      if Bit(fmap[n / 8], n % 8)
      then Inodes(geo, disk, fmap, n)[n := FdAt(disk[geo.FdList() + n / 32], 16 * (n % 32))]
      else Inodes(geo, disk, fmap, n)
  {
    hide FdAt, Bit;
    SlotPlaced(geo, n);
  }

  lemma SlotOf(n: nat, i: nat, j: nat)
    requires n == 32 * i + j && j < 32
    ensures n / 32 == i && n % 32 == j
  {
  }

  /** What mounting makes of a device, unless it strays. */
  function Mounted(geo: Geometry, disk: Blocks): (v: Vol)
    requires Loadable(geo, disk)
    ensures v.geo == geo && v.disk == disk && (Readable(geo, disk) ==> Framed(v))
  {
    var fmap := Loaded(disk, geo.FdPages(), geo.fPages, MapLen(geo.files));
    Vol(geo, disk, Loaded(disk, 1, geo.bPages, MapLen(geo.blocks)), fmap, Inodes(geo, disk, fmap, SlotCount(geo)))
  }

  /** One page each, and large enough: then what mounting loads is what was written. */
  predicate OnePage(geo: Geometry)
  {
    geo.Ok() && geo.bPages == 1 && geo.fPages == 1
  }

  lemma MountsSafely(geo: Geometry)
    requires geo.Ok()
    ensures MountStrays(geo) <==> !OnePage(geo)
  {
    StraysExactly(MapLen(geo.blocks), geo.bPages);
    StraysExactly(MapLen(geo.files), geo.fPages);
  }

  lemma MapsLoaded(v: Vol)
    requires Framed(v) && ServiceSynced(v) && OnePage(v.geo)
    ensures Mounted(v.geo, v.disk).bmap == v.bmap && Mounted(v.geo, v.disk).fmap == v.fmap
  {
    assert Synced(v.disk, 1, v.bmap, 0) && Synced(v.disk, v.geo.FdPages(), v.fmap, 0);
    PageLoaded(v.disk, 1, v.bmap);
    PageLoaded(v.disk, v.geo.FdPages(), v.fmap);
  }

  lemma PageLoaded(disk: Blocks, base: nat, bm: seq<byte>)
    requires Formed(disk) && base < |disk| && |bm| <= BLOCK && Synced(disk, base, bm, 0)
    ensures Loaded(disk, base, 1, |bm|) == bm
  {
    var page := disk[base][..|bm|];
    assert page == PageOf(bm, 0) == bm;
    forall k | 0 <= k < |bm| ensures Loaded(disk, base, 1, |bm|)[k] == bm[k] { assert page[k] == bm[k]; }
  }

  /** Remounting changes nothing: bitmaps, inodes, sizes and link counts come back as
      they were in memory, hence so do all files with their contents. It stays within
      its buffers exactly when each bitmap takes one block. */
  lemma RemountIdentity(v: Vol, fs: Fs)
    requires Rep(v, fs)
    ensures |v.disk| > 0 && |v.disk[0]| == BLOCK && InfoAt(v.disk[0]) == Some(v.geo)
    ensures Readable(v.geo, v.disk) && (MountStrays(v.geo) <==> v.geo.bPages > 1 || v.geo.fPages > 1)
    ensures !MountStrays(v.geo) ==> Mounted(v.geo, v.disk) == v
    ensures !MountStrays(v.geo) ==> TreeOf(Mounted(v.geo, v.disk), fs) == TreeOf(v, fs)
  {
    hide TestBit, InfoAt, Strays;
    MountsSafely(v.geo);
    if OnePage(v.geo) {
      var m := Mounted(v.geo, v.disk);
      MapsLoaded(v);
      forall i: nat ensures i in m.inodes <==> i in v.inodes { assert FdRep(v, fs, i) && NodeOk(v.geo, fs, i); }
      forall i: nat | i in v.inodes ensures m.inodes[i] == v.inodes[i] {
        assert FdRep(v, fs, i) && NodeOk(v.geo, fs, i);
      }
      assert m.inodes == v.inodes;
    }
  }
}
