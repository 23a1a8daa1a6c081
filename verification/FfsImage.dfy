/** Mounting what mkfs wrote: the image is a well-formed file system exactly when the
    bitmap bits that it leaves as they were are clear. */
module FfsImage {
  import opened Bytes
  import opened Powers
  import opened Sequences
  import opened FfsFormat
  import opened FfsModel
  import opened FfsTree
  import opened FfsDirs
  import opened FfsLinks
  import opened FfsRemount
  import opened FfsMkfs

  /** A device that mkfs has written, with bitmaps of one page each. */
  predicate Made(geo: Geometry, was: Blocks, disk: Blocks, junk: seq<byte>)
  {
    && OnePage(geo) && Roomy(geo) && |was| == |disk| == geo.blocks && Formed(was) && Formed(disk) && |junk| == 2
    && Image(geo, was, disk, geo.Service(), junk)
  }

  /** Bits of blocks and files that mkfs does not write are clear. */
  predicate CleanMaps(geo: Geometry, was: Blocks)
    requires Roomy(geo) && |was| == geo.blocks && Formed(was)
  {
    && (forall b: nat :: 8 * MapEnd(geo.Service()) <= b < geo.blocks && b < 8 * BLOCK ==> !TestBit(was[1], b))
    && (forall i: nat :: 8 <= i < geo.files && i < 8 * BLOCK ==> !TestBit(was[geo.FdPages()], i))
  }

  /** The mounted volume is consistent and holds the three files, and no others. */
  ghost predicate Fresh(v: Vol, junk: seq<byte>)
    requires |junk| == 2
  {
    exists fs: Fs :: Agrees(v, fs) && TreeOf(v, fs) == MkTree(junk)
  }

  // --- Bitmaps ---------------------------------------------------------

  lemma MapByteBit(c: nat, b: nat)
    ensures Bit(MapByte(c, b / 8), b % 8) <==> b < c
  {
    hide Bit, LowBits;
    EightBits();
    var n := b / 8;
    if 8 * n + 8 <= c { LowBitsAre(8, b % 8); }
    else if 8 * n < c { LowBitsAre(c - 8 * n, b % 8); LowBitsIs(c - 8 * n); }
    else { NoBits(b % 8); }
  }

  lemma LowBitsIs(k: nat)
    requires k <= 8
    ensures LowBits(k) == Pow2(k) - 1
  {
  }

  lemma ImageMap(geo: Geometry, was: Blocks, disk: Blocks, junk: seq<byte>, b: nat)
    requires Made(geo, was, disk, junk) && b < geo.blocks
    ensures b < 8 * |Mounted(geo, disk).bmap| && b < 8 * |was[1]|
    ensures var s := geo.Service(); TestBit(Mounted(geo, disk).bmap, b) <==>
      b < s + 6 || (b >= 8 * MapEnd(s) && TestBit(was[1], b))
  {
    hide Bit, LowBits, MapByte, Inodes;
    var s := geo.Service();
    assert MapPage(was[1], disk[1], s + 6, 0, MapEnd(s));
    MapByteBit(s + 6, b);
    assert b / 8 < MapEnd(s) || b >= s + 6;
  }

  lemma ImageFdMap(geo: Geometry, was: Blocks, disk: Blocks, junk: seq<byte>, i: nat)
    requires Made(geo, was, disk, junk) && i < geo.files
    ensures i < 8 * |Mounted(geo, disk).fmap| && i < 8 * |was[geo.FdPages()]|
    ensures TestBit(Mounted(geo, disk).fmap, i) <==> i < 3 || (i >= 8 && TestBit(was[geo.FdPages()], i))
  {
    hide Bit, LowBits, Inodes, MapPages;
    LowBitsAre(3, i % 8);
    LowBitsIs(3);
  }

  /** The bits of a clean image. */
  lemma ImageBits(geo: Geometry, was: Blocks, disk: Blocks, junk: seq<byte>)
    requires Made(geo, was, disk, junk) && CleanMaps(geo, was)
    ensures var m := Mounted(geo, disk);
      && (forall b: nat :: b < geo.blocks && b < 8 * |m.bmap| ==> (TestBit(m.bmap, b) <==> b < geo.Service() + 6))
      && (forall i: nat :: i < geo.files && i < 8 * |m.fmap| ==> (TestBit(m.fmap, i) <==> i < 3))
  {
    hide TestBit, Image, Mounted;
    var m := Mounted(geo, disk);
    forall b: nat | b < geo.blocks && b < 8 * |m.bmap| ensures TestBit(m.bmap, b) <==> b < geo.Service() + 6 {
      ImageMap(geo, was, disk, junk, b);
    }
    forall i: nat | i < geo.files && i < 8 * |m.fmap| ensures TestBit(m.fmap, i) <==> i < 3 {
      ImageFdMap(geo, was, disk, junk, i);
    }
  }

  // --- Descriptors and datablocks --------------------------------------

  lemma ImageRecords(geo: Geometry, was: Blocks, disk: Blocks, junk: seq<byte>)
    requires Made(geo, was, disk, junk) && geo.files >= 3
    ensures var s := geo.Service();
      && RecordAt(geo, disk, 0) == Fd(DIR, s, 1, 2 * ENTRY)
      && RecordAt(geo, disk, 1) == Fd(REG, s + 1, 1, 3) && RecordAt(geo, disk, 2) == Fd(REG, s + 2, 1, 4)
  {
    hide FdAt, FdBytes, MapPages, OneBlock, RootBytes, LowBits;
    var s, m0 := geo.Service(), was[geo.FdList()];
    var a, b, c := Fd(DIR, s, 1, 2 * ENTRY), Fd(REG, s + 1, 1, 3), Fd(REG, s + 2, 1, 4);
    var m1 := Splice(m0, 0, FdBytes(a));
    var m2 := Splice(m1, 16, FdBytes(b));
    FdSpliced(m0, 0, a, 0);
    FdSpliced(m1, 16, b, 0);
    FdSpliced(m1, 16, b, 16);
    FdSpliced(m2, 32, c, 0);
    FdSpliced(m2, 32, c, 16);
    FdSpliced(m2, 32, c, 32);
  }

  lemma OneBlockList(was: seq<byte>, b: nat)
    requires |was| == BLOCK && b < WORD_LIMIT
    ensures ListWord(OneBlock(was, b), 0) == 1 && ListWord(OneBlock(was, b), 1) == b
  {
    var m := PutWord(was, 0, 1);
    assert OneBlock(was, b) == PutWord(m, 1, b);
  }

  lemma ImageSynced(geo: Geometry, was: Blocks, disk: Blocks, junk: seq<byte>)
    requires Made(geo, was, disk, junk)
    ensures ServiceSynced(Mounted(geo, disk))
  {
    hide InfoBytes, InfoAt, FdsBlock, OneBlock, RootBytes, MapPages, LowBits, Inodes;
    InfoRoundTrip(geo, was[0]);
  }

  lemma ImageNodes(geo: Geometry, s: nat)
    requires OnePage(geo) && Roomy(geo) && s == geo.Service() && geo.files >= 3
    ensures NodesOk(geo, MkFs(s)) && OwnersOk(geo, MkFs(s))
  {
    hide Elems, NoDup;
    ElemsOne([s + 3]);
    ElemsOne([s + 4]);
    ElemsOne([s + 5]);
    forall i: nat ensures NodeOk(geo, MkFs(s), i) {}
    forall b: nat ensures OwnerOk(geo, MkFs(s), b) {}
  }

  lemma ImageFds(geo: Geometry, was: Blocks, disk: Blocks, junk: seq<byte>)
    requires Made(geo, was, disk, junk) && CleanMaps(geo, was) && geo.files >= 3
    ensures FdsRep(Mounted(geo, disk), MkFs(geo.Service()))
  {
    hide TestBit, InfoAt, FdAt, Image, CleanMaps;
    var m, fs := Mounted(geo, disk), MkFs(geo.Service());
    ImageBits(geo, was, disk, junk);
    ImageRecords(geo, was, disk, junk);
    forall i: nat ensures FdRep(m, fs, i) {
      BitInPage(geo, i);
      assert i in m.inodes <==> i < 3;
    }
  }

  lemma DatablockAt(geo: Geometry, was: Blocks, disk: Blocks, junk: seq<byte>, i: nat)
    requires Made(geo, was, disk, junk) && i < 3
    ensures geo.Service() + i < |disk| && |disk[geo.Service() + i]| == BLOCK
    ensures ListWord(disk[geo.Service() + i], 0) == 1
    ensures ListWord(disk[geo.Service() + i], 1) == geo.Service() + 3 + i
  {
    hide MapPages, FdsBlock, OneBlock, RootBytes, ListWord, LowBits;
    var s := geo.Service();
    OneBlockList(was[s], s + 3);
    OneBlockList(was[s + 1], s + 4);
    OneBlockList(was[s + 2], s + 5);
  }

  lemma ImageLists(geo: Geometry, was: Blocks, disk: Blocks, junk: seq<byte>)
    requires Made(geo, was, disk, junk)
    ensures ListsRep(Mounted(geo, disk), MkFs(geo.Service()))
  {
    hide Image, ListWord, Inodes;
    DatablockAt(geo, was, disk, junk, 0);
    DatablockAt(geo, was, disk, junk, 1);
    DatablockAt(geo, was, disk, junk, 2);
    forall i: nat ensures ListRep(Mounted(geo, disk), MkFs(geo.Service()), i) {}
  }

  lemma OneBlockBytes(disk: Blocks, was: seq<byte>, b: nat, d: seq<byte>, n: Node)
    requires Formed(disk) && b < |disk| && |d| <= |was| == BLOCK && disk[b] == Splice(was, 0, d)
    requires n.blocks == [b] && n.size == |d|
    ensures BytesOf(disk, n) == d
  {
    assert [b][..0] == [];
    assert [] + disk[b] == disk[b];
    assert disk[b][..|d|] == d;
  }

  lemma ImageTree(geo: Geometry, was: Blocks, disk: Blocks, junk: seq<byte>)
    requires Made(geo, was, disk, junk)
    ensures TreeOf(Mounted(geo, disk), MkFs(geo.Service())) == MkTree(junk)
  {
    hide MapPages, FdsBlock, OneBlock, InfoAt, RootBytes, Inodes, BytesOf, Splice, LowBits;
    var s := geo.Service();
    var nodes := MkFs(s).nodes;
    OneBlockBytes(disk, was[s + 3], s + 3, RootBytes(junk), nodes[0]);
    OneBlockBytes(disk, was[s + 4], s + 4, FORTY_TWO, nodes[1]);
    OneBlockBytes(disk, was[s + 5], s + 5, BLA, nodes[2]);
  }

  // --- When the image is consistent ------------------------------------

  /** Every block's bit is set exactly when it is a service block or belongs to one of
      the three files. */
  lemma ImageRep(geo: Geometry, was: Blocks, disk: Blocks, junk: seq<byte>)
    requires Made(geo, was, disk, junk) && CleanMaps(geo, was) && geo.files >= 3
    ensures Rep(Mounted(geo, disk), MkFs(geo.Service()))
    ensures TreeOf(Mounted(geo, disk), MkFs(geo.Service())) == MkTree(junk)
  {
    hide Image, TestBit, InfoAt, ServiceSynced, Inodes, CleanMaps;
    var m, fs := Mounted(geo, disk), MkFs(geo.Service());
    ImageSynced(geo, was, disk, junk);
    ImageNodes(geo, geo.Service());
    ImageBits(geo, was, disk, junk);
    forall b: nat ensures BitRep(m, fs, b) {}
    ImageFds(geo, was, disk, junk);
    ImageLists(geo, was, disk, junk);
    ImageTree(geo, was, disk, junk);
  }

  lemma NodeHome(geo: Geometry, was: Blocks, disk: Blocks, junk: seq<byte>, fs: Fs, i: nat)
    requires Made(geo, was, disk, junk) && Agrees(Mounted(geo, disk), fs) && geo.files >= 3 && i < 3 && i in fs.nodes
    ensures fs.nodes[i].home == geo.Service() + i
  {
    hide Image, TestBit, FdAt, ServiceSynced, NodesOk, OwnersOk, BitsRep, ListsRep, Inodes;
    ImageRecords(geo, was, disk, junk);
    assert FdRep(Mounted(geo, disk), fs, i);
  }

  /** Files of a consistent volume mounted from the image lie where mkfs put them. */
  lemma NodeFound(geo: Geometry, was: Blocks, disk: Blocks, junk: seq<byte>, fs: Fs, i: nat)
    requires Made(geo, was, disk, junk) && Agrees(Mounted(geo, disk), fs) && geo.files >= 3 && i < 3 && i in fs.nodes
    ensures fs.nodes[i].home == geo.Service() + i && fs.nodes[i].blocks == [geo.Service() + 3 + i]
  {
    hide Image, ListWord, Inodes, ServiceSynced, BitsRep, FdsRep, OwnersOk, Elems, NoDup;
    NodeHome(geo, was, disk, junk, fs, i);
    DatablockAt(geo, was, disk, junk, i);
    assert NodeOk(geo, fs, i) && ListRep(Mounted(geo, disk), fs, i);
    assert ListWord(disk[geo.Service() + i], 0 + 1) == fs.nodes[i].blocks[0];
  }

  lemma BitsForced(geo: Geometry, was: Blocks, disk: Blocks, junk: seq<byte>, fs: Fs, b: nat)
    requires Made(geo, was, disk, junk) && Agrees(Mounted(geo, disk), fs) && geo.files >= 3
    requires fs.nodes.Keys == {0, 1, 2} && geo.Service() + 6 <= b < geo.blocks && b < 8 * |Mounted(geo, disk).bmap|
    ensures !TestBit(Mounted(geo, disk).bmap, b)
  {
    hide Image, Mounted, ServiceSynced, TestBit, FdsRep, ListsRep, Elems, NoDup;
    var m := Mounted(geo, disk);
    assert BitRep(m, fs, b) && OwnerOk(geo, fs, b);
    if b in fs.owner {
      var i := fs.owner[b];
      assert i in fs.nodes;
      NodeFound(geo, was, disk, junk, fs, i);
      ElemsOne(fs.nodes[i].blocks);
    }
  }

  /** An image on a device that was not clean takes free blocks for used ones, or finds
      descriptors that nobody wrote. */
  lemma FreshIsClean(geo: Geometry, was: Blocks, disk: Blocks, junk: seq<byte>)
    requires Made(geo, was, disk, junk) && geo.files >= 3 && Fresh(Mounted(geo, disk), junk)
    ensures CleanMaps(geo, was)
  {
    hide Image, Mounted, ServiceSynced, TestBit, NodesOk, OwnersOk, BitsRep, ListsRep, ItemOf;
    var m := Mounted(geo, disk);
    var fs: Fs :| Agrees(m, fs) && TreeOf(m, fs) == MkTree(junk);
    assert fs.nodes.Keys == TreeOf(m, fs).Keys == {0, 1, 2};
    forall b: nat | 8 * MapEnd(geo.Service()) <= b < geo.blocks && b < 8 * BLOCK ensures !TestBit(was[1], b) {
      ImageMap(geo, was, disk, junk, b);
      BitsForced(geo, was, disk, junk, fs, b);
    }
    forall i: nat | 8 <= i < geo.files && i < 8 * BLOCK ensures !TestBit(was[geo.FdPages()], i) {
      ImageFdMap(geo, was, disk, junk, i);
      assert FdRep(m, fs, i);
    }
  }

  lemma FreshHasFiles(v: Vol, junk: seq<byte>)
    requires |junk| == 2 && Fresh(v, junk)
    ensures v.geo.files >= 3
  {
    hide ServiceSynced, OwnersOk, BitsRep, ListsRep, FdsRep, ItemOf;
    var fs: Fs :| Agrees(v, fs) && TreeOf(v, fs) == MkTree(junk);
    assert 2 in TreeOf(v, fs);
    assert NodeOk(v.geo, fs, 2);
  }

  /** What mkfs wrote mounts as a consistent volume with its three files exactly when
      there are descriptors for them and the bits that it did not write were clear. */
  lemma FreshExactly(geo: Geometry, was: Blocks, disk: Blocks, junk: seq<byte>)
    requires Made(geo, was, disk, junk)
    ensures Fresh(Mounted(geo, disk), junk) <==> geo.files >= 3 && CleanMaps(geo, was)
  {
    hide Image, Mounted, CleanMaps, Agrees;
    var m := Mounted(geo, disk);
    if Fresh(m, junk) {
      FreshHasFiles(m, junk);
      FreshIsClean(geo, was, disk, junk);
    }
    if geo.files >= 3 && CleanMaps(geo, was) {
      ImageRep(geo, was, disk, junk);
      assert Agrees(m, MkFs(geo.Service()));
    }
  }

  // --- Its directory tree ----------------------------------------------

  lemma {:induction false} RefsRoot(t: Tree, i: nat, n: nat)
    requires n >= 1 && forall d: nat :: d >= 1 ==> DirEntries(t, d) == []
    ensures Refs(t, i, n) == Count(DirEntries(t, 0), i + 1)
  {
    hide DirEntries;
    if n > 1 { RefsRoot(t, i, n - 1); } else { assert Refs(t, i, 0) == 0; }
  }

  lemma RootEntries(junk: seq<byte>)
    requires |junk| == 2
    ensures Entries(RootBytes(junk)) == [Entry(2, HELLO), Entry(3, WORLD)]
  {
    hide EntryBytes, CString;
    var e := EntryBytes(2, HELLO, junk);
    EntriesAppend([], 2, HELLO, junk);
    assert [] + e == e;
    assert Entries([]) == [];
    EntriesAppend(e, 3, WORLD, junk);
  }

  lemma ImageEntries(junk: seq<byte>)
    requires |junk| == 2
    ensures var es, files := [Entry(2, HELLO), Entry(3, WORLD)], {0, 1, 2};
      && Distinct(es) && NamesIn(es, files) && MapOf(es) == map[HELLO := 2, WORLD := 3]
      && Count(es, 1) == 0 && Count(es, 2) == 1 && Count(es, 3) == 1
  {
    hide MapOf;
    var a, b := Entry(2, HELLO), Entry(3, WORLD);
    assert HELLO[0] != WORLD[0];
    MapNone();
    MapAppend([], a);
    assert [] + [a] == [a] && [a] + [b] == [a, b];
    MapAppend([a], b);
    forall fd: nat ensures Count([a, b], fd) == (if fd == 2 then 1 else 0) + if fd == 3 then 1 else 0 {
      CountConcat([a], [b], fd);
      CountOne(a, fd);
      CountOne(b, fd);
    }
  }

  lemma MapNone()
    ensures MapOf([]) == map[] && Distinct([])
  {
  }

  /** The tree of the image is well formed. */
  lemma ImageTreeOk(n: nat, junk: seq<byte>)
    requires n >= 3 && |junk| == 2
    ensures TreeOk(MkTree(junk), n)
    ensures DirMap(MkTree(junk), 0) == map[HELLO := 2, WORLD := 3]
  {
    hide Entries, RootBytes, Distinct, NamesIn, MapOf, Count, Refs;
    var t := MkTree(junk);
    RootEntries(junk);
    ImageEntries(junk);
    NoEntries(t.Keys);
    assert t.Keys == {0, 1, 2};
    forall d: nat ensures DirOk(t, d) {}
    forall i: nat ensures LinkOk(t, n, i) { RefsRoot(t, i, n); }
  }
}
