/** What users see of a volume: files with their bytes, without blocks or bitmaps. */
module FfsTree {
  import opened Bytes
  import opened Sequences
  import opened FfsFormat
  import opened FfsContents
  import opened FfsModel
  import opened FfsSteps

  datatype Item = Item(kind: nat, links: nat, bytes: seq<byte>)

  type Tree = map<nat, Item>

  function BytesOf(disk: Blocks, n: Node): seq<byte>
  {
    if OnDisk(disk, n.blocks) && n.size <= BLOCK * |n.blocks| then Flat(disk, n.blocks)[..n.size] else []
  }

  function ItemOf(disk: Blocks, n: Node): Item
  {
    Item(n.kind, n.links, BytesOf(disk, n))
  }

  function TreeOf(v: Vol, fs: Fs): Tree
  {
    map i | i in fs.nodes :: ItemOf(v.disk, fs.nodes[i])
  }

  /** File i of the tree with d written at pos. */
  function TreeWritten(t: Tree, i: nat, pos: nat, d: seq<byte>): Tree
  {
    if i in t && pos <= |t[i].bytes| then t[i := t[i].(bytes := Written(t[i].bytes, pos, d))] else t
  }

  /** File i of the tree with more bytes behind its end. */
  function TreePadded(t: Tree, i: nat, hole: seq<byte>): Tree
  {
    if i in t then t[i := t[i].(bytes := t[i].bytes + hole)] else t
  }

  lemma PaddedNone(t: Tree, i: nat)
    ensures TreePadded(t, i, []) == t
  {
    if i in t { assert t[i].bytes + [] == t[i].bytes; }
  }

  lemma BytesSame(disk: Blocks, disk': Blocks, n: Node)
    requires Formed(disk) && Formed(disk') && |disk'| == |disk|
    requires forall b :: b in Elems(n.blocks) && b < |disk| ==> disk'[b] == disk[b]
    ensures BytesOf(disk', n) == BytesOf(disk, n)
  {
    if OnDisk(disk, n.blocks) {
      forall j | 0 <= j < |n.blocks| ensures disk'[n.blocks[j]] == disk[n.blocks[j]] {
        assert n.blocks[j] in Elems(n.blocks);
      }
      FlatSame(disk, disk', n.blocks);
    }
  }

  lemma BlocksOnDisk(v: Vol, fs: Fs, i: nat)
    requires Rep(v, fs) && i in fs.nodes
    ensures OnDisk(v.disk, fs.nodes[i].blocks) && NoDup(fs.nodes[i].blocks)
    ensures fs.nodes[i].size <= BLOCK * |fs.nodes[i].blocks| && |fs.nodes[i].blocks| <= MAX_BLOCKS
  {
    assert NodeOk(v.geo, fs, i);
    BlocksInRange(v, fs, i);
  }

  /** The device may change in blocks that only file i owns, or that nobody does. */
  ghost predicate OthersKept(v: Vol, v': Vol, fs: Fs, i: nat)
  {
    && |v'.disk| == |v.disk|
    && forall b :: b in fs.owner && fs.owner[b] != i && b < |v.disk| ==> v'.disk[b] == v.disk[b]
  }

  /** Other files still own what they owned. */
  ghost predicate OwnersKept(fs: Fs, fs': Fs, i: nat)
  {
    forall b :: b in fs.owner && fs.owner[b] != i ==> b in fs'.owner && fs'.owner[b] == fs.owner[b]
  }

  lemma OtherBytes(v: Vol, v': Vol, fs: Fs, i: nat, k: nat)
    requires Rep(v, fs) && Framed(v') && OthersKept(v, v', fs, i) && k in fs.nodes && k != i
    ensures ItemOf(v'.disk, fs.nodes[k]) == ItemOf(v.disk, fs.nodes[k])
  {
    hide Elems;
    assert NodeOk(v.geo, fs, k);
    BytesSame(v.disk, v'.disk, fs.nodes[k]);
  }

  /** Then only item i of the tree can differ. */
  lemma TreeFrame(v: Vol, v': Vol, fs: Fs, fs': Fs, i: nat)
    requires Rep(v, fs) && Framed(v') && OthersKept(v, v', fs, i)
    requires forall k :: k != i ==>
      (k in fs'.nodes <==> k in fs.nodes) && (k in fs.nodes ==> fs'.nodes[k] == fs.nodes[k])
    ensures TreeOf(v', fs') ==
      if i in fs'.nodes then TreeOf(v, fs)[i := ItemOf(v'.disk, fs'.nodes[i])] else TreeOf(v, fs) - {i}
  {
    hide Rep, ItemOf;
    forall k | k in fs.nodes && k != i ensures ItemOf(v'.disk, fs'.nodes[k]) == ItemOf(v.disk, fs.nodes[k]) {
      OtherBytes(v, v', fs, i, k);
    }
  }

  lemma KeptTrans(v0: Vol, v1: Vol, v2: Vol, fs0: Fs, fs1: Fs, fs2: Fs, i: nat)
    requires OthersKept(v0, v1, fs0, i) && OwnersKept(fs0, fs1, i)
    requires OthersKept(v1, v2, fs1, i) && OwnersKept(fs1, fs2, i)
    ensures OthersKept(v0, v2, fs0, i) && OwnersKept(fs0, fs2, i)
  {
  }

  lemma KeptSelf(v: Vol, fs: Fs, i: nat)
    ensures OthersKept(v, v, fs, i) && OwnersKept(fs, fs, i)
  {
  }

  lemma ItemAt(v: Vol, fs: Fs, i: nat)
    requires Rep(v, fs) && i in fs.nodes
    ensures i in TreeOf(v, fs) && TreeOf(v, fs)[i] == ItemOf(v.disk, fs.nodes[i])
    ensures |TreeOf(v, fs)[i].bytes| == fs.nodes[i].size <= BLOCK * MAX_BLOCKS
  {
    hide Rep;
    BlocksOnDisk(v, fs, i);
  }

  /** File i cut to size bytes, with another link count. */
  function TreeSet(t: Tree, i: nat, size: nat, links: nat): Tree
  {
    if i in t && size <= |t[i].bytes| then t[i := Item(t[i].kind, links, t[i].bytes[..size])] else t
  }

  /** Writing a descriptor leaves every file's blocks alone. */
  lemma PutFdKeeps(v: Vol, fs: Fs, i: nat, fd: Fd)
    requires Rep(v, fs) && i in fs.nodes && i < v.geo.files && fd.Fits()
    ensures OthersKept(v, PutFd(v, i, fd), fs, i) && OwnersKept(fs, Resized(fs, i, fd.size, fd.links), i)
    ensures OnDisk(v.disk, fs.nodes[i].blocks) && OnDisk(PutFd(v, i, fd).disk, fs.nodes[i].blocks)
    ensures Flat(PutFd(v, i, fd).disk, fs.nodes[i].blocks) == Flat(v.disk, fs.nodes[i].blocks)
  {
    hide FdBytes, ServiceSynced, BitsRep, FdsRep, ListsRep;
    BitInPage(v.geo, i);
    BlocksOnDisk(v, fs, i);
    var v' := PutFd(v, i, fd);
    forall b | b in fs.owner && b < |v.disk| ensures v'.disk[b] == v.disk[b] { assert OwnerOk(v.geo, fs, b); }
    forall j | 0 <= j < |fs.nodes[i].blocks| ensures v'.disk[fs.nodes[i].blocks[j]] == v.disk[fs.nodes[i].blocks[j]] {
      DataBlock(v.geo, fs, i, j);
    }
    FlatSame(v.disk, v'.disk, fs.nodes[i].blocks);
  }

  lemma SetTree(v: Vol, fs: Fs, i: nat, size: nat, links: nat)
    requires Rep(v, fs) && i in fs.nodes && size <= fs.nodes[i].size && links < WORD_LIMIT
    ensures i < v.geo.files && fs.nodes[i].(size := size, links := links).Descriptor().Fits()
    ensures
      var v' := PutFd(v, i, fs.nodes[i].(size := size, links := links).Descriptor());
      var fs' := Resized(fs, i, size, links);
      Rep(v', fs') && TreeOf(v', fs') == TreeSet(TreeOf(v, fs), i, size, links)
  {
    hide Rep, FdBytes, ServiceSynced;
    BlocksOnDisk(v, fs, i);
    ResizeRep(v, fs, i, size, links);
    var fd := fs.nodes[i].(size := size, links := links).Descriptor();
    var v', fs' := PutFd(v, i, fd), Resized(fs, i, size, links);
    PutFdKeeps(v, fs, i, fd);
    ItemAt(v, fs, i);
    TreeFrame(v, v', fs, fs', i);
    var bytes := BytesOf(v.disk, fs.nodes[i]);
    assert BytesOf(v'.disk, fs'.nodes[i]) == bytes[..size];
  }

  lemma CreateTree(v: Vol, fs: Fs, i: nat, b: nat, kind: nat)
    requires Rep(v, fs) && i < v.geo.files && i !in fs.nodes && kind < WORD_LIMIT
    requires b < v.geo.blocks && b < 8 * |v.bmap| && !TestBit(v.bmap, b)
    ensures Rep(Create(v, i, b, kind), Add(fs, i, b, kind))
    ensures TreeOf(Create(v, i, b, kind), Add(fs, i, b, kind)) == TreeOf(v, fs)[i := Item(kind, 1, [])]
    ensures Room(v.geo, Add(fs, i, b, kind)) == Room(v.geo, fs) - 1
  {
    hide TestBit, Create, ListWord, ServiceSynced, NodeOk, BitRep, FdRep, ListRep, ItemOf;
    CreateRep(v, fs, i, b, kind);
    AddRoom(v, fs, i, b, kind);
    CreateDisk(v, i, b, kind);
    var v', fs' := Create(v, i, b, kind), Add(fs, i, b, kind);
    forall c | c in fs.owner && c < |v.disk| ensures v'.disk[c] == v.disk[c] { assert OwnerOk(v.geo, fs, c); }
    TreeFrame(v, v', fs, fs', i);
    EmptyItem(v'.disk, fs'.nodes[i]);
  }

  lemma AddRoom(v: Vol, fs: Fs, i: nat, b: nat, kind: nat)
    requires Rep(v, fs) && b < v.geo.blocks && b < 8 * |v.bmap| && !TestBit(v.bmap, b)
    ensures v.geo.Service() <= b && b !in fs.owner && Room(v.geo, Add(fs, i, b, kind)) == Room(v.geo, fs) - 1
  {
    Unowned(v, fs, b);
    assert fs.owner[b := i].Keys == fs.owner.Keys + {b};
  }

  lemma EmptyItem(disk: Blocks, n: Node)
    requires n.blocks == [] && n.size == 0
    ensures ItemOf(disk, n) == Item(n.kind, n.links, [])
  {
  }

  /** Removing a file gives back its datablock and every block listed in it. */
  lemma EraseTree(v: Vol, fs: Fs, i: nat)
    requires Rep(v, fs) && i in fs.nodes
    ensures i < v.geo.files && fs.nodes[i].home < v.geo.blocks
    ensures forall j :: 0 <= j < |fs.nodes[i].blocks| ==> fs.nodes[i].blocks[j] < v.geo.blocks
    ensures var v', fs' := Erase(v, i, fs.nodes[i].home, fs.nodes[i].blocks), Removed(fs, i);
      && Rep(v', fs') && TreeOf(v', fs') == TreeOf(v, fs) - {i}
      && Room(v.geo, fs') == Room(v.geo, fs) + |fs.nodes[i].blocks| + 1
  {
    hide TestBit, Erase, ListWord, ServiceSynced, BitRep, FdRep, ListRep, Elems, NoDup;
    EraseRep(v, fs, i);
    var n := fs.nodes[i];
    EraseDisk(v, i, n.home, n.blocks);
    var v', fs' := Erase(v, i, n.home, n.blocks), Removed(fs, i);
    forall c | c in fs.owner && c < |v.disk| ensures v'.disk[c] == v.disk[c] { assert OwnerOk(v.geo, fs, c); }
    TreeFrame(v, v', fs, fs', i);
    assert NodeOk(v.geo, fs, i);
    ElemsSize(n.blocks);
    assert Owned(n) <= fs.owner.Keys;
    assert fs'.owner.Keys == fs.owner.Keys - Owned(n);
  }

  // --- Room ------------------------------------------------------------

  /** Blocks that are still free. */
  function Room(geo: Geometry, fs: Fs): int
  {
    geo.blocks - geo.Service() - |fs.owner|
  }

  function BlocksFor(size: nat): nat { (size + BLOCK - 1) / BLOCK }

  /** Blocks that a write of len bytes at pos adds to a file of count blocks. */
  function Needed(count: nat, pos: nat, len: nat): nat
  {
    var from := Max(count, pos / BLOCK);
    if len > 0 && BlocksFor(pos + len) > from then BlocksFor(pos + len) - from else 0
  }

  /** A write of len bytes at pos wants more blocks than there are, or more than a datablock
      can list. */
  predicate Starved(room: int, count: nat, pos: nat, len: nat)
  {
    len > 0 && (pos + len > BLOCK * MAX_BLOCKS || Needed(count, pos, len) > room)
  }

  /** A write at pos leaves out blocks: its entry goes behind entries that are not there
      or, without a byte to write, the size behind the last block. */
  predicate Astray(count: nat, pos: nat, len: nat)
  {
    if len == 0 then pos > BLOCK * count else pos / BLOCK > count
  }

  /** A new file, with its datablock and its entry in a directory of count blocks and size
      bytes, wants more blocks than there are. */
  predicate CreateStarves(room: int, count: nat, size: nat)
  {
    size + 16 > BLOCK * MAX_BLOCKS || 1 + Needed(count, size, 16) > room
  }

  /** How many blocks each file lists, and how many are free. */
  datatype Use = Use(held: map<nat, nat>, room: int)

  function UseOf(geo: Geometry, fs: Fs): Use
  {
    Use(map i | i in fs.nodes :: |fs.nodes[i].blocks|, Room(geo, fs))
  }

  /** A write of len bytes at pos. */
  function UseWritten(u: Use, i: nat, pos: nat, len: nat): Use
  {
    if i !in u.held then u
    else
      var more := Needed(u.held[i], pos, len);
      Use(u.held[i := u.held[i] + more], u.room - more)
  }

  /** A new file i, with its entry behind size bytes of directory d. */
  function UseCreated(u: Use, d: nat, i: nat, size: nat): Use
  {
    UseWritten(Use(u.held[i := 0], u.room - 1), d, size, 16)
  }

  function UseRemoved(u: Use, i: nat): Use
  {
    if i in u.held then Use(u.held - {i}, u.room + u.held[i] + 1) else u
  }

  /** What the next chunk, which ends at or before the end of its block, adds. */
  lemma NeededStep(count: nat, pos: nat, done: nat, d: nat)
    requires pos / BLOCK <= count && 0 < d && (pos + done) % BLOCK + d <= BLOCK
    ensures count + Needed(count, pos, done + d) == Max(count + Needed(count, pos, done), (pos + done) / BLOCK + 1)
    ensures (pos + done) / BLOCK <= count + Needed(count, pos, done)
  {
  }

  lemma NeededMono(count: nat, pos: nat, len: nat, len': nat)
    requires len <= len'
    ensures Needed(count, pos, len) <= Needed(count, pos, len')
  {
  }

  /** There is a clear bit in the block bitmap exactly when there is room. */
  lemma RoomIsFree(v: Vol, fs: Fs)
    requires Rep(v, fs)
    ensures Room(v.geo, fs) >= 0
    ensures Room(v.geo, fs) == 0 <==> forall b: nat :: b < v.geo.blocks && b < 8 * |v.bmap| ==> TestBit(v.bmap, b)
  {
    hide TestBit, Elems;
    forall b | b in fs.owner.Keys ensures v.geo.Service() <= b < v.geo.blocks { assert OwnerOk(v.geo, fs, b); }
    Filled(fs.owner.Keys, v.geo.Service(), v.geo.blocks);
    forall b: nat | b < v.geo.blocks
      ensures b < 8 * |v.bmap| && (TestBit(v.bmap, b) <==> b < v.geo.Service() || b in fs.owner)
    {
      BitInPage(v.geo, b);
      assert BitRep(v, fs, b);
    }
    assert |fs.owner| == |fs.owner.Keys|;
  }

  // --- Descriptors -----------------------------------------------------

  /** The first index from a given one on that is not in use; n or more when all are. */
  function LeastFree(used: set<nat>, n: nat, from: nat): (i: nat)
    ensures from <= i && forall k :: from <= k < i ==> k in used
    ensures i < n ==> i !in used
    decreases n - from
  {
    if from < n && from in used then LeastFree(used, n, from + 1) else from
  }

  // --- Ownership -------------------------------------------------------

  /** The invariant in plain words: a block's bit is set exactly when it is a service
      block or belongs to a file, as its datablock or as one entry of its list; no block
      belongs to two files, or twice to one, or to the service area and a file. */
  lemma BlockOwnership(v: Vol, fs: Fs, b: nat)
    requires Rep(v, fs) && b < v.geo.blocks
    ensures b < 8 * |v.bmap| &&
      (TestBit(v.bmap, b) <==> b < v.geo.Service() || exists i :: i in fs.nodes && b in Owned(fs.nodes[i]))
    ensures forall i, j :: i in fs.nodes && j in fs.nodes && b in Owned(fs.nodes[i]) && b in Owned(fs.nodes[j]) ==>
      i == j
    ensures forall i :: i in fs.nodes && b in Owned(fs.nodes[i]) ==> v.geo.Service() <= b
    ensures forall i :: i in fs.nodes ==> |Owned(fs.nodes[i])| == |fs.nodes[i].blocks| + 1
  {
    hide TestBit, Elems, NoDup;
    BitInPage(v.geo, b);
    assert BitRep(v, fs, b) && OwnerOk(v.geo, fs, b);
    forall i | i in fs.nodes && b in Owned(fs.nodes[i]) ensures b in fs.owner && fs.owner[b] == i {
      assert NodeOk(v.geo, fs, i);
    }
    if b in fs.owner { assert b in Owned(fs.nodes[fs.owner[b]]); }
    forall i | i in fs.nodes ensures |Owned(fs.nodes[i])| == |fs.nodes[i].blocks| + 1 {
      assert NodeOk(v.geo, fs, i);
      ElemsSize(fs.nodes[i].blocks);
    }
  }
}
