/** A file system from beginning to end: made by mkfs, mounted, used by any sequence of
    calls, and mounted again. */
module FfsSession {
  import opened Options
  import opened Bytes
  import opened Sequences
  import opened FfsFormat
  import opened FfsModel
  import opened FfsTree
  import opened FfsDirs
  import opened FfsLinks
  import opened FfsNames
  import opened FfsRemount
  import opened FfsMkfs
  import opened FfsImage
  import opened FfsLasting
  import opened FfsRuns
  import opened FfsAmple
  import opened FfsWriting
  import opened FfsAstray
  import opened FfsVolume

  /** The files of a volume, and the blocks they take. */
  function StateOf(v: Vol, fs: Fs): State
  {
    State(TreeOf(v, fs), UseOf(v.geo, fs))
  }

  // --- Link counts fit their field -------------------------------------

  lemma {:induction false} CountBound(es: seq<Entry>, fd: nat)
    ensures Count(es, fd) <= |es|
  {
    if es != [] { CountBound(es[..|es| - 1], fd); }
  }

  lemma {:induction false} RefsBound(t: Tree, i: nat, n: nat)
    requires forall d: nat :: |DirEntries(t, d)| <= 32 * MAX_BLOCKS
    ensures Refs(t, i, n) <= 32 * MAX_BLOCKS * n
  {
    hide DirEntries, Count;
    if n > 0 {
      RefsBound(t, i, n - 1);
      CountBound(DirEntries(t, n - 1), i + 1);
    }
  }

  /** At most 127 blocks of entries in each of at most 4096 directories. */
  lemma LinksFit(v: Vol, fs: Fs, i: nat)
    requires Rep(v, fs) && OnePage(v.geo) && TreeOk(TreeOf(v, fs), v.geo.files) && i in fs.nodes
    ensures fs.nodes[i].links + 1 < WORD_LIMIT
  {
    hide Rep, TreeOf, Refs, Entries, DirOk;
    var t := TreeOf(v, fs);
    FilesAre(v, fs);
    forall d: nat ensures |DirEntries(t, d)| <= 32 * MAX_BLOCKS {
      if d in fs.nodes { ItemAt(v, fs, d); }
    }
    RefsBound(t, i, v.geo.files);
    ItemAt(v, fs, i);
    assert LinkOk(t, v.geo.files, i);
  }

  lemma NoIndexLeft(v: Vol, fs: Fs)
    ensures NewIndex(TreeOf(v, fs), v.geo.files) == LeastFree(fs.nodes.Keys, v.geo.files, 0)
    ensures FdsTaken(v.geo, fs) ==> NewIndex(TreeOf(v, fs), v.geo.files) >= v.geo.files
  {
    assert TreeOf(v, fs).Keys == fs.nodes.Keys;
  }

  // --- One call --------------------------------------------------------

  /** What the state says about file i of the volume. */
  lemma StateAt(v: Vol, fs: Fs, i: nat)
    requires Rep(v, fs) && i in fs.nodes
    ensures var s := StateOf(v, fs);
      && i in s.tree && i in s.use.held && s.use.held[i] == |fs.nodes[i].blocks| && s.use.room == Room(v.geo, fs)
      && |s.tree[i].bytes| == fs.nodes[i].size && s.tree[i].kind == fs.nodes[i].kind
  {
    hide Rep, Room;
    ItemAt(v, fs, i);
  }

  lemma WroteTo(v: Vol, v': Vol, fs: Fs, fs': Fs, i: nat, pos: nat, data: seq<byte>, hole: seq<byte>, n: nat)
    requires n < WORD_LIMIT && Rep(v, fs) && WriteDone(v, v', fs, fs', i, pos, data, hole)
    requires Legal(StateOf(v, fs), n, Write(i, pos, data)) && !Starves(StateOf(v, fs), n, Write(i, pos, data))
    ensures StepTo(StateOf(v, fs), n, Write(i, pos, data), StateOf(v', fs'))
  {
    hide Rep, TreeOf, UseOf, UseWritten, TreePadded, TreeWritten, Room, Needed, Starved, Astray;
    DoneUse(v, v', fs, fs', i, pos, data, hole);
    StateAt(v, fs, i);
    assert HoleAt(hole, |TreeOf(v, fs)[i].bytes|, pos);
  }

  lemma WriteLegal(v: Vol, fs: Fs, n: nat, i: nat, pos: nat, data: seq<byte>)
    requires Rep(v, fs) && Legal(StateOf(v, fs), n, Write(i, pos, data))
    ensures i in fs.nodes && pos % WORD_LIMIT == pos && !Astray(|fs.nodes[i].blocks|, pos, |data|)
    ensures Starves(StateOf(v, fs), n, Write(i, pos, data)) <==>
      Starved(Room(v.geo, fs), |fs.nodes[i].blocks|, pos, |data|)
  {
    hide Rep, TreeOf, UseOf, Room, Starved, Astray;
    FilesAre(v, fs);
    StateAt(v, fs, i);
  }

  /** What VFS has the volume do for a call. */
  method Perform(vol: Volume, call: Call) returns (fault: bool)
    requires vol.Ready() && OnePage(vol.geo) && TreeOk(TreeOf(vol.V(), vol.fs), vol.geo.files)
    requires Legal(StateOf(vol.V(), vol.fs), vol.geo.files, call)
    modifies vol, vol.disk, vol.bBitmask, vol.fdBitmask
    ensures fault <==> Starves(old(StateOf(vol.V(), vol.fs)), vol.geo.files, call)
    ensures !fault ==> vol.Ready()
    ensures !fault ==> StepTo(old(StateOf(vol.V(), vol.fs)), vol.geo.files, call, StateOf(vol.V(), vol.fs))
  {
    hide Rep, TreeOf, TreeOk, DirMap, TreeUnlink, TreeCreate, TreeLink, TreeWritten, FdsTaken;
    hide CreateStarves, Starved, LeastFree, UseOf, UseWritten, UseCreated, UseRemoved, Room, Astray, TreePadded;
    FilesAre(vol.V(), vol.fs);
    fault := false;
    match call {
      case Create(d, kind, name, junk) =>
        StateAt(vol.V(), vol.fs, d);
        NoIndexLeft(vol.V(), vol.fs);
        var r;
        r, fault := vol.CreateEntry(d, kind, name, junk);
      case Link(d, i, name, junk) =>
        StateAt(vol.V(), vol.fs, d);
        LinksFit(vol.V(), vol.fs, i);
        fault := vol.LinkFile(i, d, name, junk);
      case Unlink(d, i, name) =>
        NodeAt(vol.V(), vol.fs, i);
        StateAt(vol.V(), vol.fs, i);
        if vol.inodes[i].kind == DIR {
          var ok := vol.RemoveDir(d, name, i);
        } else {
          vol.UnlinkFile(d, name, i);
        }
      case Write(i, pos, data) =>
        fault := PerformWrite(vol, i, pos, data);
    }
  }

  method PerformWrite(vol: Volume, i: nat, pos: nat, data: seq<byte>) returns (fault: bool)
    requires vol.Ready() && vol.geo.files < WORD_LIMIT
    requires Legal(StateOf(vol.V(), vol.fs), vol.geo.files, Write(i, pos, data))
    modifies vol, vol.disk, vol.bBitmask, vol.fdBitmask
    ensures fault <==> Starves(old(StateOf(vol.V(), vol.fs)), vol.geo.files, Write(i, pos, data))
    ensures !fault ==> vol.Ready()
    ensures !fault ==>
      StepTo(old(StateOf(vol.V(), vol.fs)), vol.geo.files, Write(i, pos, data), StateOf(vol.V(), vol.fs))
  {
    hide Rep, StateOf, Legal, Starves, Starved, Astray, WriteDone, WriteFile, LeftAstray, Agrees, StepTo, Framed;
    ghost var v, fs := vol.V(), vol.fs;
    WriteLegal(v, fs, vol.geo.files, i, pos, data);
    ghost var hole;
    var pos';
    pos', fault, hole := vol.FileWrite(i, data, pos, false);
    if !fault { WroteTo(v, vol.V(), fs, vol.fs, i, pos, data, hole, vol.geo.files); }
  }

  // --- Runs ------------------------------------------------------------

  /** Some run of the first k calls leads to where the next one cannot be met. */
  ghost predicate StarvesAt(s: State, n: nat, calls: seq<Call>, k: nat)
    requires n < WORD_LIMIT
  {
    k < |calls| && exists u: State :: Reaches(s, n, calls[..k], u) && Legal(u, n, calls[k]) && Starves(u, n, calls[k])
  }

  lemma StarvesNow(s: State, n: nat, calls: seq<Call>, k: nat, u: State)
    requires n < WORD_LIMIT && k < |calls| && Reaches(s, n, calls[..k], u)
    requires Legal(u, n, calls[k]) && Starves(u, n, calls[k])
    ensures StarvesAt(s, n, calls, k)
  {
    hide Reaches, Legal, Starves;
  }

  /** Any number of calls on a mounted volume, until one of them cannot be met. */
  method PerformAll(vol: Volume, calls: seq<Call>, ghost s: State) returns (fault: bool)
    requires vol.Ready() && OnePage(vol.geo) && vol.geo.files < WORD_LIMIT
    requires s == StateOf(vol.V(), vol.fs) && TreeOk(s.tree, vol.geo.files) && LegalRun(s, vol.geo.files, calls)
    modifies vol, vol.disk, vol.bBitmask, vol.fdBitmask
    ensures fault <==> exists k: nat :: StarvesAt(s, vol.geo.files, calls, k)
    ensures !fault ==> vol.Ready() && Reaches(s, vol.geo.files, calls, StateOf(vol.V(), vol.fs))
  {
    hide Rep, StateOf, TreeOk, LegalRun, Reaches, Legal, Starves, StarvesAt, StepTo, Framed;
    ghost var n := vol.geo.files;
    ReachesNone(s, n);
    assert calls[..0] == [];
    var k := 0;
    while k < |calls|
      invariant 0 <= k <= |calls| && vol.Ready() && Reaches(s, n, calls[..k], StateOf(vol.V(), vol.fs))
      invariant forall j: nat :: j < k ==> !StarvesAt(s, n, calls, j)
    {
      ghost var u := StateOf(vol.V(), vol.fs);
      LegalAt(s, n, calls, k, u);
      RunKeeps(s, n, calls[..k], u);
      TreeIn(vol.V(), vol.fs);
      fault := Perform(vol, calls[k]);
      if fault {
        StarvesNow(s, n, calls, k, u);
        return;
      }
      ReachesMore(s, n, calls, k, u, StateOf(vol.V(), vol.fs));
      MetByAll(s, n, calls, k, u, StateOf(vol.V(), vol.fs));
      k := k + 1;
    }
    assert calls[..k] == calls;
    NoneLeft(s, n, calls);
    fault := false;
  }

  lemma TreeIn(v: Vol, fs: Fs)
    ensures StateOf(v, fs).tree == TreeOf(v, fs)
  {
  }

  lemma NoneLeft(s: State, n: nat, calls: seq<Call>)
    requires n < WORD_LIMIT
    ensures forall k: nat :: k >= |calls| ==> !StarvesAt(s, n, calls, k)
  {
  }

  /** A call that could be met in one run could be met in all. */
  lemma MetByAll(s: State, n: nat, calls: seq<Call>, k: nat, u: State, u': State)
    requires n < WORD_LIMIT && k < |calls| && Reaches(s, n, calls[..k], u) && StepTo(u, n, calls[k], u')
    ensures !StarvesAt(s, n, calls, k)
  {
    hide Reaches, Legal, Starves, TreeTo, UseAfter;
    forall w: State | Reaches(s, n, calls[..k], w) && Legal(w, n, calls[k]) ensures !Starves(w, n, calls[k]) {
      RunsAlike(s, s, n, calls[..k], u, w);
      StarvesAlike(u, w, n, calls[k]);
    }
  }

  lemma AmpleRun(geo: Geometry, junk: seq<byte>, calls: seq<Call>)
    requires 3 <= geo.files < WORD_LIMIT && |junk| == 2 && Ample(geo, calls)
    ensures forall k: nat :: !StarvesAt(MkState(geo, junk), geo.files, calls, k)
  {
    hide Reaches, Legal, Starves, MkState, Ample;
    forall k: nat ensures !StarvesAt(MkState(geo, junk), geo.files, calls, k) {
      if k < |calls| {
        forall u: State | Reaches(MkState(geo, junk), geo.files, calls[..k], u) && Legal(u, geo.files, calls[k])
          ensures !Starves(u, geo.files, calls[k])
        {
          AmpleNeverStarves(geo, junk, calls, k, u);
        }
      }
    }
  }

  /** mkfs and the first mount. */
  method MakeAndMount(disk: array<seq<byte>>, size: nat, junk: seq<byte>) returns (vol: Volume)
    requires 9600 <= size < 4097 * BLOCK && disk.Length == size / BLOCK && |junk| == 2 && Formed(disk[..])
    requires Roomy(Layout(size)) && CleanMaps(Layout(size), disk[..])
    modifies disk
    ensures vol.Ready() && vol.disk == disk && vol.geo == Layout(size) && OnePage(vol.geo)
    ensures fresh(vol) && fresh(vol.bBitmask) && fresh(vol.fdBitmask)
    ensures StateOf(vol.V(), vol.fs) == MkState(Layout(size), junk)
    ensures TreeOk(MkState(Layout(size), junk).tree, vol.geo.files)
  {
    hide Rep, TreeOf, TreeOk, Image, Layout, CleanMaps, Mounted, InfoAt, MkTree, UseOf;
    ghost var geo, was := Layout(size), disk[..];
    Layouts(size);
    LayoutRoomy(size);
    Mkfs(disk, size, junk);
    ImageRep(geo, was, disk[..], junk);
    ImageTreeOk(geo.files, junk);
    ghost var v := Mounted(geo, disk[..]);
    MountsBack(v, MkFs(geo.Service()));
    FreshUse(geo);
    var w, fault := Volume.Mount(disk, v, MkFs(geo.Service()));
    vol := w.value;
  }

  lemma FreshUse(geo: Geometry)
    ensures UseOf(geo, MkFs(geo.Service())) ==
      Use(map[0 := 1, 1 := 1, 2 := 1], geo.blocks - geo.Service() - 6)
  {
    hide Room;
    FreshRoom(geo);
  }

  lemma MkOwners(s: nat)
    ensures forall b: nat :: b in MkFs(s).owner <==> s <= b < s + 6
  {
  }

  lemma SixKeys(s: nat, owner: map<nat, nat>)
    requires forall b: nat :: b in owner <==> s <= b < s + 6
    ensures |owner| == 6
  {
    Filled(owner.Keys, s, s + 6);
    assert |owner.Keys| == |owner|;
  }

  lemma FreshRoom(geo: Geometry)
    ensures Room(geo, MkFs(geo.Service())) == geo.blocks - geo.Service() - 6
  {
    hide MkFs;
    MkOwners(geo.Service());
    SixKeys(geo.Service(), MkFs(geo.Service()).owner);
  }

  lemma MountsBack(v: Vol, fs: Fs)
    requires Rep(v, fs)
    ensures |v.disk| > 0 && Formed(v.disk) && InfoAt(v.disk[0]) == Some(v.geo) && Readable(v.geo, v.disk)
    ensures !MountStrays(v.geo) <==> OnePage(v.geo)
  {
    hide InfoAt, Mounted, Strays;
    RemountIdentity(v, fs);
    MountsSafely(v.geo);
  }

  method Remount(vol: Volume) returns (again: Volume)
    requires vol.Ready() && OnePage(vol.geo)
    ensures again.disk == vol.disk && again.geo == vol.geo && again.Ready()
    ensures again.V() == vol.V() && again.fs == vol.fs
  {
    hide Rep, InfoAt, Mounted, Strays;
    MountsBack(vol.V(), vol.fs);
    var w, fault := Volume.Mount(vol.disk, vol.V(), vol.fs);
    again := w.value;
  }

  /** Made, mounted, used and mounted again: the files are those that the calls make of
      the three of mkfs, and the fault comes exactly when one of them cannot be met. */
  method Session(disk: array<seq<byte>>, size: nat, junk: seq<byte>, calls: seq<Call>)
      returns (vol: Volume, fault: bool)
    requires 9600 <= size < 4097 * BLOCK && disk.Length == size / BLOCK && |junk| == 2 && Formed(disk[..])
    requires Roomy(Layout(size)) && CleanMaps(Layout(size), disk[..])
    requires LegalRun(MkState(Layout(size), junk), Layout(size).files, calls)
    modifies disk
    ensures fault <==> exists k: nat :: StarvesAt(MkState(Layout(size), junk), Layout(size).files, calls, k)
    ensures Ample(Layout(size), calls) ==> !fault
    ensures !fault ==> vol.Ready() && vol.disk == disk && vol.geo == Layout(size)
    ensures !fault ==>
      Reaches(MkState(Layout(size), junk), Layout(size).files, calls, StateOf(vol.V(), vol.fs))
  {
    hide Rep, StateOf, TreeOk, LegalRun, Reaches, StarvesAt, Layout, CleanMaps, MkState, Formed, Ample;
    Layouts(size);
    if Ample(Layout(size), calls) { AmpleRun(Layout(size), junk, calls); }
    vol := MakeAndMount(disk, size, junk);
    fault := PerformAll(vol, calls, MkState(Layout(size), junk));
    if !fault { vol := Remount(vol); }
  }

  lemma CleanZeros(geo: Geometry, was: Blocks)
    requires Roomy(geo) && |was| == geo.blocks && forall b :: 0 <= b < |was| ==> was[b] == Zeros()
    ensures Formed(was) && CleanMaps(geo, was)
  {
    hide Bit;
    forall n: nat ensures !Bit(0, n) { NoBits(n); }
  }

  /** One new file in the fresh state of a device of 40 blocks. */
  lemma NewFileFits(v: Vol, fs: Fs, junk: seq<byte>)
    requires |junk| == 2 && v.geo == Layout(40 * BLOCK) && StateOf(v, fs) == MkState(v.geo, junk)
    ensures v.geo.files == 6 && 0 in fs.nodes && LeastFree(fs.nodes.Keys, 6, 0) == 3 && !FdsTaken(v.geo, fs)
    ensures fs.nodes[0].blocks != [] && Room(v.geo, fs) == 30
    ensures !CreateStarves(Room(v.geo, fs), |fs.nodes[0].blocks|, 2 * ENTRY)
    ensures UseCreated(UseOf(v.geo, fs), 0, 3, 2 * ENTRY).room >= 28
    ensures 3 in UseCreated(UseOf(v.geo, fs), 0, 3, 2 * ENTRY).held
    ensures UseCreated(UseOf(v.geo, fs), 0, 3, 2 * ENTRY).held[3] == 0
  {
    hide RootBytes, TreeOf;
    assert UseOf(v.geo, fs).held.Keys == fs.nodes.Keys == {0, 1, 2};
    assert UseOf(v.geo, fs).held[0] == |fs.nodes[0].blocks| == 1;
  }

  /** A run that ends astray: one byte at position 5000 of a new file. */
  method GapRun() returns (vol: Volume, fault: bool)
    ensures !fault && vol.Whole() && forall fs: Fs :: !Agrees(vol.V(), fs)
  {
    hide Rep, Agrees, StateOf, MkState, FdsTaken, Starved, CreateStarves, LeastFree, UseOf;
    hide UseCreated, Room, LeftAstray;
    var disk := new seq<byte>[40](_ => Zeros());
    LayoutRoomy(40 * BLOCK);
    CleanZeros(Layout(40 * BLOCK), disk[..]);
    vol := MakeAndMount(disk, 40 * BLOCK, [0, 0]);
    NewFileFits(vol.V(), vol.fs, [0, 0]);
    RootSize(vol.V(), vol.fs, [0, 0]);
    var i;
    i, fault := vol.CreateEntry(0, REG, [97], seq(10, _ => 0));
    GapStarts(vol.geo, vol.fs);
    var pos;
    ghost var hole;
    pos, fault, hole := vol.FileWrite(3, [65], 5000, false);
  }

  lemma RootSize(v: Vol, fs: Fs, junk: seq<byte>)
    requires |junk| == 2 && Rep(v, fs) && 0 in fs.nodes && StateOf(v, fs) == MkState(v.geo, junk)
    ensures fs.nodes[0].size == 2 * ENTRY
  {
    hide Rep, UseOf, RootBytes;
    ItemAt(v, fs, 0);
  }

  lemma GapStarts(geo: Geometry, fs: Fs)
    requires UseOf(geo, fs).room >= 28 && 3 in UseOf(geo, fs).held && UseOf(geo, fs).held[3] == 0
    ensures 3 in fs.nodes && Astray(|fs.nodes[3].blocks|, 5000, 1)
    ensures !Starved(Room(geo, fs), |fs.nodes[3].blocks|, 5000, 1)
  {
    hide Room;
    assert UseOf(geo, fs).held[3] == |fs.nodes[3].blocks|;
  }
}
