/** fs/ffs.c: file_write at a position that leaves out blocks. The data can be read back,
    but the file's list and its size no longer agree, whatever the files are taken to be. */
module FfsAstray {
  import opened Options
  import opened Bytes
  import opened Sequences
  import opened FfsFormat
  import opened FfsContents
  import opened FfsModel
  import opened FfsTree
  import opened FfsWriting

  // --- Clear bits, counted ---------------------------------------------

  function Clear(bm: seq<byte>, n: nat): (c: nat)
    requires n <= 8 * |bm|
    ensures c <= n
  {
    if n == 0 then 0 else Clear(bm, n - 1) + if TestBit(bm, n - 1) then 0 else 1
  }

  ghost function SetBits(bm: seq<byte>, n: nat): set<nat>
    requires n <= 8 * |bm|
  {
    set b: nat | b < n && TestBit(bm, b)
  }

  lemma {:induction false} ClearIs(bm: seq<byte>, n: nat)
    requires n <= 8 * |bm|
    ensures Clear(bm, n) + |SetBits(bm, n)| == n
  {
    hide TestBit;
    if n > 0 {
      ClearIs(bm, n - 1);
      var s, s' := SetBits(bm, n - 1), SetBits(bm, n);
      assert s' == if TestBit(bm, n - 1) then s + {n - 1} else s;
    }
  }

  lemma {:induction false} ClearNone(bm: seq<byte>, n: nat)
    requires n <= 8 * |bm|
    ensures Clear(bm, n) == 0 <==> forall b: nat :: b < n ==> TestBit(bm, b)
  {
    hide TestBit;
    if n > 0 { ClearNone(bm, n - 1); }
  }

  lemma {:induction false} ClearMarked(bm: seq<byte>, b: nat, n: nat)
    requires n <= 8 * |bm| && b < 8 * |bm| && !TestBit(bm, b)
    ensures Clear(WithBit(bm, b), n) == Clear(bm, n) - if b < n then 1 else 0
  {
    hide TestBit, WithBit;
    if n > 0 {
      ClearMarked(bm, b, n - 1);
      BitSet(bm, b, n - 1);
    }
  }

  lemma BothCounted(bits: set<nat>, owned: set<nat>, lo: nat, hi: nat)
    requires lo <= hi && forall b :: b in owned ==> lo <= b < hi
    requires forall b: nat :: b in bits <==> b < lo || b in owned
    ensures |bits| == lo + |owned|
  {
    var service := bits - owned;
    Filled(service, 0, lo);
    assert bits == service + owned;
  }

  /** In a consistent volume they are the free blocks. */
  lemma ClearIsRoom(v: Vol, fs: Fs)
    requires Rep(v, fs)
    ensures v.geo.blocks <= 8 * |v.bmap| && Clear(v.bmap, v.geo.blocks) == Room(v.geo, fs)
  {
    hide TestBit, Clear, ServiceSynced, NodesOk, FdsRep, ListsRep, Elems;
    forall b: nat | b < v.geo.blocks ensures TestBit(v.bmap, b) <==> b < v.geo.Service() || b in fs.owner {
      assert BitRep(v, fs, b);
    }
    forall b | b in fs.owner.Keys ensures v.geo.Service() <= b < v.geo.blocks { assert OwnerOk(v.geo, fs, b); }
    var bits := SetBits(v.bmap, v.geo.blocks);
    forall b: nat ensures b in bits <==> b < v.geo.Service() || b in fs.owner {}
    BothCounted(bits, fs.owner.Keys, v.geo.Service(), v.geo.blocks);
    ClearIs(v.bmap, v.geo.blocks);
    assert |fs.owner| == |fs.owner.Keys|;
  }

  // --- The loop --------------------------------------------------------

  /** The next turn enters its block behind others that are not there. */
  ghost predicate Straying(v: Vol, home: nat, fPos: nat)
  {
    && Framed(v) && v.geo.Ok() && v.geo.Service() <= home < v.geo.blocks && ListWord(v.disk[home], 0) < fPos / BLOCK
    && forall b: nat :: b < v.geo.Service() || b == home ==> b < 8 * |v.bmap| && TestBit(v.bmap, b)
  }

  /** Used blocks stay as they are, and so do the first k entries. */
  ghost predicate UsedKept(v: Vol, v': Vol, home: nat, k: nat)
  {
    && Framed(v) && Framed(v') && v'.geo == v.geo && v'.inodes == v.inodes && home < v.geo.blocks
    && (forall c: nat :: c < 8 * |v.bmap| && TestBit(v.bmap, c) ==> TestBit(v'.bmap, c))
    && (forall c: nat :: v.geo.Service() <= c < v.geo.blocks && c < 8 * |v.bmap| && c != home && TestBit(v.bmap, c) ==>
          v'.disk[c] == v.disk[c])
    && (forall w :: 1 <= w <= k && w <= MAX_BLOCKS ==> ListWord(v'.disk[home], w) == ListWord(v.disk[home], w))
  }

  /** Reading at position q gives x: file_read goes by the entries and not by their count. */
  predicate ReadsAt(v: Vol, home: nat, q: nat, x: byte)
  {
    && Framed(v) && home < v.geo.blocks && q / BLOCK < MAX_BLOCKS
    && var b := ListWord(v.disk[home], q / BLOCK + 1);
       v.geo.Service() <= b < v.geo.blocks && v.disk[b][q % BLOCK] == x
  }

  ghost predicate ReadsBack(v: Vol, home: nat, fPos: nat, buf: seq<byte>)
  {
    forall j: nat :: j < |buf| ==> ReadsAt(v, home, fPos + j, buf[j])
  }

  /** Marking a block changes no block behind the bitmap's pages. */
  lemma MarkedDisk(v: Vol, b: nat)
    requires Framed(v) && v.geo.Ok() && b < v.geo.blocks
    ensures b < 8 * |v.bmap| && MarkBlock(v, b).bmap == WithBit(v.bmap, b)
    ensures forall c :: v.geo.Service() <= c < v.geo.blocks ==> MarkBlock(v, b).disk[c] == v.disk[c]
  {
    hide WithBit, PageOf, Splice;
    BitInPage(v.geo, b);
  }

  lemma WordPut(v: Vol, b: nat, k: nat, w: nat)
    requires Framed(v) && b < v.geo.blocks && k <= MAX_BLOCKS && w < WORD_LIMIT
    ensures var r := PutBytes(v, b, 4 * k, WordBytes(w));
      && r.bmap == v.bmap && r.disk[b] == PutWord(v.disk[b], k, w)
      && forall c :: 0 <= c < v.geo.blocks && c != b ==> r.disk[c] == v.disk[c]
  {
    hide ListWord, Word, WordBytes, Splice;
  }

  lemma AddBlockIs(v: Vol, home: nat, k: nat, count: nat, b: nat)
    requires Framed(v) && home < v.geo.blocks && b < v.geo.blocks && count < k < MAX_BLOCKS
    requires ListWord(v.disk[home], 0) == count && b == FirstClear(v.bmap, 0, v.geo.blocks)
    ensures var v1 := PutBytes(v, home, 4 * 0, WordBytes(count + 1));
      AddBlock(v, home, k) == Some(PutBytes(MarkBlock(v1, b), home, 4 * (k + 1), WordBytes(b)))
  {
    hide ListWord, MarkBlock, PutBytes, TestBit, Word, WordBytes, FirstClear, Framed;
    SmallWord(count);
  }

  /** Where the block is, and what the datablock says then. */
  lemma StrayWords(v: Vol, home: nat, k: nat, b: nat)
    requires Framed(v) && v.geo.Ok() && v.geo.Service() <= home < v.geo.blocks && b < v.geo.blocks
    requires ListWord(v.disk[home], 0) < k < MAX_BLOCKS && b == FirstClear(v.bmap, 0, v.geo.blocks)
    ensures b < 8 * |v.bmap|
    ensures var r := AddBlock(v, home, k);
      && r.Some? && r.value.bmap == WithBit(v.bmap, b)
      && r.value.disk[home] == PutWord(PutWord(v.disk[home], 0, ListWord(v.disk[home], 0) + 1), k + 1, b)
      && forall c :: v.geo.Service() <= c < v.geo.blocks && c != home ==> r.value.disk[c] == v.disk[c]
  {
    hide TestBit, ListWord, Word, WordBytes, FirstClear, MarkBlock, PutBytes, PutWord, WithBit, AddBlock;
    var count := ListWord(v.disk[home], 0);
    AddBlockIs(v, home, k, count, b);
    var v1 := PutBytes(v, home, 4 * 0, WordBytes(count + 1));
    WordPut(v, home, 0, count + 1);
    MarkedDisk(v1, b);
    WordPut(MarkBlock(v1, b), home, k + 1, b);
  }

  /** What the turn does to the tables, when a block and an entry are left. */
  lemma StrayBlock(v: Vol, home: nat, k: nat, fPos: nat)
    requires Straying(v, home, fPos) && k == fPos / BLOCK < MAX_BLOCKS
    requires FirstClear(v.bmap, 0, v.geo.blocks) < v.geo.blocks
    ensures var b := FirstClear(v.bmap, 0, v.geo.blocks); var r := AddBlock(v, home, k);
      && r.Some? && UsedKept(v, r.value, home, k) && r.value.bmap == WithBit(v.bmap, b)
      && v.geo.Service() <= b && b != home
      && ListWord(r.value.disk[home], 0) == ListWord(v.disk[home], 0) + 1 && ListWord(r.value.disk[home], k + 1) == b
  {
    hide TestBit, ListWord, FirstClear, WithBit, PutWord, AddBlock;
    var b := FirstClear(v.bmap, 0, v.geo.blocks);
    StrayWords(v, home, k, b);
    forall c: nat | c < 8 * |v.bmap| && TestBit(v.bmap, c) ensures TestBit(WithBit(v.bmap, b), c) {
      BitSet(v.bmap, b, c);
    }
  }

  /** One turn: its data are where the new entry says. */
  lemma StrayTurn(v: Vol, home: nat, fPos: nat, bytes: seq<byte>)
    requires Straying(v, home, fPos) && bytes != [] && fPos % BLOCK + |bytes| <= BLOCK
    ensures v.geo.blocks <= 8 * |v.bmap|
    ensures var k := fPos / BLOCK; var r := Turn(v, home, fPos, bytes);
      && (r.None? <==> k >= MAX_BLOCKS || Clear(v.bmap, v.geo.blocks) == 0)
      && (r.Some? ==>
            && UsedKept(v, r.value, home, k) && Clear(r.value.bmap, v.geo.blocks) == Clear(v.bmap, v.geo.blocks) - 1
            && ListWord(r.value.disk[home], 0) == ListWord(v.disk[home], 0) + 1
            && UsedEntry(r.value, home, k) && ReadsBack(r.value, home, fPos, bytes))
  {
    hide TestBit, ListWord, FirstClear, WithBit, AddBlock, Clear;
    ClearNone(v.bmap, v.geo.blocks);
    var b, k := FirstClear(v.bmap, 0, v.geo.blocks), fPos / BLOCK;
    if b == v.geo.blocks || k >= MAX_BLOCKS {
      NoBlockToAdd(v, home, k);
    } else {
      StrayBlock(v, home, k, fPos);
      ClearMarked(v.bmap, b, v.geo.blocks);
      BitSet(v.bmap, b, b);
      var v1 := AddBlock(v, home, k).value;
      var v2 := PutBytes(v1, b, fPos % BLOCK, bytes);
      forall j: nat | j < |bytes| ensures ReadsAt(v2, home, fPos + j, bytes[j]) { InChunk(fPos, j, |bytes|); }
    }
  }

  lemma InChunk(fPos: nat, j: nat, d: nat)
    requires j < d && fPos % BLOCK + d <= BLOCK
    ensures (fPos + j) / BLOCK == fPos / BLOCK && (fPos + j) % BLOCK == fPos % BLOCK + j
  {
  }

  /** Entry k is a data block that is marked as used. */
  predicate UsedEntry(v: Vol, home: nat, k: nat)
  {
    && Framed(v) && home < v.geo.blocks && k < MAX_BLOCKS
    && var b := ListWord(v.disk[home], k + 1);
       v.geo.Service() <= b < v.geo.blocks && b != home && b < 8 * |v.bmap| && TestBit(v.bmap, b)
  }

  /** Later turns leave the data of earlier ones alone. */
  lemma StaysReadable(v: Vol, v': Vol, home: nat, k: nat, fPos: nat, bytes: seq<byte>)
    requires UsedKept(v, v', home, k + 1) && UsedEntry(v, home, k) && ReadsBack(v, home, fPos, bytes)
    requires k == fPos / BLOCK && fPos % BLOCK + |bytes| <= BLOCK
    ensures ReadsBack(v', home, fPos, bytes)
  {
    hide TestBit, ListWord;
    forall j: nat | j < |bytes| ensures ReadsAt(v', home, fPos + j, bytes[j]) {
      InChunk(fPos, j, |bytes|);
      assert ReadsAt(v, home, fPos + j, bytes[j]);
    }
  }

  lemma KeptTwice(v: Vol, v1: Vol, v2: Vol, home: nat, k: nat)
    requires UsedKept(v, v1, home, k) && UsedKept(v1, v2, home, k + 1)
    ensures UsedKept(v, v2, home, k)
  {
    hide TestBit, ListWord;
  }

  lemma StraysOn(v: Vol, v1: Vol, home: nat, k: nat, fPos: nat, fPos': nat)
    requires Straying(v, home, fPos) && UsedKept(v, v1, home, k)
    requires ListWord(v1.disk[home], 0) == ListWord(v.disk[home], 0) + 1 && fPos' / BLOCK == fPos / BLOCK + 1
    ensures Straying(v1, home, fPos')
  {
    hide TestBit, ListWord;
  }

  lemma ReadsBoth(v: Vol, home: nat, fPos: nat, a: seq<byte>, b: seq<byte>)
    requires ReadsBack(v, home, fPos, a) && ReadsBack(v, home, fPos + |a|, b)
    ensures ReadsBack(v, home, fPos, a + b)
  {
    hide ReadsAt;
    forall j: nat | j < |a + b| ensures ReadsAt(v, home, fPos + j, (a + b)[j]) {
      if j >= |a| { assert ReadsAt(v, home, fPos + |a| + (j - |a|), b[j - |a|]); }
    }
  }

  /** Blocks that the loop adds when it goes astray: one for each it touches. */
  function Touched(fPos: nat, len: nat): nat
  {
    if len == 0 then 0 else BlocksFor(fPos + len) - fPos / BLOCK
  }

  lemma TouchedStep(fPos: nat, len: nat)
    requires len > 0
    ensures var d := Chunk(fPos, len);
      && Touched(fPos, len) == 1 + Touched(fPos + d, len - d) && Touched(fPos + d, 0) == 0
      && (fPos / BLOCK >= MAX_BLOCKS ==> fPos + len > BLOCK * MAX_BLOCKS)
      && (d == len && fPos / BLOCK < MAX_BLOCKS ==> fPos + len <= BLOCK * MAX_BLOCKS)
  {
  }

  /** The whole loop. It fails for want of blocks or entries. Else the count grows by the
      blocks that were added, and the data can be read back. */
  lemma {:induction false} StrayTurns(v: Vol, home: nat, fPos: nat, buf: seq<byte>)
    requires Straying(v, home, fPos) && buf != []
    ensures v.geo.blocks <= 8 * |v.bmap|
    ensures var r := Turns(v, home, fPos, buf); var n := Touched(fPos, |buf|);
      && (r.None? <==> fPos + |buf| > BLOCK * MAX_BLOCKS || n > Clear(v.bmap, v.geo.blocks))
      && (r.Some? ==>
            && UsedKept(v, r.value, home, fPos / BLOCK) && ReadsBack(r.value, home, fPos, buf)
            && ListWord(r.value.disk[home], 0) == ListWord(v.disk[home], 0) + n)
    decreases |buf|
  {
    hide TestBit, ListWord, Clear, Turn, Turns, UsedKept, ReadsBack, UsedEntry, Touched;
    var k, d := fPos / BLOCK, Chunk(fPos, |buf|);
    assert buf[0..] == buf && buf[0..0 + d] == buf[..d];
    TurnsStep(v, home, fPos, buf, 0);
    TouchedStep(fPos, |buf|);
    StrayTurn(v, home, fPos, buf[..d]);
    var r := Turn(v, home, fPos, buf[..d]);
    if d == |buf| {
      assert buf[..d] == buf && buf[d..] == [];
      if r.Some? { TurnsStep(r.value, home, fPos + d, [], 0); }
    } else if r.Some? {
      StraysOn(v, r.value, home, k, fPos, fPos + d);
      StrayTurns(r.value, home, fPos + d, buf[d..]);
      var r2 := Turns(r.value, home, fPos + d, buf[d..]);
      if r2.Some? {
        KeptTwice(v, r.value, r2.value, home, k);
        StaysReadable(r.value, r2.value, home, k, fPos, buf[..d]);
        ReadsBoth(r2.value, home, fPos, buf[..d], buf[d..]);
        assert buf[..d] + buf[d..] == buf;
      }
    }
  }

  // --- The whole write -------------------------------------------------

  lemma ListedSize(v: Vol, fs: Fs, i: nat)
    requires Framed(v) && i in v.inodes && v.inodes[i].datablock < |v.disk|
    ensures Agrees(v, fs) ==> v.inodes[i].size <= BLOCK * ListWord(v.disk[v.inodes[i].datablock], 0)
  {
    hide TestBit, ListWord, FdAt, ServiceSynced, BitsRep;
    if Agrees(v, fs) {
      assert FdRep(v, fs, i) && NodeOk(v.geo, fs, i) && ListRep(v, fs, i);
      assert OwnerOk(v.geo, fs, fs.nodes[i].home);
    }
  }

  /** A size behind the last listed block fits no files whatever. */
  lemma NoFiles(v: Vol, i: nat, fs: Fs)
    requires Framed(v) && i in v.inodes && v.inodes[i].datablock < |v.disk|
    requires BLOCK * ListWord(v.disk[v.inodes[i].datablock], 0) < v.inodes[i].size
    ensures !Agrees(v, fs)
  {
    hide Agrees, ListWord;
    ListedSize(v, fs, i);
  }

  /** The entries that were left out are what they were. */
  predicate GapKept(v: Vol, v': Vol, home: nat, k: nat)
  {
    && Framed(v) && Framed(v') && home < |v.disk| && home < |v'.disk|
    && forall w :: 1 <= w <= k && w <= MAX_BLOCKS ==> ListWord(v'.disk[home], w) == ListWord(v.disk[home], w)
  }

  /** The state after such a write: the count has grown by the added blocks, the size goes
      behind them, and the data can be read back. */
  ghost predicate LeftAstray(v: Vol, v': Vol, n: Node, i: nat, p: nat, buf: seq<byte>)
  {
    && Framed(v') && v'.geo == v.geo && n.home < |v'.disk| && GapKept(v, v', n.home, p / BLOCK)
    && v'.inodes == v.inodes[i := n.Descriptor().(size := Max(n.size, p + |buf|))]
    && ListWord(v'.disk[n.home], 0) == |n.blocks| + Needed(|n.blocks|, p, |buf|)
    && ReadsBack(v', n.home, p, buf)
  }

  lemma StartsStraying(v: Vol, fs: Fs, i: nat, p: nat)
    requires Rep(v, fs) && i in fs.nodes && p / BLOCK > |fs.nodes[i].blocks|
    ensures Straying(v, fs.nodes[i].home, p)
  {
    hide TestBit, ListWord, ServiceSynced, FdsRep;
    NodeAt(v, fs, i);
    assert NodeOk(v.geo, fs, i);
    forall b: nat | b < v.geo.Service() || b == fs.nodes[i].home ensures b < 8 * |v.bmap| && TestBit(v.bmap, b) {
      BitInPage(v.geo, b);
      assert BitRep(v, fs, b);
    }
  }

  lemma AstrayNeeds(count: nat, p: nat, len: nat)
    requires Astray(count, p, len)
    ensures Needed(count, p, len) == Touched(p, len)
    ensures BLOCK * (count + Needed(count, p, len)) < p + len
  {
  }

  /** The loop of such a write. */
  lemma AstrayTurns(v: Vol, fs: Fs, i: nat, p: nat, buf: seq<byte>)
    requires Rep(v, fs) && i in fs.nodes && Astray(|fs.nodes[i].blocks|, p, |buf|)
    ensures Framed(v) && fs.nodes[i].home < v.geo.blocks
    ensures var n := fs.nodes[i]; var r := Turns(v, n.home, p, buf);
      && (r.None? <==> Starved(Room(v.geo, fs), |n.blocks|, p, |buf|))
      && (r.Some? ==>
            && ListWord(r.value.disk[n.home], 0) == |n.blocks| + Needed(|n.blocks|, p, |buf|)
            && ReadsBack(r.value, n.home, p, buf) && GapKept(v, r.value, n.home, p / BLOCK))
  {
    hide Rep, Clear, ListWord, ReadsBack, Touched, Straying, Needed, Turn, Room;
    NodeAt(v, fs, i);
    AstrayNeeds(|fs.nodes[i].blocks|, p, |buf|);
    ClearIsRoom(v, fs);
    if buf == [] {
      NothingToRead(v, fs.nodes[i].home, p);
    } else {
      StartsStraying(v, fs, i, p);
      StrayTurns(v, fs.nodes[i].home, p, buf);
    }
  }

  lemma NothingToRead(v: Vol, home: nat, p: nat)
    ensures ReadsBack(v, home, p, []) && Touched(p, 0) == 0
  {
  }

  /** Writing the descriptor touches none of this. */
  lemma PutFdReads(v: Vol, i: nat, fd: Fd, home: nat, p: nat, buf: seq<byte>)
    requires Framed(v) && i < v.geo.files && fd.Fits() && v.geo.Service() <= home < v.geo.blocks
    requires ReadsBack(v, home, p, buf)
    ensures PutFd(v, i, fd).disk[home] == v.disk[home] && ReadsBack(PutFd(v, i, fd), home, p, buf)
  {
    hide ListWord, FdBytes;
    BitPlaced(v.geo, i);
    forall j: nat | j < |buf| ensures ReadsAt(PutFd(v, i, fd), home, p + j, buf[j]) {
      assert ReadsAt(v, home, p + j, buf[j]);
    }
  }

  /** A write that leaves out blocks fails for the same reasons as any other. If it does
      not, no files whatever agree with what it leaves behind. */
  lemma AstrayWrite(v: Vol, fs: Fs, i: nat, p: nat, buf: seq<byte>)
    requires Rep(v, fs) && i in fs.nodes && p < WORD_LIMIT && Astray(|fs.nodes[i].blocks|, p, |buf|)
    ensures Writable(v, i)
    ensures var r := WriteFile(v, i, p, buf);
      && (r.None? <==> Starved(Room(v.geo, fs), |fs.nodes[i].blocks|, p, |buf|))
      && (r.Some? ==> LeftAstray(v, r.value, fs.nodes[i], i, p, buf) && forall fs': Fs :: !Agrees(r.value, fs'))
  {
    hide Rep, Agrees, Turns, ListWord, ReadsBack, Needed, Astray, Starved, Room, FdBytes;
    var n := fs.nodes[i];
    NodeAt(v, fs, i);
    AstrayTurns(v, fs, i, p, buf);
    AstrayNeeds(|n.blocks|, p, |buf|);
    var r := Turns(v, n.home, p, buf);
    if r.Some? {
      NotStarvedEnd(Room(v.geo, fs), |n.blocks|, p, |buf|);
      var fd := n.Descriptor().(size := Max(n.size, p + |buf|));
      PutFdReads(r.value, i, fd, n.home, p, buf);
      forall fs': Fs ensures !Agrees(PutFd(r.value, i, fd), fs') { NoFiles(PutFd(r.value, i, fd), i, fs'); }
    }
  }

  /** What becomes of a write, for every position. */
  lemma WriteFate(v: Vol, fs: Fs, i: nat, p: nat, buf: seq<byte>) returns (fs': Fs, hole: seq<byte>)
    requires Rep(v, fs) && i in fs.nodes && p < WORD_LIMIT
    ensures Writable(v, i)
    ensures var n := fs.nodes[i]; var r := WriteFile(v, i, p, buf);
      && (r.None? <==> Starved(Room(v.geo, fs), |n.blocks|, p, |buf|))
      && (r.Some? ==> (p + |buf|) % WORD_LIMIT == p + |buf|)
      && (r.Some? && !Astray(|n.blocks|, p, |buf|) ==>
            Rep(r.value, fs') && WriteDone(v, r.value, fs, fs', i, p, buf, hole))
      && (r.Some? && Astray(|n.blocks|, p, |buf|) ==>
            LeftAstray(v, r.value, n, i, p, buf) && forall any: Fs :: !Agrees(r.value, any))
  {
    hide Agrees, WriteFile, Astray, Starved, Room, LeftAstray, TreeOf, TreeWritten, TreePadded, Needed;
    fs', hole := fs, [];
    if !Starved(Room(v.geo, fs), |fs.nodes[i].blocks|, p, |buf|) {
      NotStarvedEnd(Room(v.geo, fs), |fs.nodes[i].blocks|, p, |buf|);
    }
    if Astray(|fs.nodes[i].blocks|, p, |buf|) {
      AstrayWrite(v, fs, i, p, buf);
    } else {
      fs', hole := WriteSane(v, fs, i, p, buf);
    }
  }

  /** The write succeeds, and some files represent the result: those before it with buf
      spliced in at p, behind whatever the blocks held if p is behind the end. */
  ghost predicate WritesRight(v: Vol, fs: Fs, i: nat, p: nat, buf: seq<byte>)
    requires Writable(v, i)
  {
    exists v': Vol, fs': Fs, hole: seq<byte> ::
      && WriteFile(v, i, p, buf) == Some(v') && Rep(v', fs')
      && TreeOf(v', fs') == TreeWritten(TreePadded(TreeOf(v, fs), i, hole), i, p, buf)
  }

  /** That is so exactly when the position leaves out no block and neither blocks nor
      entries run out. */
  lemma WritesExactly(v: Vol, fs: Fs, i: nat, p: nat, buf: seq<byte>)
    requires Rep(v, fs) && i in fs.nodes && p < WORD_LIMIT
    ensures Writable(v, i)
    ensures var count := |fs.nodes[i].blocks|;
      WritesRight(v, fs, i, p, buf) <==> !Astray(count, p, |buf|) && !Starved(Room(v.geo, fs), count, p, |buf|)
  {
    hide Agrees, WriteFile, Astray, Starved, Room, TreeOf, TreeWritten, TreePadded, LeftAstray, Needed;
    if Astray(|fs.nodes[i].blocks|, p, |buf|) {
      AstrayWrite(v, fs, i, p, buf);
    } else {
      var fs', hole := WriteSane(v, fs, i, p, buf);
    }
  }

  /** One byte at position 5000 of an empty new file: the block is entered as the tenth of
      a list that has one entry, and that entry is block 0, the information sector, whose
      bit would be reset when the file is removed. */
  lemma GapAt5000(v: Vol, fs: Fs, i: nat, x: byte)
    requires Rep(v, fs) && i in fs.nodes && fs.nodes[i].blocks == [] && fs.nodes[i].size == 0 && Room(v.geo, fs) > 0
    requires fs.nodes[i].home < |v.disk| && v.disk[fs.nodes[i].home] == Zeros()
    ensures Writable(v, i) && WriteFile(v, i, 5000, [x]).Some?
    ensures var v' := WriteFile(v, i, 5000, [x]).value; var home := fs.nodes[i].home;
      && (forall fs': Fs :: !Agrees(v', fs')) && i in v'.inodes && v'.inodes[i].size == 5001 && home < |v'.disk|
      && ListWord(v'.disk[home], 0) == 1 && ListWord(v'.disk[home], 1) == 0
      && ReadsAt(v', home, 5000, x)
  {
    hide Rep, Agrees, Room, WriteFile, ListWord, ReadsAt;
    NodeAt(v, fs, i);
    AstrayWrite(v, fs, i, 5000, [x]);
    ZeroWords(1);
    assert ReadsAt(WriteFile(v, i, 5000, [x]).value, fs.nodes[i].home, 5000 + 0, [x][0]);
  }

  lemma ZeroWords(w: nat)
    requires w <= MAX_BLOCKS
    ensures ListWord(Zeros(), w) == 0
  {
  }
}
