/** The boundary-tag format of the linear allocator: what a sequence of bytes
    must look like to be a heap, and the theory of such heaps. */
module LinearHeap {
  import opened Options
  import opened Bytes

  /** sizeof(header) with 4-byte words: a flag byte padded to a word, the
      payload size and the size of the left neighbour. */
  const H: int := 12

  datatype Header = Header(busy: bool, size: nat, prevSize: nat)

  /** Bit 0 of the first byte is the busy flag; the other bits and the three
      padding bytes carry nothing. */
  function HeaderAt(m: seq<byte>, o: nat): (h: Header)
    requires o + H <= |m|
    ensures h.size < WORD_LIMIT && h.prevSize < WORD_LIMIT
  {
    Header(m[o] % 2 == 1, Word(m, o + 4), Word(m, o + 8))
  }

  /** A block: header at off, payload of size bytes behind it. */
  datatype Block = Block(off: nat, size: nat, busy: bool) {
    function Next(): nat { off + H + size }
    function Addr(): nat { off + H }
  }

  function CeilFour(i: nat): (r: nat)
    ensures r % 4 == 0 && i <= r < i + 4
  {
    i - i % 4 + if i % 4 != 0 then 4 else 0
  }

  function FloorFour(i: nat): (r: nat)
    ensures r % 4 == 0 && r <= i < r + 4
  {
    i - i % 4
  }

  // --- Shape of a heap -------------------------------------------------

  ghost predicate Tiles(bs: seq<Block>)
  {
    forall i, j :: 0 <= i < j < |bs| && j == i + 1 ==> bs[j].off == bs[i].Next()
  }

  ghost predicate NoFreeNeighbours(bs: seq<Block>)
  {
    forall i, j :: 0 <= i < j < |bs| && j == i + 1 ==> bs[i].busy || bs[j].busy
  }

  /** The blocks tile [0, amount) without gap, sentinels of sizes 0 and 0..3
      stay busy at both ends, sizes in between are multiples of four and free
      blocks are completely coalesced. */
  ghost predicate Shape(bs: seq<Block>, amount: nat)
  {
    && |bs| >= 3
    && bs[0] == Block(0, 0, true)
    && bs[|bs| - 1].busy && bs[|bs| - 1].size < 4 && bs[|bs| - 1].Next() == amount
    && (forall i :: 0 <= i < |bs| - 1 ==> bs[i].size % 4 == 0)
    && Tiles(bs)
    && NoFreeNeighbours(bs)
  }

  ghost predicate Described(m: seq<byte>, b: Block)
  {
    && b.off + H <= |m|
    && HeaderAt(m, b.off).busy == b.busy
    && HeaderAt(m, b.off).size == b.size
  }

  ghost predicate BackTagged(m: seq<byte>, l: Block, r: Block)
  {
    r.off + H <= |m| && HeaderAt(m, r.off).prevSize == l.size
  }

  /** Memory m holds exactly the blocks bs. The prev_size of the end sentinel
      is left out: initialisation does not set it and nothing reads it. */
  ghost predicate Encodes(m: seq<byte>, bs: seq<Block>)
  {
    && Shape(bs, |m|)
    && (forall i :: 0 <= i < |bs| ==> Described(m, bs[i]))
    && (forall i, j :: 0 <= i < j < |bs| - 1 && j == i + 1 ==> BackTagged(m, bs[i], bs[j]))
  }

  /** The blocks met by following sizes from off to the end of memory. */
  function Walk(m: seq<byte>, off: nat): Option<seq<Block>>
    decreases |m| - off
  {
    if off == |m| then Some([])
    else if off + H > |m| then None
    else
      var b := Block(off, HeaderAt(m, off).size, HeaderAt(m, off).busy);
      if b.Next() > |m| then None
      else
        match Walk(m, b.Next())
        case None => None
        case Some(rest) => Some([b] + rest)
  }

  /** The heap that memory m holds, if it is one. */
  ghost function HeapOf(m: seq<byte>): (r: Option<seq<Block>>)
  {
    var w := Walk(m, 0);
    if w.Some? && Encodes(m, w.value) then w else None
  }

  lemma HeapShape(m: seq<byte>, bs: seq<Block>)
    requires HeapOf(m) == Some(bs)
    ensures Shape(bs, |m|)
  {
  }

  lemma HeapLength(m: seq<byte>, bs: seq<Block>)
    requires HeapOf(m) == Some(bs)
    ensures |bs| >= 3
  {
  }

  lemma {:induction false} WalkSuffix(m: seq<byte>, bs: seq<Block>, i: nat)
    requires Encodes(m, bs) && i < |bs|
    ensures Walk(m, bs[i].off) == Some(bs[i..])
    decreases |bs| - i
  {
    assert Described(m, bs[i]);
    Inside(bs, |m|, i);
    if i + 1 < |bs| {
      WalkSuffix(m, bs, i + 1);
      assert bs[i..] == [bs[i]] + bs[i + 1..];
    } else {
      assert Walk(m, bs[i].Next()) == Some([]);
      assert bs[i..] == [bs[i]] + [];
    }
  }

  /** Memory determines its block list. */
  lemma Parsed(m: seq<byte>, bs: seq<Block>)
    ensures HeapOf(m) == Some(bs) <==> Encodes(m, bs)
  {
    if Encodes(m, bs) {
      WalkSuffix(m, bs, 0);
      assert bs[0..] == bs;
    }
  }

  ghost function Live(bs: seq<Block>): set<Block>
  {
    set b | b in bs && b.busy
  }

  ghost function LiveIn(bs: seq<Block>, a: nat, b: nat): set<Block>
    requires a <= b <= |bs|
  {
    Live(bs[a..b])
  }

  function Payload(m: seq<byte>, b: Block): seq<byte>
    requires b.Next() <= |m|
  {
    m[b.Addr()..b.Next()]
  }

  lemma {:induction false} Ordered(bs: seq<Block>, i: nat, j: nat)
    requires Tiles(bs) && i < j < |bs|
    ensures bs[i].Next() <= bs[j].off
    decreases j
  {
    if i < j - 1 {
      Ordered(bs, i, j - 1);
    }
  }

  lemma Inside(bs: seq<Block>, amount: nat, i: nat)
    requires Shape(bs, amount) && i < |bs|
    ensures bs[i].Next() <= amount
    ensures i < |bs| - 1 ==> bs[i].Next() + H <= amount
  {
    if i < |bs| - 1 {
      Ordered(bs, i, |bs| - 1);
    }
  }

  // --- Replacing a run of blocks ---------------------------------------

  function Replaced(bs: seq<Block>, a: nat, b: nat, mid: seq<Block>): seq<Block>
    requires a <= b <= |bs|
  {
    bs[..a] + mid + bs[b..]
  }

  /** mid can stand in for blocks a .. b-1: same span, rounded sizes, no two
      free neighbours inside or at either seam. */
  ghost predicate Fits(bs: seq<Block>, a: nat, b: nat, mid: seq<Block>)
  {
    && 0 < a < b < |bs|
    && |mid| > 0
    && mid[0].off == bs[a].off
    && mid[|mid| - 1].Next() == bs[b].off
    && Tiles(mid)
    && (forall i :: 0 <= i < |mid| ==> mid[i].size % 4 == 0)
    && NoFreeNeighbours(mid)
    && (mid[0].busy || bs[a - 1].busy)
    && (mid[|mid| - 1].busy || bs[b].busy)
  }

  lemma ReplacedShape(bs: seq<Block>, amount: nat, a: nat, b: nat, mid: seq<Block>)
    requires Shape(bs, amount) && Fits(bs, a, b, mid)
    ensures Shape(Replaced(bs, a, b, mid), amount)
  {
    var r := Replaced(bs, a, b, mid);
    assert r[|r| - 1] == bs[|bs| - 1];
    assert forall i :: 0 <= i < a ==> r[i] == bs[i];
    assert forall i :: a <= i < a + |mid| ==> r[i] == mid[i - a];
    assert forall i :: a + |mid| <= i < |r| ==> r[i] == bs[i - a - |mid| + b];
    assert r[a] == mid[0] && r[a + |mid| - 1] == mid[|mid| - 1] && r[a + |mid|] == bs[b];
    forall i | 0 < i < |r|
      ensures r[i].off == r[i - 1].Next() && (r[i].busy || r[i - 1].busy)
    {
      if i < a {
      } else if i == a {
        assert r[i - 1] == bs[a - 1];
      } else if i < a + |mid| {
        assert r[i] == mid[i - a] && r[i - 1] == mid[i - a - 1];
      } else if i == a + |mid| {
      } else {
        var k := i - a - |mid| + b;
        assert r[i] == bs[k] && r[i - 1] == bs[k - 1];
      }
    }
    forall i | 0 <= i < |r| - 1
      ensures r[i].size % 4 == 0
    {
      if a + |mid| <= i {
        assert r[i] == bs[i - a - |mid| + b];
      }
    }
  }

  /** Everything outside the span of blocks a .. b-1 is as before, apart from
      the back tag of block b. */
  ghost predicate Confined(m: seq<byte>, m': seq<byte>, bs: seq<Block>, a: nat, b: nat)
    requires a < b < |bs|
  {
    && |m'| == |m|
    && (forall k :: 0 <= k < bs[a].off && k < |m| ==> m'[k] == m[k])
    && (forall k :: bs[b].off + H <= k < |m| ==> m'[k] == m[k])
    && bs[b].off + H <= |m|
    && HeaderAt(m', bs[b].off).busy == HeaderAt(m, bs[b].off).busy
    && HeaderAt(m', bs[b].off).size == HeaderAt(m, bs[b].off).size
  }

  /** m' differs from m at most in the headers at o1 and o2. */
  ghost predicate SameBut(m: seq<byte>, m': seq<byte>, o1: nat, o2: nat)
  {
    |m'| == |m| && forall k :: 0 <= k < |m| && !(o1 <= k < o1 + H) && !(o2 <= k < o2 + H) ==> m'[k] == m[k]
  }

  lemma SameHeader(m: seq<byte>, m': seq<byte>, o: nat)
    requires |m'| == |m| && o + H <= |m|
    requires m'[o..o + H] == m[o..o + H]
    ensures HeaderAt(m', o) == HeaderAt(m, o)
  {
    forall k | o <= k < o + H ensures m'[k] == m[k] {
      assert m'[k] == m'[o..o + H][k - o] && m[k] == m[o..o + H][k - o];
    }
  }

  lemma OtherHeader(m: seq<byte>, m': seq<byte>, o1: nat, o2: nat, o: nat)
    requires SameBut(m, m', o1, o2) && o + H <= |m|
    requires o + H <= o1 || o1 + H <= o
    requires o + H <= o2 || o2 + H <= o
    ensures HeaderAt(m', o) == HeaderAt(m, o)
  {
    SameHeader(m, m', o);
  }

  lemma OtherPayload(m: seq<byte>, m': seq<byte>, o1: nat, o2: nat, b: Block)
    requires SameBut(m, m', o1, o2) && b.Next() <= |m|
    requires b.Next() <= o1 || o1 + H <= b.Addr()
    requires b.Next() <= o2 || o2 + H <= b.Addr()
    ensures Payload(m', b) == Payload(m, b)
  {
    var p, p' := Payload(m, b), Payload(m', b);
    forall k | 0 <= k < b.size ensures p'[k] == p[k] { assert m'[b.Addr() + k] == m[b.Addr() + k]; }
  }

  lemma KeptHeader(m: seq<byte>, m': seq<byte>, bs: seq<Block>, a: nat, b: nat, i: nat)
    requires Shape(bs, |m|) && a < b < |bs| && i < |bs| && Confined(m, m', bs, a, b)
    requires i < a || b <= i
    requires bs[i].off + H <= |m|
    ensures i != b ==> HeaderAt(m', bs[i].off) == HeaderAt(m, bs[i].off)
  {
    if i < a {
      Ordered(bs, i, a);
      SameHeader(m, m', bs[i].off);
    } else if b < i {
      Ordered(bs, b, i);
      SameHeader(m, m', bs[i].off);
    }
  }

  /** The one proof behind allocation, release and every reallocation strategy:
      if the new headers describe mid and the write stayed confined, memory
      holds the spliced block list. */
  lemma ReplacedEncodes(m: seq<byte>, m': seq<byte>, bs: seq<Block>, a: nat, b: nat, mid: seq<Block>)
    requires Encodes(m, bs) && Fits(bs, a, b, mid) && Confined(m, m', bs, a, b)
    requires Tagged(m', bs, a, b, mid)
    ensures Encodes(m', Replaced(bs, a, b, mid))
  {
    ReplacedShape(bs, |m|, a, b, mid);
    var r := Replaced(bs, a, b, mid);
    forall i | 0 <= i < |r|
      ensures Described(m', r[i])
      ensures 0 < i < |r| - 1 ==> BackTagged(m', r[i - 1], r[i])
    {
      ReplacedAt(bs, a, b, mid, i);
      if 0 < i { ReplacedAt(bs, a, b, mid, i - 1); }
      if i < a {
        KeptBlock(m, m', bs, a, b, i);
      } else if a + |mid| <= i {
        KeptBlock(m, m', bs, a, b, i - a - |mid| + b);
      }
    }
  }

  lemma ReplacedHeap(m: seq<byte>, m': seq<byte>, bs: seq<Block>, a: nat, b: nat, mid: seq<Block>)
    requires HeapOf(m) == Some(bs) && Fits(bs, a, b, mid) && Confined(m, m', bs, a, b)
    requires Tagged(m', bs, a, b, mid)
    ensures HeapOf(m') == Some(Replaced(bs, a, b, mid))
  {
    ReplacedEncodes(m, m', bs, a, b, mid);
    Parsed(m', Replaced(bs, a, b, mid));
  }

  lemma ReplacedAt(bs: seq<Block>, a: nat, b: nat, mid: seq<Block>, i: nat)
    requires a <= b <= |bs| && i < |Replaced(bs, a, b, mid)|
    ensures Replaced(bs, a, b, mid)[i] ==
      if i < a then bs[i] else if i < a + |mid| then mid[i - a] else bs[i - a - |mid| + b]
  {
  }

  lemma KeptBlock(m: seq<byte>, m': seq<byte>, bs: seq<Block>, a: nat, b: nat, i: nat)
    requires Encodes(m, bs) && a < b < |bs| && i < |bs| && Confined(m, m', bs, a, b)
    requires i < a || b <= i
    ensures Described(m', bs[i])
    ensures 0 < i < |bs| - 1 && i != b ==> BackTagged(m', bs[i - 1], bs[i])
  {
    assert Described(m, bs[i]);
    if 0 < i < |bs| - 1 { assert BackTagged(m, bs[i - 1], bs[i]); }
    KeptHeader(m, m', bs, a, b, i);
  }

  lemma LiveConcat(p: seq<Block>, q: seq<Block>)
    ensures Live(p + q) == Live(p) + Live(q)
  {
  }

  /** No block occurs both within and outside of a .. b-1. */
  lemma LiveApart(bs: seq<Block>, a: nat, b: nat)
    requires a <= b <= |bs| && Tiles(bs)
    ensures Live(bs[..a]) !! LiveIn(bs, a, b) && Live(bs[b..]) !! LiveIn(bs, a, b)
  {
    forall i, j | 0 <= i < j < |bs| ensures bs[i] != bs[j] { Ordered(bs, i, j); }
  }

  lemma ReplacedLive(bs: seq<Block>, a: nat, b: nat, mid: seq<Block>)
    requires a <= b <= |bs| && Tiles(bs)
    ensures Live(Replaced(bs, a, b, mid)) == (Live(bs) - LiveIn(bs, a, b)) + Live(mid)
  {
    hide Live, Tiles;
    LiveApart(bs, a, b);
    assert bs == bs[..a] + (bs[a..b] + bs[b..]);
    LiveConcat(bs[..a], bs[a..b] + bs[b..]);
    LiveConcat(bs[a..b], bs[b..]);
    assert Replaced(bs, a, b, mid) == bs[..a] + (mid + bs[b..]);
    LiveConcat(bs[..a], mid + bs[b..]);
    LiveConcat(mid, bs[b..]);
  }

  /** The payloads of the kept blocks are the same in both memories. */
  ghost predicate Intact(m: seq<byte>, m': seq<byte>, kept: set<Block>)
  {
    |m'| == |m| && forall b :: b in kept ==> b.Next() <= |m| && Payload(m', b) == Payload(m, b)
  }

  lemma KeptPayloads(m: seq<byte>, m': seq<byte>, bs: seq<Block>, a: nat, b: nat)
    requires Shape(bs, |m|) && a < b < |bs| && Confined(m, m', bs, a, b)
    ensures Intact(m, m', Live(bs) - LiveIn(bs, a, b))
  {
    forall x | x in Live(bs) - LiveIn(bs, a, b)
      ensures x.Next() <= |m| && Payload(m', x) == Payload(m, x)
    {
      var i :| 0 <= i < |bs| && bs[i] == x;
      Inside(bs, |m|, i);
      if i < a { Ordered(bs, i, a); }
      if b < i { Ordered(bs, b, i); }
    }
  }

  /** The headers in m describe mid, seen from block a - 1 on its left and block b
      on its right; the end sentinel's tag does not matter. */
  ghost predicate Tagged(m: seq<byte>, bs: seq<Block>, a: nat, b: nat, mid: seq<Block>)
    requires |mid| > 0 && 0 < a < b < |bs|
  {
    && (forall i :: 0 <= i < |mid| ==> Described(m, mid[i]))
    && BackTagged(m, bs[a - 1], mid[0])
    && (forall i, j :: 0 <= i < j < |mid| && j == i + 1 ==> BackTagged(m, mid[i], mid[j]))
    && (b < |bs| - 1 ==> BackTagged(m, mid[|mid| - 1], bs[b]))
  }

  lemma Installed(m: seq<byte>, m': seq<byte>, bs: seq<Block>, a: nat, b: nat, mid: seq<Block>)
    requires HeapOf(m) == Some(bs) && Fits(bs, a, b, mid) && Confined(m, m', bs, a, b)
    requires Tagged(m', bs, a, b, mid)
    ensures HeapOf(m') == Some(Replaced(bs, a, b, mid))
    ensures Live(Replaced(bs, a, b, mid)) == (Live(bs) - LiveIn(bs, a, b)) + Live(mid)
    ensures Intact(m, m', Live(bs) - LiveIn(bs, a, b))
  {
    ReplacedHeap(m, m', bs, a, b, mid);
    HeapShape(m, bs);
    ReplacedLive(bs, a, b, mid);
    KeptPayloads(m, m', bs, a, b);
  }

  /** Only [lo, hi) and the back tag of the header at hi may have changed. */
  ghost predicate Rewritten(m: seq<byte>, m': seq<byte>, lo: nat, hi: nat)
  {
    && |m'| == |m| && lo <= hi && hi + H <= |m|
    && (forall k :: 0 <= k < |m| && !(lo <= k < hi + H) ==> m'[k] == m[k])
    && HeaderAt(m', hi) == HeaderAt(m, hi).(prevSize := HeaderAt(m', hi).prevSize)
  }

  lemma InstalledOne(m: seq<byte>, m': seq<byte>, bs: seq<Block>, a: nat, b: nat, x: Block)
    requires HeapOf(m) == Some(bs) && Fits(bs, a, b, [x])
    requires Rewritten(m, m', bs[a].off, bs[b].off)
    requires b < |bs| - 1 ==> HeaderAt(m', bs[b].off).prevSize == x.size
    requires HeaderAt(m', x.off) == Header(x.busy, x.size, bs[a - 1].size)
    ensures HeapOf(m') == Some(Replaced(bs, a, b, [x]))
    ensures Live(Replaced(bs, a, b, [x])) == (Live(bs) - LiveIn(bs, a, b)) + Live([x])
    ensures Intact(m, m', Live(bs) - LiveIn(bs, a, b))
  {
    Installed(m, m', bs, a, b, [x]);
  }

  lemma InstalledTwo(m: seq<byte>, m': seq<byte>, bs: seq<Block>, a: nat, b: nat, x: Block, y: Block)
    requires HeapOf(m) == Some(bs) && Fits(bs, a, b, [x, y])
    requires Rewritten(m, m', bs[a].off, bs[b].off)
    requires b < |bs| - 1 ==> HeaderAt(m', bs[b].off).prevSize == y.size
    requires HeaderAt(m', x.off) == Header(x.busy, x.size, bs[a - 1].size)
    requires HeaderAt(m', y.off) == Header(y.busy, y.size, x.size)
    ensures HeapOf(m') == Some(Replaced(bs, a, b, [x, y]))
    ensures Live(Replaced(bs, a, b, [x, y])) == (Live(bs) - LiveIn(bs, a, b)) + Live([x, y])
    ensures Intact(m, m', Live(bs) - LiveIn(bs, a, b))
  {
    Installed(m, m', bs, a, b, [x, y]);
  }

  /** The effect of one write_header that merges nothing: header x at off, and the
      header behind re-tagged. */
  ghost predicate Wrote(m: seq<byte>, m': seq<byte>, off: nat, x: Header)
  {
    var next := off + x.size + H;
    && |m'| == |m| && next + H <= |m|
    && HeaderAt(m', off) == x
    && HeaderAt(m', next) == HeaderAt(m, next).(prevSize := x.size)
    && SameBut(m, m', off, next)
  }

  /** One block x in place of blocks a .. b-1. */
  ghost predicate FitsOne(bs: seq<Block>, a: nat, b: nat, x: Block)
  {
    && 0 < a < b < |bs|
    && x.off == bs[a].off && x.Next() == bs[b].off
    && (x.busy || (bs[a - 1].busy && bs[b].busy))
  }

  /** Two blocks x, y in place of blocks a .. b-1. */
  ghost predicate FitsTwo(bs: seq<Block>, a: nat, b: nat, x: Block, y: Block)
  {
    && 0 < a < b < |bs|
    && x.off == bs[a].off && x.Next() == y.off && y.Next() == bs[b].off
    && x.size % 4 == 0
    && (x.busy || y.busy) && (x.busy || bs[a - 1].busy) && (y.busy || bs[b].busy)
  }

  /** Everything in a heap is word aligned. */
  lemma {:induction false} Aligned(bs: seq<Block>, amount: nat, i: nat)
    requires Shape(bs, amount) && i < |bs|
    ensures bs[i].off % 4 == 0
  {
    if 0 < i {
      Aligned(bs, amount, i - 1);
      assert bs[i].off == bs[i - 1].Next();
    }
  }

  lemma EndsAligned(m: seq<byte>, bs: seq<Block>, a: nat, b: nat)
    requires HeapOf(m) == Some(bs) && a < |bs| && b < |bs|
    ensures bs[a].off % 4 == 0 && bs[b].off % 4 == 0
  {
    HeapShape(m, bs);
    Aligned(bs, |m|, a);
    Aligned(bs, |m|, b);
  }

  lemma OneFits(m: seq<byte>, bs: seq<Block>, a: nat, b: nat, x: Block)
    requires HeapOf(m) == Some(bs) && FitsOne(bs, a, b, x)
    ensures Fits(bs, a, b, [x])
  {
    hide HeapOf, Shape;
    EndsAligned(m, bs, a, b);
  }

  lemma TwoFit(m: seq<byte>, bs: seq<Block>, a: nat, b: nat, x: Block, y: Block)
    requires HeapOf(m) == Some(bs) && FitsTwo(bs, a, b, x, y)
    ensures Fits(bs, a, b, [x, y])
  {
    hide HeapOf, Shape;
    EndsAligned(m, bs, a, b);
  }

  lemma OneWritten(m: seq<byte>, m': seq<byte>, tag: nat, x: Block)
    requires x.Next() + H <= |m| && Wrote(m, m', x.off, Header(x.busy, x.size, tag))
    ensures Rewritten(m, m', x.off, x.Next()) && HeaderAt(m', x.Next()).prevSize == x.size
    ensures Payload(m', x) == Payload(m, x)
  {
  }

  lemma WroteOne(m: seq<byte>, m': seq<byte>, bs: seq<Block>, a: nat, b: nat, x: Block) returns (r: seq<Block>)
    requires HeapOf(m) == Some(bs) && FitsOne(bs, a, b, x)
    requires Wrote(m, m', x.off, Header(x.busy, x.size, bs[a - 1].size))
    ensures HeapOf(m') == Some(r)
    ensures Live(r) == (Live(bs) - LiveIn(bs, a, b)) + if x.busy then {x} else {}
    ensures Intact(m, m', Live(bs) - LiveIn(bs, a, b))
    ensures Payload(m', x) == Payload(m, x)
  {
    hide HeapOf, LiveIn, Payload, HeaderAt;
    Readable(m, bs, b);
    OneFits(m, bs, a, b, x);
    r := Replaced(bs, a, b, [x]);
    OneWritten(m, m', bs[a - 1].size, x);
    InstalledOne(m, m', bs, a, b, x);
  }

  lemma BothWritten(m: seq<byte>, m1: seq<byte>, m2: seq<byte>, tag: nat, x: Block, y: Block)
    requires y.off == x.Next() && y.Next() + H <= |m|
    requires Wrote(m, m1, y.off, Header(y.busy, y.size, x.size))
    requires Wrote(m1, m2, x.off, Header(x.busy, x.size, tag))
    ensures Rewritten(m, m2, x.off, y.Next()) && HeaderAt(m2, y.Next()).prevSize == y.size
    ensures Payload(m2, x) == Payload(m, x) && Payload(m2, y) == Payload(m, y)
    ensures HeaderAt(m2, x.off) == Header(x.busy, x.size, tag)
    ensures HeaderAt(m2, y.off) == Header(y.busy, y.size, x.size)
  {
    hide HeaderAt, Payload;
    OtherHeader(m1, m2, x.off, y.off, y.Next());
    OtherPayload(m, m1, y.off, y.Next(), x);
    OtherPayload(m1, m2, x.off, y.off, x);
    OtherPayload(m, m1, y.off, y.Next(), y);
    OtherPayload(m1, m2, x.off, y.off, y);
  }

  /** Right block first, then the left one: the order in which every splitting
      strategy writes its two headers. */
  lemma WroteTwo(m: seq<byte>, m1: seq<byte>, m2: seq<byte>, bs: seq<Block>, a: nat, b: nat, x: Block, y: Block)
    returns (r: seq<Block>)
    requires HeapOf(m) == Some(bs) && FitsTwo(bs, a, b, x, y)
    requires Wrote(m, m1, y.off, Header(y.busy, y.size, x.size))
    requires Wrote(m1, m2, x.off, Header(x.busy, x.size, bs[a - 1].size))
    ensures HeapOf(m2) == Some(r)
    ensures Live(r) == (Live(bs) - LiveIn(bs, a, b)) + (if x.busy then {x} else {}) + (if y.busy then {y} else {})
    ensures Intact(m, m2, Live(bs) - LiveIn(bs, a, b))
    ensures Payload(m2, x) == Payload(m, x) && Payload(m2, y) == Payload(m, y)
  {
    hide HeapOf, LiveIn, Payload, HeaderAt;
    Readable(m, bs, b);
    TwoFit(m, bs, a, b, x, y);
    r := Replaced(bs, a, b, [x, y]);
    BothWritten(m, m1, m2, bs[a - 1].size, x, y);
    InstalledTwo(m, m2, bs, a, b, x, y);
    assert Live([x, y]) == (if x.busy then {x} else {}) + (if y.busy then {y} else {});
  }

  /** What the headers say of block i and where it lies. */
  lemma HeaderOf(m: seq<byte>, bs: seq<Block>, i: nat)
    requires HeapOf(m) == Some(bs) && i < |bs|
    ensures bs[i].off + H <= |m| && bs[i].Next() <= |m|
    ensures HeaderAt(m, bs[i].off).busy == bs[i].busy && HeaderAt(m, bs[i].off).size == bs[i].size
    ensures 0 < i < |bs| - 1 ==> HeaderAt(m, bs[i].off).prevSize == bs[i - 1].size
    ensures if i + 1 < |bs| then bs[i].Next() == bs[i + 1].off else bs[i].Next() == |m|
    ensures bs[i].busy || 0 < i < |bs| - 1
    ensures i < |bs| - 1 ==> bs[i].size % 4 == 0
    ensures 0 < i && !bs[i].busy ==> bs[i - 1].busy
    ensures i + 1 < |bs| && !bs[i].busy ==> bs[i + 1].busy
  {
    Inside(bs, |m|, i);
    assert Described(m, bs[i]);
    if 0 < i < |bs| - 1 { assert BackTagged(m, bs[i - 1], bs[i]); }
  }

  /** The same, with what it means for the live blocks. */
  lemma Readable(m: seq<byte>, bs: seq<Block>, i: nat)
    requires HeapOf(m) == Some(bs) && i < |bs|
    ensures bs[i].off + H <= |m| && bs[i].Next() <= |m|
    ensures HeaderAt(m, bs[i].off).busy == bs[i].busy && HeaderAt(m, bs[i].off).size == bs[i].size
    ensures 0 < i < |bs| - 1 ==> HeaderAt(m, bs[i].off).prevSize == bs[i - 1].size
    ensures if i + 1 < |bs| then bs[i].Next() == bs[i + 1].off else bs[i].Next() == |m|
    ensures i == 0 ==> bs[0] == Block(0, 0, true)
    ensures bs[i].busy || 0 < i < |bs| - 1
    ensures i < |bs| - 1 ==> bs[i].size % 4 == 0
    ensures 0 < i && !bs[i].busy ==> bs[i - 1].busy
    ensures i + 1 < |bs| && !bs[i].busy ==> bs[i + 1].busy
    ensures LiveIn(bs, i, i + 1) == if bs[i].busy then {bs[i]} else {}
    ensures bs[i].busy <==> bs[i] in Live(bs)
  {
    HeaderOf(m, bs, i);
  }

  lemma BothWrittenForward(m: seq<byte>, m1: seq<byte>, m2: seq<byte>, tag: nat, x: Block, y: Block)
    requires y.off == x.Next() && y.Next() + H <= |m|
    requires Wrote(m, m1, x.off, Header(x.busy, x.size, tag))
    requires Wrote(m1, m2, y.off, Header(y.busy, y.size, x.size))
    ensures Rewritten(m, m2, x.off, y.Next()) && HeaderAt(m2, y.Next()).prevSize == y.size
    ensures Payload(m2, x) == Payload(m, x)
    ensures HeaderAt(m2, x.off) == Header(x.busy, x.size, tag)
    ensures HeaderAt(m2, y.off) == Header(y.busy, y.size, x.size)
  {
    hide HeaderAt, Payload;
    OtherHeader(m1, m2, y.off, y.Next(), x.off);
    OtherHeader(m, m1, x.off, y.off, y.Next());
    OtherPayload(m, m1, x.off, y.off, x);
    OtherPayload(m1, m2, y.off, y.Next(), x);
  }

  lemma WroteForward(m: seq<byte>, m1: seq<byte>, m2: seq<byte>, bs: seq<Block>, a: nat, b: nat, x: Block, y: Block)
    returns (r: seq<Block>)
    requires HeapOf(m) == Some(bs) && FitsTwo(bs, a, b, x, y)
    requires Wrote(m, m1, x.off, Header(x.busy, x.size, bs[a - 1].size))
    requires Wrote(m1, m2, y.off, Header(y.busy, y.size, x.size))
    ensures HeapOf(m2) == Some(r)
    ensures Live(r) == (Live(bs) - LiveIn(bs, a, b)) + (if x.busy then {x} else {}) + (if y.busy then {y} else {})
    ensures Intact(m, m2, Live(bs) - LiveIn(bs, a, b))
    ensures Payload(m2, x) == Payload(m, x)
  {
    hide HeapOf, LiveIn, Payload, HeaderAt;
    Readable(m, bs, b);
    TwoFit(m, bs, a, b, x, y);
    r := Replaced(bs, a, b, [x, y]);
    BothWrittenForward(m, m1, m2, bs[a - 1].size, x, y);
    InstalledTwo(m, m2, bs, a, b, x, y);
    assert Live([x, y]) == (if x.busy then {x} else {}) + (if y.busy then {y} else {});
  }

  /** Only n bytes from dst on may have changed. */
  ghost predicate Overwritten(m: seq<byte>, m': seq<byte>, dst: nat, n: nat)
  {
    |m'| == |m| && forall k :: 0 <= k < |m| && !(dst <= k < dst + n) ==> m'[k] == m[k]
  }

  /** Whatever is stored in the payload of one block, the heap and every other
      payload stay as they are. */
  lemma PayloadWrite(m: seq<byte>, m': seq<byte>, bs: seq<Block>, j: nat, n: nat)
    requires HeapOf(m) == Some(bs) && j < |bs|
    requires n <= bs[j].size && Overwritten(m, m', bs[j].Addr(), n)
    ensures HeapOf(m') == Some(bs)
    ensures Intact(m, m', Live(bs) - {bs[j]})
  {
    HeapShape(m, bs);
    forall i | 0 <= i < |bs|
      ensures bs[i].off + H <= |m| && HeaderAt(m', bs[i].off) == HeaderAt(m, bs[i].off)
      ensures bs[i].Next() <= |m| && (i != j ==> Payload(m', bs[i]) == Payload(m, bs[i]))
    {
      Inside(bs, |m|, i);
      if i < j { Ordered(bs, i, j); }
      if j < i { Ordered(bs, j, i); }
      SameHeader(m, m', bs[i].off);
    }
    PayloadWriteEncodes(m, m', bs);
    forall x | x in Live(bs) - {bs[j]} ensures x.Next() <= |m| && Payload(m', x) == Payload(m, x) {
      var i :| 0 <= i < |bs| && bs[i] == x;
    }
  }

  lemma PayloadWriteEncodes(m: seq<byte>, m': seq<byte>, bs: seq<Block>)
    requires HeapOf(m) == Some(bs) && |m'| == |m|
    requires forall i :: 0 <= i < |bs| ==>
      bs[i].off + H <= |m| && HeaderAt(m', bs[i].off) == HeaderAt(m, bs[i].off)
    ensures HeapOf(m') == Some(bs)
  {
    forall i | 0 <= i < |bs| ensures Described(m', bs[i]) {
      assert Described(m, bs[i]);
    }
    forall i, j | 0 <= i < j < |bs| - 1 && j == i + 1 ensures BackTagged(m', bs[i], bs[j]) {
      assert BackTagged(m, bs[i], bs[j]);
    }
    Parsed(m', bs);
  }

  /** The live blocks among a free-busy-free neighbourhood of block i. */
  lemma LiveAround(m: seq<byte>, bs: seq<Block>, a: nat, i: nat, b: nat)
    requires HeapOf(m) == Some(bs) && i < |bs| && bs[i].busy
    requires i - 1 <= a <= i && i + 1 <= b <= i + 2 && b <= |bs|
    requires a < i ==> !bs[a].busy
    requires i + 1 < b ==> !bs[i + 1].busy
    ensures LiveIn(bs, a, b) == {bs[i]}
  {
    forall x ensures x in LiveIn(bs, a, b) <==> x == bs[i] {
      assert bs[a..b][i - a] == bs[i];
      if x in LiveIn(bs, a, b) {
        var j :| 0 <= j < b - a && bs[a..b][j] == x;
      }
    }
  }

  lemma LiveInExtends(bs: seq<Block>, a: nat, c: nat)
    requires a <= c < |bs| && !bs[c].busy
    ensures LiveIn(bs, a, c + 1) == LiveIn(bs, a, c)
  {
    assert bs[a..c + 1] == bs[a..c] + [bs[c]];
  }

  /** A block covering the payload of live block i is none of the other old blocks. */
  lemma Covering(m: seq<byte>, bs: seq<Block>, i: nat, nb: Block)
    requires HeapOf(m) == Some(bs) && i < |bs|
    requires nb.Addr() <= bs[i].Addr() && bs[i].Next() <= nb.Next()
    ensures nb !in Live(bs) - {bs[i]}
  {
    HeapShape(m, bs);
    if nb in Live(bs) - {bs[i]} {
      var j :| 0 <= j < |bs| && bs[j] == nb;
      if i < j { Ordered(bs, i, j); } else { Ordered(bs, j, i); }
    }
  }

  lemma DistinctOffsets(m: seq<byte>, bs: seq<Block>, i: nat, j: nat)
    requires HeapOf(m) == Some(bs) && i < |bs| && j < |bs| && bs[i].off == bs[j].off
    ensures i == j
  {
    HeapShape(m, bs);
    if i < j { Ordered(bs, i, j); }
    if j < i { Ordered(bs, j, i); }
  }

  lemma IndexOf(m: seq<byte>, bs: seq<Block>, b: Block) returns (i: nat)
    requires HeapOf(m) == Some(bs) && b in Live(bs)
    ensures i < |bs| && bs[i] == b && b.Next() <= |m|
    ensures 0 < b.off && b.Next() < |m| ==> 0 < i < |bs| - 1
  {
    i :| 0 <= i < |bs| && bs[i] == b;
    Readable(m, bs, i);
  }

  lemma IntactTrans(m: seq<byte>, m1: seq<byte>, m2: seq<byte>, s: set<Block>, s1: set<Block>, s2: set<Block>)
    requires Intact(m, m1, s1) && Intact(m1, m2, s2) && s <= s1 && s <= s2
    ensures Intact(m, m2, s)
  {
  }
}
