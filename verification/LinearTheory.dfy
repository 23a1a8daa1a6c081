/** What every reachable linear heap satisfies, whatever calls led to it. */
module LinearTheory {
  import opened Options
  import opened Bytes
  import opened LinearHeap
  import opened LinearAllocator

  // --- Canonical form --------------------------------------------------

  lemma SameOffset(bs: seq<Block>, amount: nat, i: nat, b: Block)
    requires Shape(bs, amount) && i < |bs| && b in Live(bs) && b.off == bs[i].off
    ensures b == bs[i]
  {
    var t :| 0 <= t < |bs| && bs[t] == b;
    if i < t { Ordered(bs, i, t); }
    if t < i { Ordered(bs, t, i); }
  }

  /** The next live block of another heap with the same live set starts no earlier. */
  lemma NextNoEarlier(cs: seq<Block>, bs: seq<Block>, amount: nat, i: nat)
    requires Shape(cs, amount) && Shape(bs, amount) && Live(cs) == Live(bs)
    requires 0 < i < |cs| && i < |bs| && cs[..i] == bs[..i] && !cs[i].busy && !bs[i].busy
    ensures cs[i + 1].off <= bs[i + 1].off
  {
    assert bs[i + 1] in Live(bs);
    var t :| 0 <= t < |cs| && cs[t] == bs[i + 1];
    assert cs[i - 1] == cs[..i][i - 1] == bs[..i][i - 1] == bs[i - 1];
    if t < i {
      Ordered(cs, t, i);
    } else if i + 1 < t {
      Ordered(cs, i + 1, t);
    }
  }

  lemma SameBlock(cs: seq<Block>, bs: seq<Block>, amount: nat, i: nat)
    requires Shape(cs, amount) && Shape(bs, amount) && Live(cs) == Live(bs)
    requires 0 < i < |cs| && i < |bs| && cs[..i] == bs[..i]
    ensures cs[i] == bs[i]
  {
    assert cs[i - 1] == cs[..i][i - 1] == bs[..i][i - 1] == bs[i - 1];
    assert cs[i].off == bs[i].off;
    if cs[i].busy {
      assert cs[i] in Live(bs);
      SameOffset(bs, amount, i, cs[i]);
    } else if bs[i].busy {
      assert bs[i] in Live(cs);
      SameOffset(cs, amount, i, bs[i]);
    } else {
      NextNoEarlier(cs, bs, amount, i);
      NextNoEarlier(bs, cs, amount, i);
    }
  }

  lemma {:induction false} SamePrefix(cs: seq<Block>, bs: seq<Block>, amount: nat, i: nat)
    requires Shape(cs, amount) && Shape(bs, amount) && Live(cs) == Live(bs)
    requires 0 < i <= |cs|
    ensures i <= |bs| && cs[..i] == bs[..i]
  {
    if i > 1 {
      SamePrefix(cs, bs, amount, i - 1);
      assert cs[i - 2] == cs[..i - 1][i - 2] == bs[..i - 1][i - 2] == bs[i - 2];
      Inside(cs, amount, i - 1);
      SameBlock(cs, bs, amount, i - 1);
      assert cs[..i] == cs[..i - 1] + [cs[i - 1]];
      assert bs[..i] == bs[..i - 1] + [bs[i - 1]];
    }
  }

  /** A heap is determined by its live blocks alone: no history of allocations,
      releases and reallocations can leave different free blocks behind. */
  lemma Canonical(cs: seq<Block>, bs: seq<Block>, amount: nat)
    requires Shape(cs, amount) && Shape(bs, amount) && Live(cs) == Live(bs)
    ensures cs == bs
  {
    SamePrefix(cs, bs, amount, |cs|);
    SamePrefix(bs, cs, amount, |bs|);
  }

  lemma InitialShape(amount: nat)
    requires 3 * H <= amount
    ensures Shape(Initial(amount), amount)
  {
  }

  /** Once only the sentinels are live, the heap is the initial single free block
      again, whatever order the blocks were freed in. */
  lemma AllFreed(m: seq<byte>, bs: seq<Block>)
    requires HeapOf(m) == Some(bs) && 3 * H <= |m|
    requires Live(bs) == Live(Initial(|m|))
    ensures bs == Initial(|m|)
  {
    HeapShape(m, bs);
    InitialShape(|m|);
    Canonical(bs, Initial(|m|), |m|);
  }

  // --- Conservation ----------------------------------------------------

  function Total(bs: seq<Block>): nat
  {
    if bs == [] then 0 else Total(bs[..|bs| - 1]) + bs[|bs| - 1].size + H
  }

  lemma {:induction false} TotalUpTo(bs: seq<Block>, amount: nat, i: nat)
    requires Shape(bs, amount) && i < |bs|
    ensures Total(bs[..i + 1]) == bs[i].Next()
  {
    assert bs[..i + 1][..i] == bs[..i];
    if i > 0 {
      TotalUpTo(bs, amount, i - 1);
    }
  }

  /** Payloads and headers always add up to the whole arena. */
  lemma Conservation(m: seq<byte>, bs: seq<Block>)
    requires HeapOf(m) == Some(bs)
    ensures Total(bs) == |m|
  {
    HeapShape(m, bs);
    TotalUpTo(bs, |m|, |bs| - 1);
    assert bs[..|bs|] == bs;
  }

  // --- First fit in terms of gaps --------------------------------------

  /** Live blocks i and j with nothing live between them. */
  ghost predicate Gap(bs: seq<Block>, i: nat, j: nat)
  {
    i < j < |bs| && bs[i].busy && bs[j].busy && forall k :: i < k < j ==> !bs[k].busy
  }

  function Room(bs: seq<Block>, i: nat, j: nat): int
    requires i < |bs| && j < |bs|
  {
    bs[j].off - bs[i].Next()
  }

  /** Complete coalescing: a gap holds no block or exactly one. */
  lemma GapShape(m: seq<byte>, bs: seq<Block>, i: nat, j: nat)
    requires HeapOf(m) == Some(bs) && Gap(bs, i, j)
    ensures j == i + 1 || j == i + 2
    ensures Room(bs, i, j) == if j == i + 1 then 0 else bs[i + 1].size + H
  {
    HeapShape(m, bs);
    if i + 2 < |bs| {
      assert bs[i + 1].busy || bs[i + 2].busy;
    }
  }

  lemma FreeMakesGap(m: seq<byte>, bs: seq<Block>, k: nat)
    requires HeapOf(m) == Some(bs) && k < |bs| && !bs[k].busy
    ensures 0 < k < |bs| - 1 && Gap(bs, k - 1, k + 1) && Room(bs, k - 1, k + 1) == bs[k].size + H
    ensures bs[k].size % 4 == 0
  {
    HeapShape(m, bs);
  }

  /** The search of mem_alloc comes back empty exactly when no gap between
      consecutive live blocks holds the rounded request and a header. */
  lemma NoneExactlyWhenNoGap(m: seq<byte>, bs: seq<Block>, size: nat)
    requires HeapOf(m) == Some(bs)
    ensures (forall k :: 0 <= k < |bs| && !bs[k].busy ==> bs[k].size < size)
      <==> (forall i: nat, j: nat :: Gap(bs, i, j) ==> Room(bs, i, j) < CeilFour(size) + H)
  {
    hide HeapOf;
    if forall k :: 0 <= k < |bs| && !bs[k].busy ==> bs[k].size < size {
      forall i: nat, j: nat | Gap(bs, i, j) ensures Room(bs, i, j) < CeilFour(size) + H {
        GapShape(m, bs, i, j);
      }
    } else {
      var k :| 0 <= k < |bs| && !bs[k].busy && bs[k].size >= size;
      FreeMakesGap(m, bs, k);
    }
  }

  /** Otherwise the block comes from the leftmost gap that holds the request. */
  lemma LeftmostGap(m: seq<byte>, bs: seq<Block>, k: nat, size: nat)
    requires HeapOf(m) == Some(bs)
    requires k < |bs| && !bs[k].busy && bs[k].size >= size
    requires forall j :: 0 <= j < k ==> bs[j].busy || bs[j].size < size
    ensures 0 < k < |bs| - 1 && Gap(bs, k - 1, k + 1) && Room(bs, k - 1, k + 1) >= CeilFour(size) + H
    ensures forall i: nat, j: nat :: Gap(bs, i, j) && i < k - 1 ==> Room(bs, i, j) < CeilFour(size) + H
  {
    hide HeapOf;
    FreeMakesGap(m, bs, k);
    forall i: nat, j: nat | Gap(bs, i, j) && i < k - 1 ensures Room(bs, i, j) < CeilFour(size) + H {
      GapShape(m, bs, i, j);
    }
  }

  // --- Whole runs ------------------------------------------------------

  ghost function Elements(bs: seq<Block>): set<Block>
  {
    set b | b in bs
  }

  /** Free every user block in whatever order the caller lists them. */
  method FreeAll(a: Arena, list: seq<nat>, ghost bs: seq<Block>)
    requires a.Valid() && 3 * H <= a.mem.Length
    requires |list| == |bs| && forall k :: 0 <= k < |bs| ==> bs[k].Addr() == list[k]
    requires forall j, k :: 0 <= j < k < |bs| ==> bs[j] != bs[k]
    requires Elements(bs) !! Live(Initial(a.mem.Length))
    requires Live(a.blocks) == Live(Initial(a.mem.Length)) + Elements(bs)
    modifies a.mem, a`blocks
    ensures a.Valid() && a.blocks == Initial(a.mem.Length)
  {
    hide HeapOf, Live;
    for k := 0 to |list|
      invariant a.Valid()
      invariant Live(a.blocks) == Live(Initial(a.mem.Length)) + Elements(bs[k..])
    {
      ghost var i := UserIndex(a.mem[..], a.blocks, bs[k..]);
      a.Free(list[k], i);
      assert bs[k..] == [bs[k]] + bs[k + 1..];
      assert Elements(bs[k..]) == {bs[k]} + Elements(bs[k + 1..]);
      assert bs[k] !in bs[k + 1..];
      assert bs[k] in Elements(bs);
    }
    assert Elements(bs[|list|..]) == {};
    AllFreed(a.mem[..], a.blocks);
  }

  /** A live block that is no sentinel lies strictly between them. */
  lemma UserIndex(m: seq<byte>, bs: seq<Block>, user: seq<Block>) returns (i: nat)
    requires HeapOf(m) == Some(bs) && 3 * H <= |m| && user != []
    requires Live(bs) == Live(Initial(|m|)) + Elements(user)
    requires user[0] !in Live(Initial(|m|))
    ensures 0 < i < |bs| - 1 && bs[i] == user[0] && bs[i].busy
  {
    assert user[0] in Live(bs);
    i :| 0 <= i < |bs| && bs[i] == user[0];
    HeapShape(m, bs);
    if i == |bs| - 1 {
      var last := Initial(|m|)[2];
      assert last in Live(Initial(|m|));
      assert last in Live(bs);
      var t :| 0 <= t < |bs| && bs[t] == last;
      if t < i { Inside(bs, |m|, t); }
    }
  }

  /** A heap of 112 bytes after allocating the first n of 4, 8, 4 and 4 bytes. */
  ghost function Stage(n: nat): (bs: seq<Block>)
    requires n <= 4
    ensures |bs| == n + 3
  {
    [Block(0, 0, true)]
    + [Block(12, 4, true), Block(28, 8, true), Block(48, 4, true), Block(64, 4, true)][..n]
    + [Block([12, 28, 48, 64, 80][n], [76, 60, 40, 24, 8][n], false), Block(100, 0, true)]
  }

  function Request(n: nat): nat { if n == 1 then 8 else 4 }

  /** The second of the four blocks freed again. */
  ghost function SecondFreed(): seq<Block>
  {
    [Block(0, 0, true), Block(12, 4, true), Block(28, 8, false), Block(48, 4, true),
     Block(64, 4, true), Block(80, 8, false), Block(100, 0, true)]
  }

  lemma StageList(n: nat)
    requires n <= 4
    ensures n == 0 ==> Stage(n) == [Block(0, 0, true), Block(12, 76, false), Block(100, 0, true)]
    ensures n == 1 ==> Stage(n) == [Block(0, 0, true), Block(12, 4, true), Block(28, 60, false), Block(100, 0, true)]
    ensures n == 2 ==>
      Stage(n) == [Block(0, 0, true), Block(12, 4, true), Block(28, 8, true), Block(48, 40, false), Block(100, 0, true)]
    ensures n == 3 ==>
      Stage(n) ==
        [Block(0, 0, true), Block(12, 4, true), Block(28, 8, true), Block(48, 4, true), Block(64, 24, false),
         Block(100, 0, true)]
    ensures n == 4 ==>
      Stage(n) ==
        [Block(0, 0, true), Block(12, 4, true), Block(28, 8, true), Block(48, 4, true), Block(64, 4, true),
         Block(80, 8, false), Block(100, 0, true)]
  {
  }

  lemma StageStep(n: nat)
    requires n < 4
    ensures Shape(Stage(n + 1), 112) && Leftmost(Stage(n), n + 1, Request(n))
    ensures Live(Stage(n + 1)) == Live(Stage(n)) + {Carved(Stage(n)[n + 1], Request(n))}
    ensures Stage(n)[n + 1].Addr() == [24, 40, 60, 76][n]
  {
    hide Stage;
    StageList(n);
    StageList(n + 1);
  }

  lemma LastStage()
    ensures Stage(0) == Initial(112)
    ensures Shape(SecondFreed(), 112) && Live(SecondFreed()) == Live(Stage(4)) - {Stage(4)[2]}
    ensures Stage(4)[2] == Block(28, 8, true)
  {
    hide Stage;
    StageList(0);
    StageList(4);
  }

  /** mem_alloc from one stage to the next. */
  method AllocStage(a: Arena, ghost n: nat, size: nat) returns (p: nat)
    requires n < 4 && size == Request(n)
    requires a.Valid() && a.mem.Length == 112 && a.blocks == Stage(n)
    modifies a.mem, a`blocks
    ensures a.Valid() && a.blocks == Stage(n + 1) && p == [24, 40, 60, 76][n]
  {
    hide HeapOf, Live, Stage, Shape;
    StageStep(n);
    ghost var k;
    var q;
    q, k := a.Alloc(size);
    assert !Stage(n)[n + 1].busy;
    p := q.value;
    HeapShape(a.mem[..], a.blocks);
    Canonical(a.blocks, Stage(n + 1), 112);
  }

  /** A run that ends in the exact-fit flaw of mem_realloc: the block to the left is
      free and just large enough, and the block before that one has a payload. */
  method ExactFitRun() returns (a: Arena, p: Option<nat>, fault: bool, ghost m: seq<byte>)
    ensures fresh(a) && HeapOf(m) == Some(SecondFreed())
    ensures !(!fault && a.Valid() && (p.Some? ==> Succeeds(m, a.mem[..], SecondFreed(), 3, p.value, 24)))
  {
    hide HeapOf, Live, Stage, Succeeds, Reallocated, Shape;
    LastStage();
    a := new Arena(112);
    var p1 := AllocStage(a, 0, 4);
    var p2 := AllocStage(a, 1, 8);
    var p3 := AllocStage(a, 2, 4);
    var p4 := AllocStage(a, 3, 4);
    a.Free(p2, 2);
    HeapShape(a.mem[..], a.blocks);
    Canonical(a.blocks, SecondFreed(), 112);
    m := a.mem[..];
    ghost var nb;
    p, fault, nb := a.Realloc(Some(p3), 24, 3);
  }

  /** After three allocations, with the second block freed again. */
  ghost function BetweenFree(): seq<Block>
  {
    [Block(0, 0, true), Block(12, 4, true), Block(28, 8, false), Block(48, 4, true), Block(64, 24, false),
     Block(100, 0, true)]
  }

  lemma BetweenStage()
    ensures Stage(0) == Initial(112)
    ensures Shape(BetweenFree(), 112) && Live(BetweenFree()) == Live(Stage(3)) - {Stage(3)[2]}
    ensures Stage(3)[2] == Block(28, 8, true)
  {
    hide Stage;
    StageList(0);
    StageList(3);
  }

  /** A run that ends in the slack lost between both neighbours: the two free blocks and
      the headers have 60 bytes for 52, too little for another header. */
  method SlackRun() returns (a: Arena, p: Option<nat>, fault: bool, ghost m: seq<byte>)
    ensures fresh(a) && HeapOf(m) == Some(BetweenFree())
    ensures !(!fault && a.Valid() && (p.Some? ==> Succeeds(m, a.mem[..], BetweenFree(), 3, p.value, 52)))
  {
    hide HeapOf, Live, Stage, Succeeds, Reallocated, Shape;
    BetweenStage();
    a := new Arena(112);
    var p1 := AllocStage(a, 0, 4);
    var p2 := AllocStage(a, 1, 8);
    var p3 := AllocStage(a, 2, 4);
    a.Free(p2, 2);
    HeapShape(a.mem[..], a.blocks);
    Canonical(a.blocks, BetweenFree(), 112);
    m := a.mem[..];
    ghost var nb;
    p, fault, nb := a.Realloc(Some(p3), 52, 3);
  }

  /** A run in which the size comes out as 0: the block keeps its address and has no
      room for anything. */
  method WrappedRun() returns (a: Arena, p: Option<nat>, fault: bool, ghost m: seq<byte>)
    ensures fresh(a) && HeapOf(m) == Some(Stage(1)) && p.Some?
    ensures !(!fault && a.Valid() && Succeeds(m, a.mem[..], Stage(1), 1, p.value, 0xFFFF_FFFF))
  {
    hide HeapOf, Live, Stage, Succeeds, Reallocated, Shape;
    LastStage();
    StageList(1);
    a := new Arena(112);
    var p1 := AllocStage(a, 0, 4);
    m := a.mem[..];
    ghost var nb;
    p, fault, nb := a.Realloc(Some(p1), 0xFFFF_FFFF, 1);
  }
}
