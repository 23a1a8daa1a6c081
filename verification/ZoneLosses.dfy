/** Runs of the zone allocator in which something is lost: a block whose page cannot get
    its descriptor back, and all pages of a long multipage block. */
module ZoneLosses {
  import opened Options
  import opened Powers
  import opened Sequences
  import opened ZoneModel
  import opened ZoneSizes
  import opened ZoneSpec
  import opened ZoneUndo
  import opened ZoneTheory
  import opened ZoneRuns

  // --- A block is lost -------------------------------------------------

  /** n requests for size bytes. */
  ghost function Gets(z: Zone, size: nat, n: nat): (z': Zone)
    requires Core(z)
    ensures Core(z') && SameFrame(z, z') && Live(z) <= Live(z') && LostBlocks(z') == LostBlocks(z)
  {
    if n == 0 then z else Alloc(Gets(z, size, n - 1), size).0
  }

  lemma ClassOf24()
    ensures ClassOf(24) == 5
  {
    ClassAtLeastDC(24);
  }

  /** Pages of 256 bytes have eight slots of 32 bytes and four of 64. */
  lemma Slots()
    ensures Count(8, 5) == 8 && Count(8, 6) == 4
    ensures |FullChain(8, 5)| == 7 && |FullChain(8, 6)| == 4
    ensures FullChain(8, 5)[0] == 1 && FullChain(8, 6)[0] == 0
  {
    assert Pow2(3) == 8 && Pow2(2) == 4;
  }

  /** A heap of three pages of 256 bytes, page 1 for 64-byte blocks. */
  ghost predicate Three(z: Zone)
  {
    Core(z) && z.k == 8 && |z.pages| == 3 && |z.lists| == 7
  }

  /** After j of the four requests for 64 bytes. */
  ghost predicate Getting64(z: Zone, j: nat)
  {
    && Three(z) && 1 <= j < 4
    && z.pages[1] == Slab(6, FullChain(8, 6)[j..]) && z.lists[6] == [1] && 1 in z.desc && z.desc[1] == Addr(2, 1)
    && z.pages[2] == Slab(5, FullChain(8, 5)[1..]) && z.lists[5] == [2]
  }

  /** After all four: page 1 is busy and has given back its descriptor's page. */
  ghost predicate Got64(z: Zone)
  {
    Three(z) && z.pages[1] == Slab(6, []) && z.pages[2] == Page.Free && z.lists[5] == []
  }

  /** After j of the seven requests for 24 bytes. */
  ghost predicate Getting24(z: Zone, j: nat)
  {
    && Three(z) && 1 <= j < 7
    && z.pages[1] == Slab(6, []) && z.pages[2] == Slab(5, FullChain(8, 5)[j..]) && z.lists[5] == [2]
  }

  /** Page 2 becomes a page of the descriptor's class, and its first block is taken. */
  lemma OpensDC(z: Zone)
    requires Three(z) && z.lists[5] == [] && !z.pages[1].Free? && z.pages[2].Free?
    ensures AllocDC(z).1 == Some(Addr(2, 1))
    ensures var z' := AllocDC(z).0;
      && Three(z') && z'.pages == z.pages[2 := Slab(5, FullChain(8, 5)[1..])] && z'.lists == z.lists[5 := [2]]
  {
    hide Core, Elems, NoDup, Blocks;
    Slots();
    PageZero(z);
    assert FirstFree(z.pages, 0) == Some(2);
    var z1 := OpenDC(z).0;
    assert [] + [2] == [2];
    assert z1.lists[5] == [2] && z1.pages[2] == Slab(5, FullChain(8, 5));
    HeadOf(z1, 5);
  }

  lemma PageZero(z: Zone)
    requires Core(z)
    ensures z.pages[0] == Held
  {
  }

  /** The first request: page 1 for the blocks, page 2 for its descriptor. */
  lemma First64(z: Zone)
    requires z == Initial(8, 3) && Core(z)
    ensures Getting64(Alloc(z, 64).0, 1) && Alloc(z, 64).1 == Some(Addr(1, 0))
  {
    hide Core, Elems, NoDup, Blocks, FullChain, ClassOf;
    Slots();
    ClassOf64();
    assert FirstFree(z.pages, 0) == Some(1);
    IdleCore(z, Hold(z, 1), 1, Held);
    var z1 := Hold(z, 1);
    OpensDC(z1);
    var z2 := AllocDC(z1).0;
    var z3 := Furnish(z2, 1, 6, Addr(2, 1));
    assert OpenLarge(z, 6) == (z3, true);
    assert [] + [1] == [1];
    assert z3.lists[6] == [1] && z3.pages[1] == Slab(6, FullChain(8, 6));
    AllocPops(z3, 64, 1);
    assert Alloc(z, 64) == Alloc(z3, 64);
  }

  lemma Next64(z: Zone, j: nat)
    requires Getting64(z, j) && j < 3
    ensures Getting64(Alloc(z, 64).0, j + 1)
  {
    hide Core, Elems, NoDup, FullChain, ClassOf;
    Slots();
    ClassOf64();
    AllocPops(z, 64, 1);
    assert FullChain(8, 6)[j..][1..] == FullChain(8, 6)[j + 1..];
  }

  lemma Last64(z: Zone)
    requires Getting64(z, 3)
    ensures Got64(Alloc(z, 64).0)
  {
    hide Core, Elems, NoDup, FullChain, ClassOf;
    Slots();
    ClassOf64();
    HeadOf(z, 6);
    FreedDescriptor(z, 1);
  }

  lemma First24(z: Zone)
    requires Got64(z)
    ensures Getting24(Alloc(z, 24).0, 1)
  {
    hide Core, FullChain, ClassOf;
    ClassOf24();
    OpensDC(z);
  }

  lemma Next24(z: Zone, j: nat)
    requires Getting24(z, j) && j < 6
    ensures Getting24(Alloc(z, 24).0, j + 1)
  {
    hide Core, Elems, NoDup, FullChain, ClassOf;
    Slots();
    ClassOf24();
    AllocPops(z, 24, 2);
    assert FullChain(8, 5)[j..][1..] == FullChain(8, 5)[j + 1..];
  }

  lemma Last24(z: Zone)
    requires Getting24(z, 6)
    ensures LosesBlock(Alloc(z, 24).0, Addr(1, 0))
  {
    hide Core, Elems, NoDup, FullChain, ClassOf;
    Slots();
    ClassOf24();
    PageZero(z);
    HeadOf(z, 5);
  }

  lemma OneMore(z: Zone, size: nat, n: nat)
    requires Core(z) && n > 0
    ensures Gets(z, size, n) == Alloc(Gets(z, size, n - 1), size).0
  {
  }

  lemma GetsNone(z: Zone, size: nat)
    requires Core(z)
    ensures Gets(z, size, 0) == z
  {
  }

  lemma Four64()
    ensures Core(Initial(8, 3)) && LostBlocks(Initial(8, 3)) == {}
    ensures Got64(Gets(Initial(8, 3), 64, 4)) && Addr(1, 0) in Live(Gets(Initial(8, 3), 64, 4))
  {
    hide Core, Alloc, Getting64, Got64, Gets;
    var z := Initial(8, 3);
    InitialInv(8, 3);
    GetsNone(z, 64);
    OneMore(z, 64, 1);
    First64(z);
    OneMore(z, 64, 2);
    Next64(Gets(z, 64, 1), 1);
    OneMore(z, 64, 3);
    Next64(Gets(z, 64, 2), 2);
    OneMore(z, 64, 4);
    Last64(Gets(z, 64, 3));
  }

  lemma {:induction false} Some24(z: Zone, j: nat)
    requires Got64(z) && 1 <= j < 7
    ensures Getting24(Gets(z, 24, j), j)
  {
    hide Core, Alloc, Getting24, Gets;
    OneMore(z, 24, j);
    if j == 1 {
      GetsNone(z, 24);
      First24(z);
    } else {
      Some24(z, j - 1);
      Next24(Gets(z, 24, j - 1), j - 1);
    }
  }

  /** Four requests for 64 bytes in a heap of three pages fill page 1, which thereby gives
      up its descriptor; seven for 24 bytes then take all there is for descriptors, and a
      block of page 1 that is freed now never comes back. */
  lemma BlockLost()
    ensures Core(Initial(8, 3))
    ensures var z := Gets(Gets(Initial(8, 3), 64, 4), 24, 7); var x := Addr(1, 0);
      && x in Live(z) && LosesBlock(z, x) && Leaks(z, Put(x)) && LostBlocks(Release(z, x)) == {x}
  {
    hide Core, Alloc, Release, LosesBlock, Getting24, Gets;
    Four64();
    var z4 := Gets(Initial(8, 3), 64, 4);
    Some24(z4, 6);
    OneMore(z4, 24, 7);
    Last24(Gets(z4, 24, 6));
  }

  // --- A long multipage block is stranded ------------------------------

  lemma ClassOf128K()
    ensures ClassOf(131072) == 17 && RunLength(10, 17) == 128
  {
    Sum(8, 8);
    EightBits();
    Log131071();
    FloatLogIs(131071);
    RunCovers(10, 17);
    SevenBits();
  }

  lemma SevenBits()
    ensures Pow2(7) == 128
  {
    assert Pow2(3) == 8 && Pow2(4) == 16;
    Sum(3, 4);
  }

  lemma Log131071()
    ensures Log2(131071) == 16
  {
    EightBits();
    Sum(8, 8);
    LogUnique(131071, 16);
  }

  lemma OnlyRun()
    ensures Core(Initial(10, 129))
    ensures Alloc(Initial(10, 129), 131072) == (TakeRun(Initial(10, 129), 1, 128), Some(Addr(1, 0)))
  {
    hide Core, ClassOf, RunLength, TakeRun;
    var z := Initial(10, 129);
    InitialInv(10, 129);
    ClassOf128K();
    assert FreeRun(z.pages, 1, 128);
    assert !z.pages[0].Free? && !FreeRun(z.pages, 0, 128);
    assert LeftmostRun(z.pages, 0, 128) == LeftmostRun(z.pages, 1, 128) == Some(1);
  }

  /** A block of 128 pages of 1 KB, the first request in a heap of 129, is recorded with
      length -128: freeing it gives back no page, and the heap is empty for good. */
  lemma LongRunStranded()
    ensures Core(Initial(10, 129)) && Alloc(Initial(10, 129), 131072).1 == Some(Addr(1, 0))
    ensures var z := Alloc(Initial(10, 129), 131072).0; var x := Addr(1, 0);
      && x in Live(z) && IsRun(z, x) && z.pages[1].len == 128 && Returned(128) == 0 && Leaks(z, Put(x))
      && forall q: nat :: q in Adrift(Release(z, x)) <==> 1 <= q < 129
  {
    hide Core, Alloc, Release;
    OnlyRun();
    var z, x := Alloc(Initial(10, 129), 131072).0, Addr(1, 0);
    ReleaseFate(z, x);
    forall q: nat ensures q in Tail(z, x) <==> 1 <= q < 129 {
      assert q in Tail(z, x) <==> q < |z.pages| && Beyond(z, x, q);
    }
    assert Adrift(z) == {};
  }
}
