/** Leaks and whole runs: which calls put pages or blocks out of reach for good, and
    what is left when the caller has freed everything. */
module ZoneRuns {
  import opened Options
  import opened Powers
  import opened ZoneModel
  import opened ZoneSizes
  import opened ZoneSpec
  import opened ZoneTheory

  predicate Spare(g: Page) { g.Free? || (g.Slab? && g.cls == DC) }

  predicate Idle(g: Page) { g.Held? || g.Stray? }

  /** Work on the descriptor's class moves pages between free and that class only. */
  predicate ConfinedAt(z: Zone, z': Zone, q: nat)
  {
    && |z'.pages| == |z.pages|
    && (q < |z.pages| ==> if Spare(z.pages[q]) then Spare(z'.pages[q]) else z'.pages[q] == z.pages[q])
  }

  ghost predicate Confined(z: Zone, z': Zone)
  {
    forall q: nat :: ConfinedAt(z, z', q)
  }

  /** Pages that no list, chain or user will ever hand back. Page 0 is never part of
      the heap. */
  ghost function Adrift(z: Zone): set<nat>
  {
    set p | 0 < p < |z.pages| && Idle(z.pages[p])
  }

  lemma TakeDCConfined(z: Zone)
    requires Core(z) && DC < |z.lists| && z.lists[DC] != []
    ensures Confined(z, TakeHead(z, DC).0)
  {
    HeadOf(z, DC);
    forall q: nat ensures ConfinedAt(z, TakeHead(z, DC).0, q) {}
  }

  lemma OpenDCConfined(z: Zone)
    requires Core(z) && DC < |z.lists| && z.lists[DC] == []
    ensures Confined(z, OpenDC(z).0)
  {
    forall q: nat ensures ConfinedAt(z, OpenDC(z).0, q) {}
  }

  lemma AllocDCConfined(z: Zone)
    requires Core(z) && DC < |z.lists|
    ensures Confined(z, AllocDC(z).0)
  {
    if z.lists[DC] == [] {
      OpenDCConfined(z);
      if OpenDC(z).1 {
        TakeDCConfined(OpenDC(z).0);
        forall q: nat ensures ConfinedAt(z, AllocDC(z).0, q) {
          assert ConfinedAt(z, OpenDC(z).0, q) && ConfinedAt(OpenDC(z).0, AllocDC(z).0, q);
        }
      }
    } else {
      TakeDCConfined(z);
    }
  }

  lemma FreeDCConfined(z: Zone, x: Addr)
    requires Core(z) && Usable(z, x) && z.pages[x.page].cls == DC && x in z.own && z.own[x] == User
    ensures Confined(z, FreeDC(z, x))
  {
    assert SlabOk(z, x.page);
    forall q: nat ensures ConfinedAt(z, FreeDC(z, x), q) {}
  }

  // --- Exactly when mem_alloc fails, and when it strands a page ---------

  predicate NoneFree(z: Zone) { forall q :: 0 <= q < |z.pages| ==> !z.pages[q].Free? }

  predicate OnlyFree(z: Zone, i: nat)
  {
    i < |z.pages| && z.pages[i].Free? && forall q :: 0 <= q < |z.pages| && q != i ==> !z.pages[q].Free?
  }

  /** A page has to be opened for a class larger than the descriptor's, its descriptor
      has to come from a page of its own, and only page i is left. */
  predicate Strands(z: Zone, size: nat, i: nat)
  {
    DC < ClassOf(size) < |z.lists| && z.lists[ClassOf(size)] == [] && z.lists[DC] == [] && OnlyFree(z, i)
  }

  ghost predicate Fails(z: Zone, size: nat)
  {
    var c := ClassOf(size);
    if c < |z.lists| then z.lists[c] == [] && (NoneFree(z) || exists i :: 0 <= i < |z.pages| && Strands(z, size, i))
    else forall p: nat :: !FreeRun(z.pages, p, RunLength(z.k, c))
  }

  ghost predicate Moves(z: Zone, z': Zone, p: nat)
  {
    forall q: nat :: q == p || ConfinedAt(z, z', q)
  }

  lemma OnlyFreeHeld(z: Zone, i: nat)
    requires i < |z.pages| && z.pages[i].Free?
    ensures OnlyFree(z, i) <==> NoneFree(Hold(z, i))
  {
    if NoneFree(Hold(z, i)) {
      forall q | 0 <= q < |z.pages| && q != i ensures !z.pages[q].Free? { assert !Hold(z, i).pages[q].Free?; }
    }
  }

  lemma OpenLargeMoves(z: Zone, c: nat)
    requires Core(z) && DC < c < |z.lists| && z.lists[c] == []
    ensures match FirstFree(z.pages, 0)
      case None => OpenLarge(z, c) == (z, false)
      case Some(i) =>
        && Moves(z, OpenLarge(z, c).0, i) && |OpenLarge(z, c).0.pages| == |z.pages|
        && (OpenLarge(z, c).1 <==> z.lists[DC] != [] || !OnlyFree(z, i))
        && (if OpenLarge(z, c).1 then OpenLarge(z, c).0.pages[i].Slab? else OpenLarge(z, c).0.pages == Hold(z, i).pages)
  {
    match FirstFree(z.pages, 0)
    case None =>
    case Some(i) =>
      var z1 := Hold(z, i);
      IdleCore(z, z1, i, Held);
      AllocDCConfined(z1);
      OnlyFreeHeld(z, i);
      forall q: nat ensures q == i || ConfinedAt(z, OpenLarge(z, c).0, q) { assert ConfinedAt(z1, AllocDC(z1).0, q); }
  }

  lemma TakeLargeMoves(z: Zone, c: nat)
    requires Core(z) && DC < c < |z.lists| && z.lists[c] != []
    ensures var z' := TakeLarge(z, c).0;
      Moves(z, z', z.lists[c][0]) && z.lists[c][0] < |z.pages| == |z'.pages|
      && z'.pages[z.lists[c][0]].Slab? && z'.pages[z.lists[c][0]].cls == c
  {
    HeadOf(z, c);
    var p, z1, z' := z.lists[c][0], TakeHead(z, c).0, TakeLarge(z, c).0;
    FreedDescriptor(z, p);
    assert SlotOk(z, z.desc[p]);
    forall q: nat ensures q == p || ConfinedAt(z, z1, q) {}
    if |z.pages[p].chain| < 2 {
      FreeDCConfined(z1, z.desc[p]);
      assert ConfinedAt(z1, z', p);
      forall q: nat ensures q == p || ConfinedAt(z, z', q) {
        assert q == p || ConfinedAt(z, z1, q);
        assert ConfinedAt(z1, z', q);
      }
    }
  }

  /** Page q is adrift in z' exactly when it was in z. */
  predicate IdleSame(z: Zone, z': Zone, q: nat)
  {
    |z'.pages| == |z.pages| && (q < |z.pages| ==> (Idle(z.pages[q]) <==> Idle(z'.pages[q])))
  }

  ghost predicate IdleAll(z: Zone, z': Zone)
  {
    forall q: nat :: IdleSame(z, z', q)
  }

  lemma IdleAllAdrift(z: Zone, z': Zone)
    requires IdleAll(z, z')
    ensures Adrift(z') == Adrift(z)
  {
    forall q: nat ensures q in Adrift(z') <==> q in Adrift(z) { assert IdleSame(z, z', q); }
  }

  /** A block in use in both heaps is the same block: its page has not changed class,
      nor its run length. */
  predicate SameBlock(z: Zone, z': Zone, x: Addr)
  {
    && x.page < |z.pages| == |z'.pages|
    && (z.pages[x.page].Slab? ==> z'.pages[x.page].Slab? && z'.pages[x.page].cls == z.pages[x.page].cls)
    && (!z.pages[x.page].Slab? ==> z'.pages[x.page] == z.pages[x.page])
  }

  ghost predicate SameBlocks(z: Zone, z': Zone)
  {
    forall x: Addr :: x in Live(z) ==> SameBlock(z, z', x)
  }

  lemma MovesSame(z: Zone, z': Zone, p: nat)
    requires Core(z) && Core(z') && Moves(z, z', p) && Live(z) <= Live(z')
    requires p < |z.pages| == |z'.pages|
    requires z.pages[p].Free? || (z.pages[p].Slab? && z'.pages[p].Slab? && z'.pages[p].cls == z.pages[p].cls)
    ensures SameBlocks(z, z')
  {
    forall x: Addr | x in Live(z) ensures SameBlock(z, z', x) {
      assert x.page == p || ConfinedAt(z, z', x.page);
      assert SlotOk(z, x) && x in Live(z') && SlotOk(z', x);
    }
  }

  lemma IdleTrans(z: Zone, z1: Zone, z2: Zone)
    requires IdleAll(z, z1) && IdleAll(z1, z2)
    ensures IdleAll(z, z2)
  {
    forall q: nat ensures IdleSame(z, z2, q) { assert IdleSame(z, z1, q) && IdleSame(z1, z2, q); }
  }

  lemma SameTrans(z: Zone, z1: Zone, z2: Zone)
    requires SameBlocks(z, z1) && SameBlocks(z1, z2) && Live(z) <= Live(z1)
    ensures SameBlocks(z, z2)
  {
    forall x: Addr | x in Live(z) ensures SameBlock(z, z2, x) {
      assert SameBlock(z, z1, x) && x in Live(z1) && SameBlock(z1, z2, x);
    }
  }

  lemma TakeLargeFate(z: Zone, c: nat)
    requires Core(z) && DC < c < |z.lists| && z.lists[c] != []
    ensures IdleAll(z, TakeLarge(z, c).0) && SameBlocks(z, TakeLarge(z, c).0)
  {
    HeadOf(z, c);
    TakeLargeMoves(z, c);
    var z', p := TakeLarge(z, c).0, z.lists[c][0];
    forall q: nat ensures IdleSame(z, z', q) { assert q == p || ConfinedAt(z, z', q); }
    MovesSame(z, z', p);
  }

  lemma OpenLargeFate(z: Zone, c: nat)
    requires Core(z) && DC < c < |z.lists| && z.lists[c] == []
    ensures SameBlocks(z, OpenLarge(z, c).0)
    ensures OpenLarge(z, c).1 ==> IdleAll(z, OpenLarge(z, c).0)
    ensures !OpenLarge(z, c).1 <==>
      NoneFree(z) || (z.lists[DC] == [] && exists i :: 0 <= i < |z.pages| && OnlyFree(z, i))
    ensures !OpenLarge(z, c).1 ==>
      Adrift(OpenLarge(z, c).0) == Adrift(z) + set i | 0 <= i < |z.pages| && z.lists[DC] == [] && OnlyFree(z, i)
  {
    hide OpenLarge, AllocDC;
    OpenLargeMoves(z, c);
    var (z', ok) := OpenLarge(z, c);
    match FirstFree(z.pages, 0)
    case None =>
      SameSelf(z);
      NobodyOnly(z);
    case Some(i) =>
      MovesSame(z, z', i);
      if ok {
        forall q: nat ensures IdleSame(z, z', q) { assert q == i || ConfinedAt(z, z', q); }
        forall q: nat ensures OnlyFree(z, q) ==> q == i {}
      } else {
        StrandedOne(z, z', i);
      }
  }

  lemma NobodyOnly(z: Zone)
    requires NoneFree(z)
    ensures forall i: nat :: !OnlyFree(z, i)
  {
  }

  lemma StrandedOne(z: Zone, z': Zone, i: nat)
    requires 0 < i && OnlyFree(z, i) && z'.pages == Hold(z, i).pages
    ensures Adrift(z') == Adrift(z) + set j | 0 <= j < |z.pages| && OnlyFree(z, j)
  {
    forall j: nat ensures OnlyFree(z, j) <==> j == i {}
    assert (set j | 0 <= j < |z.pages| && OnlyFree(z, j)) == {i};
  }

  lemma ConfinedFate(z: Zone, z': Zone)
    requires Core(z) && Core(z') && Confined(z, z') && Live(z) <= Live(z')
    ensures IdleAll(z, z') && SameBlocks(z, z')
  {
    forall q: nat ensures IdleSame(z, z', q) { assert ConfinedAt(z, z', q); }
    assert ConfinedAt(z, z', 0);
    forall x: Addr | x in Live(z) ensures SameBlock(z, z', x) {
      assert ConfinedAt(z, z', x.page);
      assert SlotOk(z, x) && x in Live(z') && SlotOk(z', x);
    }
  }

  lemma AllocSlabFate(z: Zone, c: nat)
    requires Core(z) && DC <= c < |z.lists|
    ensures SameBlocks(z, AllocSlab(z, c).0)
    ensures AllocSlab(z, c).1.None? <==>
      && z.lists[c] == []
      && (NoneFree(z) || (c != DC && z.lists[DC] == [] && exists i :: 0 <= i < |z.pages| && OnlyFree(z, i)))
    ensures Adrift(AllocSlab(z, c).0) == Adrift(z) +
      set i | 0 <= i < |z.pages| && c != DC && z.lists[c] == [] && z.lists[DC] == [] && OnlyFree(z, i)
  {
    hide Core, TakeLarge, OpenLarge, AllocDC, SameBlocks, IdleAll;
    var z' := AllocSlab(z, c).0;
    if c == DC {
      AllocDCConfined(z);
      ConfinedFate(z, z');
      IdleAllAdrift(z, z');
    } else {
      var z1 := z;
      if z.lists[c] == [] {
        OpenLargeFate(z, c);
        z1 := OpenLarge(z, c).0;
      }
      if z.lists[c] != [] || OpenLarge(z, c).1 {
        TakeLargeFate(z1, c);
        SameSelf(z);
        SameTrans(z, z1, z');
        IdleTrans(z, z1, z');
        IdleAllAdrift(z, z');
      }
    }
  }

  lemma SameSelf(z: Zone)
    requires Core(z)
    ensures SameBlocks(z, z) && IdleAll(z, z)
  {
    forall x: Addr | x in Live(z) ensures SameBlock(z, z, x) { assert SlotOk(z, x); }
  }

  /** mem_alloc fails exactly when Fails says so, strands a page exactly when Strands
      does, and leaves every block in use as it is. */
  lemma AllocFate(z: Zone, size: nat)
    requires Core(z)
    ensures Alloc(z, size).1.None? <==> Fails(z, size)
    ensures Adrift(Alloc(z, size).0) == Adrift(z) + set i | 0 <= i < |z.pages| && Strands(z, size, i)
    ensures SameBlocks(z, Alloc(z, size).0)
  {
    hide Core, AllocSlab, FloatLog;
    ClassAtLeastDC(size);
    var c, z' := ClassOf(size), Alloc(z, size).0;
    if c < |z.lists| {
      AllocSlabFate(z, c);
      forall i: nat
        ensures Strands(z, size, i) <==> c != DC && z.lists[c] == [] && z.lists[DC] == [] && OnlyFree(z, i)
      {}
    } else {
      AllocRunFate(z, size);
    }
  }

  lemma AllocRunFate(z: Zone, size: nat)
    requires Core(z) && ClassOf(size) >= |z.lists|
    ensures Alloc(z, size).1.None? <==> forall p: nat :: !FreeRun(z.pages, p, RunLength(z.k, ClassOf(size)))
    ensures Adrift(Alloc(z, size).0) == Adrift(z) && SameBlocks(z, Alloc(z, size).0)
  {
    hide Pow2, ClassOf;
    RunCovers(z.k, ClassOf(size));
    var z' := Alloc(z, size).0;
    SameSelf(z);
    forall q: nat ensures IdleSame(z, z', q) {}
    IdleAllAdrift(z, z');
    forall x: Addr | x in Live(z) ensures SameBlock(z, z', x) { assert SlotOk(z, x); }
  }

  // --- What mem_free strands -------------------------------------------

  /** Page q of the multipage block x is not covered by the recorded length. */
  predicate Beyond(z: Zone, x: Addr, q: nat)
  {
    IsRun(z, x) && x.page + Returned(z.pages[x.page].len) <= q < x.page + z.pages[x.page].len
  }

  function Tail(z: Zone, x: Addr): set<nat>
  {
    set q | 0 <= q < |z.pages| && Beyond(z, x, q)
  }

  /** Page p changes, and becomes free or keeps its class; beyond that, pages move between
      free and the descriptor's class only. */
  ghost predicate Releases(z: Zone, z': Zone, p: nat)
  {
    && Moves(z, z', p) && p < |z.pages| == |z'.pages| && z.pages[p].Slab?
    && (z'.pages[p].Free? || (z'.pages[p].Slab? && z'.pages[p].cls == z.pages[p].cls))
  }

  lemma FreeBusyMoves(z: Zone, x: Addr)
    requires Core(z) && Usable(z, x) && x in z.own && z.own[x] == User
    requires DC < |z.lists| && z.pages[x.page].cls != DC && z.pages[x.page].chain == []
    ensures Releases(z, FreeBusy(z, x), x.page)
  {
    AllocDCConfined(z);
    forall q: nat ensures q == x.page || ConfinedAt(z, FreeBusy(z, x), q) { assert ConfinedAt(z, AllocDC(z).0, q); }
  }

  lemma CloseLargeMoves(z: Zone, p: nat)
    requires Core(z) && WholePage(z, p) && z.pages[p].cls != DC
    ensures Moves(z, CloseLarge(z, p), p) && |CloseLarge(z, p).pages| == |z.pages| && CloseLarge(z, p).pages[p].Free?
  {
    WholeChain(z, p);
    CloseCore(z, p);
    FreedDescriptor(z, p);
    assert SlotOk(z, z.desc[p]);
    var z1 := Delist(z, p, Held);
    FreeDCConfined(z1, z.desc[p]);
    forall q: nat ensures q == p || ConfinedAt(z, CloseLarge(z, p), q) {
      assert ConfinedAt(z1, FreeDC(z1, z.desc[p]), q);
    }
  }

  lemma FreeSlabMoves(z: Zone, x: Addr)
    requires Core(z) && DC < |z.lists| && Usable(z, x) && x in z.own && z.own[x] == User
    ensures Releases(z, FreeSlab(z, x), x.page)
  {
    hide FreeBusy, FreeDC, CloseLarge;
    var z', p := FreeSlab(z, x), x.page;
    if z.pages[p].cls == DC {
      FreeDCConfined(z, x);
      assert ConfinedAt(z, z', p);
    } else if z.pages[p].chain == [] {
      FreeBusyMoves(z, x);
    } else {
      PushCore(z, x);
      var z1 := Push(z, x);
      if WholePage(z1, p) { CloseLargeMoves(z1, p); }
      forall q: nat ensures q == p || ConfinedAt(z, z', q) {
        assert WholePage(z1, p) ==> q == p || ConfinedAt(z1, z', q);
      }
    }
  }

  lemma FreeSlabIdle(z: Zone, x: Addr)
    requires Core(z) && DC < |z.lists| && Usable(z, x) && x in z.own && z.own[x] == User
    ensures IdleAll(z, FreeSlab(z, x))
  {
    hide FreeSlab;
    FreeSlabMoves(z, x);
    forall q: nat ensures IdleSame(z, FreeSlab(z, x), q) { assert q == x.page || ConfinedAt(z, FreeSlab(z, x), q); }
  }

  /** Every other block in use stays as it is. */
  lemma ReleaseSame(z: Zone, x: Addr, y: Addr)
    requires Core(z) && x in Live(z) && y in Live(z) && y != x
    ensures SameBlock(z, Release(z, x), y)
  {
    hide Core, GiveRun, FreeSlab, Given;
    var z' := Release(z, x);
    LiveSlots(z, x);
    LiveSlots(z, y);
    assert y in Live(z');
    LiveSlots(z', y);
    if IsRun(z, x) {
      GivenElsewhere(z, x, y);
    } else {
      FreeSlabMoves(z, x);
      assert y.page == x.page || ConfinedAt(z, z', y.page);
    }
  }

  lemma LiveSlots(z: Zone, x: Addr)
    requires Core(z) && x in Live(z)
    ensures Usable(z, x) || IsRun(z, x)
    ensures DC < |z.lists| || IsRun(z, x)
  {
    assert SlotOk(z, x) && SlabOk(z, x.page);
  }

  lemma GivenElsewhere(z: Zone, x: Addr, y: Addr)
    requires Core(z) && IsRun(z, x) && y != x && (Usable(z, y) || IsRun(z, y))
    ensures |GiveRun(z, x.page).pages| == |z.pages| && GiveRun(z, x.page).pages[y.page] == z.pages[y.page]
  {
    assert RunOk(z, x.page);
    assert GiveRun(z, x.page).pages[y.page] == Given(z, x.page, y.page);
  }

  /** mem_free strands exactly the pages beyond the recorded length, and leaves every other
      block in use as it is. */
  lemma ReleaseFate(z: Zone, x: Addr)
    requires Core(z) && x in Live(z)
    ensures Adrift(Release(z, x)) == Adrift(z) + Tail(z, x)
    ensures Tail(z, x) == {} <==> (IsRun(z, x) ==> z.pages[x.page].len <= 127)
    ensures forall y: Addr :: y in Live(z) && y != x ==> SameBlock(z, Release(z, x), y)
  {
    hide SameBlock;
    forall y: Addr | y in Live(z) && y != x ensures SameBlock(z, Release(z, x), y) { ReleaseSame(z, x, y); }
    assert SlotOk(z, x);
    if IsRun(z, x) {
      TailPages(z, x);
      GiveRunFate(z, x);
    } else {
      assert SlabOk(z, x.page);
      FreeSlabIdle(z, x);
      IdleAllAdrift(z, FreeSlab(z, x));
    }
  }

  lemma TailPages(z: Zone, x: Addr)
    requires IsRun(z, x)
    requires Core(z)
    ensures Tail(z, x) == {} <==> z.pages[x.page].len <= 127
  {
    var len := z.pages[x.page].len;
    RunInside(z, x);
    if len > 127 { assert Beyond(z, x, x.page + Returned(len)) && x.page + Returned(len) in Tail(z, x); }
  }

  lemma GiveRunFate(z: Zone, x: Addr)
    requires Core(z) && IsRun(z, x)
    ensures Adrift(GiveRun(z, x.page)) == Adrift(z) + Tail(z, x)
  {
    hide Core;
    assert Core(z);
    RunInside(z, x);
    var z' := GiveRun(z, x.page);
    assert |z'.pages| == |z.pages|;
    forall q: nat ensures q in Adrift(z') <==> q in Adrift(z) || q in Tail(z, x) {
      if q < |z.pages| { assert z'.pages[q] == Given(z, x.page, q); assert q in Tail(z, x) <==> Beyond(z, x, q); }
    }
  }

  lemma RunInside(z: Zone, x: Addr)
    requires Core(z) && IsRun(z, x)
    ensures 0 < x.page && 0 < z.pages[x.page].len && x.page + z.pages[x.page].len <= |z.pages|
    ensures forall q :: x.page <= q < x.page + z.pages[x.page].len ==> !Idle(z.pages[q])
  {
    assert RunOk(z, x.page);
  }

  // --- Whole runs ------------------------------------------------------

  /** mem_alloc, mem_free and mem_realloc. */
  datatype Call = Get(size: nat) | Put(x: Addr) | Resize(x: Addr, size: nat)

  /** The caller frees and resizes only what it holds. */
  ghost predicate Legal(z: Zone, call: Call)
  {
    !call.Get? ==> call.x in Live(z)
  }

  ghost function Step(z: Zone, call: Call): (z': Zone)
    requires Core(z) && Legal(z, call)
    ensures Core(z') && SameFrame(z, z')
  {
    match call
    case Get(size) => Alloc(z, size).0
    case Put(x) => Release(z, x)
    case Resize(x, size) => Realloc(z, x, size).0
  }

  ghost predicate LegalRun(z: Zone, calls: seq<Call>)
    requires Core(z)
    decreases calls
  {
    calls == [] || (Legal(z, calls[0]) && LegalRun(Step(z, calls[0]), calls[1..]))
  }

  ghost function Run(z: Zone, calls: seq<Call>): (z': Zone)
    requires Core(z) && LegalRun(z, calls)
    ensures Core(z') && SameFrame(z, z')
    decreases calls
  {
    if calls == [] then z else Run(Step(z, calls[0]), calls[1..])
  }

  predicate GetLeaks(z: Zone, size: nat)
  {
    exists i :: 0 <= i < |z.pages| && Strands(z, size, i)
  }

  ghost predicate PutLeaks(z: Zone, x: Addr)
  {
    LosesBlock(z, x) || (IsRun(z, x) && z.pages[x.page].len > 127)
  }

  /** A call puts a page or a block out of reach. */
  ghost predicate Leaks(z: Zone, call: Call)
    requires Core(z)
  {
    match call
    case Get(size) => GetLeaks(z, size)
    case Put(x) => PutLeaks(z, x)
    case Resize(x, size) => GetLeaks(z, size) || (Alloc(z, size).1.Some? && PutLeaks(Alloc(z, size).0, x))
  }

  ghost predicate Leakless(z: Zone, calls: seq<Call>)
    requires Core(z) && LegalRun(z, calls)
    decreases calls
  {
    calls == [] || (!Leaks(z, calls[0]) && Leakless(Step(z, calls[0]), calls[1..]))
  }

  /** The same pages and blocks are out of reach. */
  ghost predicate SameReach(z: Zone, z': Zone)
  {
    Adrift(z') == Adrift(z) && LostBlocks(z') == LostBlocks(z)
  }

  lemma StepKeepsInv(z: Zone, call: Call)
    requires Inv(z) && Legal(z, call)
    ensures Inv(Step(z, call))
  {
    match call
    case Get(size) => AllocKeepsInv(z, size);
    case Put(x) => ReleaseKeepsInv(z, x);
    case Resize(x, size) =>
      AllocKeepsInv(z, size);
      if Alloc(z, size).1.Some? { ReleaseKeepsInv(Alloc(z, size).0, x); }
  }

  lemma {:induction false} RunKeepsInv(z: Zone, calls: seq<Call>)
    requires Inv(z) && LegalRun(z, calls)
    ensures Inv(Run(z, calls))
    decreases calls
  {
    if calls != [] {
      StepKeepsInv(z, calls[0]);
      RunKeepsInv(Step(z, calls[0]), calls[1..]);
    }
  }

  /** What is out of reach stays so, and more gets there exactly when a call leaks. */
  lemma StepReach(z: Zone, call: Call)
    requires Inv(z) && Legal(z, call)
    ensures Adrift(z) <= Adrift(Step(z, call)) && LostBlocks(z) <= LostBlocks(Step(z, call))
    ensures SameReach(z, Step(z, call)) <==> !Leaks(z, call)
  {
    hide Core, Adrift, LostBlocks, Alloc, Release, GetLeaks, PutLeaks;
    match call
    case Get(size) => GetReach(z, size);
    case Put(x) => PutReach(z, x);
    case Resize(x, size) =>
      GetReach(z, size);
      if Alloc(z, size).1.Some? { PutReach(Alloc(z, size).0, x); }
  }

  lemma GetReach(z: Zone, size: nat)
    requires Core(z)
    ensures Adrift(z) <= Adrift(Alloc(z, size).0) && LostBlocks(z) <= LostBlocks(Alloc(z, size).0)
    ensures SameReach(z, Alloc(z, size).0) <==> !GetLeaks(z, size)
  {
    hide Core, Alloc;
    AllocFate(z, size);
    if i :| 0 <= i < |z.pages| && Strands(z, size, i) { NewlyAdrift(z, size, i); }
  }

  lemma PutReach(z: Zone, x: Addr)
    requires Core(z) && x in Live(z)
    ensures Adrift(z) <= Adrift(Release(z, x)) && LostBlocks(z) <= LostBlocks(Release(z, x))
    ensures SameReach(z, Release(z, x)) <==> !PutLeaks(z, x)
  {
    hide Core, Release, LosesBlock;
    ReleaseFate(z, x);
    assert x !in LostBlocks(z);
    if IsRun(z, x) { TailFresh(z, x); }
  }

  lemma NewlyAdrift(z: Zone, size: nat, i: nat)
    requires Core(z) && Strands(z, size, i)
    ensures i !in Adrift(z) && i in (set j | 0 <= j < |z.pages| && Strands(z, size, j))
  {
  }

  lemma TailFresh(z: Zone, x: Addr)
    requires Core(z) && IsRun(z, x)
    ensures Tail(z, x) !! Adrift(z)
  {
    RunInside(z, x);
    forall q | q in Tail(z, x) ensures q !in Adrift(z) { assert Beyond(z, x, q); }
  }

  lemma {:induction false} RunReach(z: Zone, calls: seq<Call>)
    requires Inv(z) && LegalRun(z, calls)
    ensures Adrift(z) <= Adrift(Run(z, calls)) && LostBlocks(z) <= LostBlocks(Run(z, calls))
    ensures SameReach(z, Run(z, calls)) <==> Leakless(z, calls)
    decreases calls
  {
    hide Core, Step, Leaks, Legal, Adrift, LostBlocks;
    if calls != [] {
      StepKeepsInv(z, calls[0]);
      StepReach(z, calls[0]);
      RunReach(Step(z, calls[0]), calls[1..]);
    }
  }

  /** Freeing everything, in whatever order and after whatever calls, brings back the
      heap that alc_init set up, if and only if no call on the way leaked. */
  lemma FreeingAllRestores(k: nat, n: nat, calls: seq<Call>)
    requires k >= 1 && n >= 1
    requires Core(Initial(k, n)) && LegalRun(Initial(k, n), calls)
    requires Live(Run(Initial(k, n), calls)) == {}
    ensures Run(Initial(k, n), calls) == Initial(k, n) <==> Leakless(Initial(k, n), calls)
  {
    var z0 := Initial(k, n);
    InitialInv(k, n);
    var z := Run(z0, calls);
    RunKeepsInv(z0, calls);
    RunReach(z0, calls);
    assert Adrift(z0) == {} && LostBlocks(z0) == {};
    if Leakless(z0, calls) {
      forall p | 0 < p < |z.pages| ensures !z.pages[p].Held? && !z.pages[p].Stray? { assert p !in Adrift(z); }
      AllFreed(z);
    }
  }

  // --- Leaks do happen -------------------------------------------------

  lemma ClassOf64()
    ensures ClassOf(64) == 6
  {
    assert Pow2(5) == 32 && Pow2(6) == 64;
    LogUnique(63, 5);
    FloatLogIs(63);
  }

  /** In a heap of two pages, asking for 64 bytes fails and costs the only free page. */
  lemma FirstRequestLeaks()
    ensures Core(Initial(8, 2)) && Leaks(Initial(8, 2), Get(64))
    ensures Alloc(Initial(8, 2), 64).1 == None && Adrift(Alloc(Initial(8, 2), 64).0) == {1}
  {
    hide ClassOf, Core, Alloc;
    var z := Initial(8, 2);
    InitialInv(8, 2);
    ClassOf64();
    assert OnlyFree(z, 1) && Strands(z, 64, 1);
    AllocFate(z, 64);
    assert Adrift(z) == {};
    assert (set i | 0 <= i < |z.pages| && Strands(z, 64, i)) == {1};
  }
}
