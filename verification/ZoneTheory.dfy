/** What holds of every zone heap, whatever calls led to it. */
module ZoneTheory {
  import opened Sequences
  import opened ZoneModel
  import opened ZoneSizes
  import opened ZoneSpec

  ghost predicate OccupiedAt(z: Zone, p: nat)
  {
    IsSlab(z, p) ==> |z.pages[p].chain| < Count(z.k, z.pages[p].cls) - Base(z.pages[p].cls)
  }

  /** Every slab page, except possibly x, has a block in use. */
  ghost predicate OccupiedBut(z: Zone, x: nat)
  {
    forall p: nat :: p == x || OccupiedAt(z, p)
  }

  lemma AllOccupied(z: Zone)
    ensures Occupied(z) <==> forall p: nat :: OccupiedAt(z, p)
  {
    if Occupied(z) { forall p: nat ensures OccupiedAt(z, p) {} }
    if forall p: nat :: OccupiedAt(z, p) {
      forall p: nat | IsSlab(z, p) ensures |z.pages[p].chain| < Count(z.k, z.pages[p].cls) - Base(z.pages[p].cls) {
        assert OccupiedAt(z, p);
      }
    }
  }

  lemma TakeOccupied(z: Zone, c: nat)
    requires Core(z) && c < |z.lists| && z.lists[c] != [] && OccupiedBut(z, z.lists[c][0])
    ensures Occupied(TakeHead(z, c).0)
  {
    hide Elems;
    HeadOf(z, c);
    var p, z' := z.lists[c][0], TakeHead(z, c).0;
    WholeChain(z, p);
    assert SlabOk(z, p);
    FullChainOk(z.k, c);
    forall q: nat ensures OccupiedAt(z', q) { assert q == p || OccupiedAt(z, q); }
    AllOccupied(z');
  }

  lemma EnlistOccupied(z: Zone, p: nat, c: nat, chain: seq<nat>, d: Addr)
    requires Occupied(z) && p < |z.pages| && c < |z.lists|
    ensures OccupiedBut(Enlist(z, p, c, chain, d), p)
    ensures c <= z.k && |chain| < Count(z.k, c) - Base(c) ==> Occupied(Enlist(z, p, c, chain, d))
  {
    var z' := Enlist(z, p, c, chain, d);
    AllOccupied(z);
    forall q: nat ensures q == p || OccupiedAt(z', q) { assert OccupiedAt(z, q); }
    AllOccupied(z');
    if c <= z.k && |chain| < Count(z.k, c) - Base(c) {
      forall q: nat ensures OccupiedAt(z', q) { assert q == p || OccupiedAt(z', q); }
    }
  }

  lemma OpenDCOccupied(z: Zone)
    requires Core(z) && DC < |z.lists| && z.lists[DC] == [] && Occupied(z)
    ensures OpenDC(z).1 ==> OccupiedBut(OpenDC(z).0, OpenDC(z).0.lists[DC][0])
  {
    match FirstFree(z.pages, 0)
    case None =>
    case Some(i) =>
      FullChainOk(z.k, DC);
      EnlistOccupied(Hold(z, i), i, DC, FullChain(z.k, DC), Addr(i, 0));
  }

  lemma AllocDCOccupied(z: Zone)
    requires Core(z) && DC < |z.lists| && Occupied(z)
    ensures Occupied(AllocDC(z).0)
  {
    AllOccupied(z);
    if z.lists[DC] == [] {
      OpenDCOccupied(z);
      if OpenDC(z).1 { TakeOccupied(OpenDC(z).0, DC); }
    } else {
      TakeOccupied(z, DC);
    }
  }

  lemma CloseDCOccupied(z: Zone, p: nat)
    requires Core(z) && WholePage(z, p) && z.pages[p].cls == DC && OccupiedBut(z, p)
    ensures Occupied(CloseDC(z, p))
  {
    var z' := CloseDC(z, p);
    forall q: nat ensures OccupiedAt(z', q) { assert q == p || OccupiedAt(z, q); }
    AllOccupied(z');
  }

  lemma PushOccupied(z: Zone, x: Addr)
    requires Core(z) && Occupied(z) && Partly(z, x.page) && Usable(z, x) && x in z.own && z.own[x] == User
    ensures OccupiedBut(Push(z, x), x.page)
    ensures Core(Push(z, x)) && (!WholePage(Push(z, x), x.page) ==> Occupied(Push(z, x)))
  {
    AllOccupied(z);
    PushCore(z, x);
    var z' := Push(z, x);
    WholeChain(z', x.page);
    forall q: nat ensures q == x.page || OccupiedAt(z', q) { assert OccupiedAt(z, q); }
    AllOccupied(z');
    if !WholePage(z', x.page) {
      forall q: nat ensures OccupiedAt(z', q) { assert q == x.page || OccupiedAt(z', q); }
    }
  }

  lemma FreeDCOccupied(z: Zone, x: Addr)
    requires Core(z) && Usable(z, x) && z.pages[x.page].cls == DC && x in z.own && z.own[x] == User && Occupied(z)
    ensures Occupied(FreeDC(z, x))
  {
    assert SlabOk(z, x.page);
    FullChainOk(z.k, DC);
    if z.pages[x.page].chain == [] {
      BusyEnlist(z, x, Addr(x.page, 0));
      EnlistOccupied(z, x.page, DC, [x.slot], Addr(x.page, 0));
    } else {
      PushOccupied(z, x);
      if WholePage(Push(z, x), x.page) { CloseDCOccupied(Push(z, x), x.page); }
    }
  }

  lemma TakeLargeOccupied(z: Zone, c: nat)
    requires Core(z) && DC < c < |z.lists| && z.lists[c] != [] && OccupiedBut(z, z.lists[c][0])
    ensures Occupied(TakeLarge(z, c).0)
  {
    HeadOf(z, c);
    var p := z.lists[c][0];
    FreedDescriptor(z, p);
    assert SlotOk(z, z.desc[p]);
    TakeOccupied(z, c);
    if |z.pages[p].chain| < 2 { FreeDCOccupied(TakeHead(z, c).0, z.desc[p]); }
  }

  lemma OpenLargeOccupied(z: Zone, c: nat)
    requires Core(z) && DC < c < |z.lists| && z.lists[c] == [] && Occupied(z)
    ensures var (z', ok) := OpenLarge(z, c);
      if ok then OccupiedBut(z', z'.lists[c][0]) else Occupied(z')
  {
    match FirstFree(z.pages, 0)
    case None =>
    case Some(i) =>
      var z1 := Hold(z, i);
      IdleCore(z, z1, i, Held);
      HoldOccupied(z, i);
      AllocDCOccupied(z1);
      var (z2, d) := AllocDC(z1);
      if d.Some? {
        FullChainOk(z.k, c);
        EnlistOccupied(z2, i, c, FullChain(z.k, c), d.value);
      }
  }

  lemma HoldOccupied(z: Zone, i: nat)
    requires Occupied(z) && i < |z.pages| && !z.pages[i].Slab?
    ensures Occupied(Hold(z, i)) && Occupied(Drop(z, i))
  {
    AllOccupied(z);
    forall q: nat ensures OccupiedAt(Hold(z, i), q) && OccupiedAt(Drop(z, i), q) { assert OccupiedAt(z, q); }
    AllOccupied(Hold(z, i));
    AllOccupied(Drop(z, i));
  }

  lemma AllocSlabOccupied(z: Zone, c: nat)
    requires Core(z) && DC <= c < |z.lists| && Occupied(z)
    ensures Occupied(AllocSlab(z, c).0)
  {
    AllOccupied(z);
    if c == DC {
      AllocDCOccupied(z);
    } else if z.lists[c] == [] {
      OpenLargeOccupied(z, c);
      if OpenLarge(z, c).1 { TakeLargeOccupied(OpenLarge(z, c).0, c); }
    } else {
      TakeLargeOccupied(z, c);
    }
  }

  lemma CloseLargeOccupied(z: Zone, p: nat)
    requires Core(z) && WholePage(z, p) && z.pages[p].cls != DC && OccupiedBut(z, p)
    ensures Occupied(CloseLarge(z, p))
  {
    WholeChain(z, p);
    CloseCore(z, p);
    FreedDescriptor(z, p);
    assert SlotOk(z, z.desc[p]);
    var z1 := Delist(z, p, Held);
    forall q: nat ensures OccupiedAt(z1, q) { assert q == p || OccupiedAt(z, q); }
    AllOccupied(z1);
    FreeDCOccupied(z1, z.desc[p]);
    HoldOccupied(FreeDC(z1, z.desc[p]), p);
  }

  lemma FreeSlabOccupied(z: Zone, x: Addr)
    requires Core(z) && DC < |z.lists| && Usable(z, x) && x in z.own && z.own[x] == User && Occupied(z)
    ensures Occupied(FreeSlab(z, x))
  {
    assert SlabOk(z, x.page);
    FullChainOk(z.k, z.pages[x.page].cls);
    if z.pages[x.page].cls == DC {
      FreeDCOccupied(z, x);
    } else if z.pages[x.page].chain == [] {
      AllocDCOccupied(z);
      var (z1, d) := AllocDC(z);
      if d.None? {
        AllOccupied(z);
        forall q: nat ensures OccupiedAt(Lose(z, x), q) { assert OccupiedAt(z, q); }
        AllOccupied(Lose(z, x));
      } else {
        EnlistOccupied(z1, x.page, z.pages[x.page].cls, [x.slot], d.value);
      }
    } else {
      PushOccupied(z, x);
      if WholePage(Push(z, x), x.page) { CloseLargeOccupied(Push(z, x), x.page); }
    }
  }

  /** Over every call the heap stays well formed: lists, chains, descriptors, owners,
      runs, and no page is kept without a block in use. */
  lemma AllocKeepsInv(z: Zone, size: nat)
    requires Inv(z)
    ensures Inv(Alloc(z, size).0)
  {
    ClassAtLeastDC(size);
    var c := ClassOf(size);
    if c < |z.lists| {
      AllocSlabOccupied(z, c);
    } else {
      RunCovers(z.k, c);
      AllOccupied(z);
      var z' := Alloc(z, size).0;
      forall q: nat ensures OccupiedAt(z', q) { assert OccupiedAt(z, q); }
      AllOccupied(z');
    }
  }

  lemma ReleaseKeepsInv(z: Zone, x: Addr)
    requires Inv(z) && x in Live(z)
    ensures Inv(Release(z, x))
  {
    assert SlotOk(z, x);
    if IsRun(z, x) {
      var z' := Release(z, x);
      AllOccupied(z);
      forall q: nat ensures OccupiedAt(z', q) { assert OccupiedAt(z, q); }
      AllOccupied(z');
    } else {
      assert SlabOk(z, x.page);
      FreeSlabOccupied(z, x);
    }
  }

  // --- Everything freed ------------------------------------------------

  /** The heap that alc_init sets up. */
  function Initial(k: nat, n: nat): Zone
    requires k >= 1 && n >= 1
  {
    Zone(k, seq(n, p => if p == 0 then Held else Page.Free), seq(k - 1, c => []), map[], map[])
  }

  lemma InitialInv(k: nat, n: nat)
    requires k >= 1 && n >= 1
    ensures Inv(Initial(k, n)) && Live(Initial(k, n)) == {}
  {
    hide NoDup;
    ElemsNil();
  }

  /** Every slab page has a block in use. */
  lemma SlabInUse(z: Zone, p: nat)
    requires Inv(z)
    ensures IsSlab(z, p) ==> exists x: Addr :: x in z.own && x.page == p && Usable(z, x)
  {
    if IsSlab(z, p) {
      AllOccupied(z);
      assert SlabOk(z, p) && OccupiedAt(z, p);
      var lo, hi := Base(z.pages[p].cls), Count(z.k, z.pages[p].cls);
      var chain := z.pages[p].chain;
      ElemsSize(chain);
      Filled(Elems(chain), lo, hi);
      var s :| lo <= s < hi && s !in Elems(chain);
      assert SlotOk(z, Addr(p, s));
    }
  }

  /** Nothing live, lost or out of circulation: then every page but page 0 is free,
      every list empty and every descriptor given back. */
  lemma AllFreed(z: Zone)
    requires Inv(z) && Live(z) == {} && LostBlocks(z) == {}
    requires forall p :: 0 < p < |z.pages| ==> !z.pages[p].Held? && !z.pages[p].Stray?
    ensures z == Initial(z.k, |z.pages|)
  {
    hide Elems, NoDup;
    forall x | x in z.own
      ensures z.own[x].DescOf? && Delegated(z, z.own[x].p) && Usable(z, x) && z.pages[x.page].cls == DC
    {
      assert x !in Live(z) && x !in LostBlocks(z);
      assert DescBlockOk(z, x);
    }
    // So every slab page holds a descriptor and is of the descriptor's class, but
    // the page that descriptor stands for is a slab page of another class.
    forall p: nat ensures IsSlab(z, p) ==> z.pages[p].cls == DC { SlabInUse(z, p); }
    forall x: Addr ensures x !in z.own { assert DescBlockOk(z, x); }
    assert z.own == map[];
    forall p: nat ensures !IsSlab(z, p) { SlabInUse(z, p); }
    NoSlabs(z);
  }

  lemma NoSlabs(z: Zone)
    requires Core(z) && z.own == map[] && forall p: nat :: !IsSlab(z, p)
    requires forall p :: 0 < p < |z.pages| ==> !z.pages[p].Held? && !z.pages[p].Stray?
    ensures z == Initial(z.k, |z.pages|)
  {
    var z0 := Initial(z.k, |z.pages|);
    forall p: nat ensures p < |z.pages| ==> !z.pages[p].Start? { assert SlotOk(z, Addr(p, 0)); }
    forall p | 0 <= p < |z.pages| ensures z.pages[p] == z0.pages[p] {
      assert SlabOk(z, p) && RunOk(z, p) && !IsSlab(z, p);
    }
    forall c | 0 <= c < |z.lists| ensures z.lists[c] == [] {
      forall p: nat ensures p !in Elems(z.lists[c]) { assert ListOk(z, c, p); }
      EmptyElems(z.lists[c]);
    }
    forall p: nat ensures p !in z.desc { assert DescOk(z, p); }
    assert z.desc == map[];
  }

  lemma EmptyElems(s: seq<nat>)
    requires forall p: nat :: p !in Elems(s)
    ensures s == []
  {
    hide Elems;
    ElemsSome(s);
  }

  lemma ElemsSome(s: seq<nat>)
    ensures s != [] ==> s[0] in Elems(s)
  {
  }
}
