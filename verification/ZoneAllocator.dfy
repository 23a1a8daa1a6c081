/** zone-allocator/allocator.c: pages cut into blocks of one power-of-two class,
    with page descriptors that are themselves blocks of the same heap. Sizes follow
    the 32-bit layout: a descriptor takes 24 bytes and a link one word. */
module ZoneAllocator {
  import opened Options
  import opened Powers
  import opened Sequences
  import opened ZoneModel
  import opened ZoneSizes
  import opened ZoneSpec
  import opened ZoneRep
  import opened ZoneTheory
  import opened ZoneRuns
  import opened ZoneLayout

  /** The user's bytes in blocks us are the same in both memories. */
  ghost predicate Kept(data: map<Addr, seq<int>>, data': map<Addr, seq<int>>, us: set<Addr>)
  {
    forall x :: x in us && x in data ==> x in data' && data'[x] == data[x]
  }

  lemma InitialFrame(k: nat, n: nat)
    requires k >= 1 && n >= 1
    ensures Initial(k, n).k == k && |Initial(k, n).pages| == n && |Initial(k, n).lists| == k - 1
  {
  }

  lemma EnlistFrame(z: Zone, p: nat, c: nat, chain: seq<nat>, d: Addr)
    requires p < |z.pages| && c < |z.lists|
    ensures Enlist(z, p, c, chain, d).k == z.k
  {
  }

  lemma InitialRep(s: State, k: nat, n: nat)
    requires k >= 1 && n >= 1
    requires |s.descriptors| == |s.pageClasses| == n && |s.classes| == k - 1
    requires s.descriptors[0] == StateBusy && forall q :: 1 <= q < n ==> s.descriptors[q] == StateFree
    requires forall c :: 1 <= c < k - 1 ==> s.classes[c] == None
    ensures Rep(s, Initial(k, n), {}, {})
  {
  }

  /** What a user writes touches no descriptor and no free block. */
  lemma LiveFootprint(cells: map<Addr, Cell>, cells': map<Addr, Cell>, z: Zone, x: Addr)
    requires Core(z) && x in Live(z) && forall a: Addr :: a != x ==> Peek(cells', a) == Peek(cells, a)
    ensures SameFootprint(cells, cells', z)
  {
    hide Elems;
    forall p | p in z.desc ensures Peek(cells', z.desc[p]) == Peek(cells, z.desc[p]) { NotLive(z, p); }
    forall a | InChain(z, a) ensures Peek(cells', a) == Peek(cells, a) { assert SlotOk(z, a) && SlabOk(z, a.page); }
  }

  lemma SuppliesBlock(z: Zone, x: Addr, size: nat)
    requires Core(z) && x in Live(z)
    ensures var (z1, y) := Alloc(z, size);
      && Placed(z, x) && (z.pages[x.page].Slab? || z.pages[x.page].Start?)
      && x in Live(z1) && SameBlock(z, z1, x) && Core(z1)
      && (y.Some? ==> y.value != x && y.value !in Live(z) && y.value in Live(z1) && Live(z) <= Live(z1))
  {
    hide Alloc;
    UsedIsPlaced(z, x);
    AllocFate(z, size);
  }

  lemma KeptAround(d0: map<Addr, seq<int>>, d1: map<Addr, seq<int>>, d2: map<Addr, seq<int>>, d3: map<Addr, seq<int>>,
    z0: Zone, z1: Zone, x: Addr, y: Addr)
    requires Kept(d0, d1, Live(z0)) && Kept(d2, d3, Live(z1) - {x})
    requires forall a :: a in d1 && a != y ==> a in d2 && d2[a] == d1[a]
    requires Live(z0) <= Live(z1) && y !in Live(z0) && y in Live(z1) && x != y
    requires x in Live(z0)
    ensures Kept(d0, d3, Live(z0) - {x})
    ensures x in d0 ==> x in d1 && d1[x] == d0[x]
    ensures y in d2 ==> y in d3 && d3[y] == d2[y]
  {
    hide Live;
  }

  lemma LiveIs(z: Zone, x: Addr)
    requires Core(z) && x in Live(z)
    ensures x.page < |z.pages| && (Partly(z, x.page) ==> x.page in z.desc)
    ensures if IsRun(z, x) then Release(z, x) == GiveRun(z, x.page)
            else Usable(z, x) && DC < |z.lists| && Release(z, x) == FreeSlab(z, x)
  {
    assert SlotOk(z, x) && DescOk(z, x.page);
    if !IsRun(z, x) { SlabAt(z, x.page); }
  }

  lemma RunFits(z: Zone, p: nat)
    requires Core(z) && p < |z.pages| && z.pages[p].Start?
    ensures p + z.pages[p].len <= |z.pages|
  {
    assert RunOk(z, p);
  }

  lemma RunSize(z: Zone, c: nat)
    requires Core(z) && c >= |z.lists|
    ensures RunLength(z.k, c) >= 1
  {
    RunCovers(z.k, c);
  }

  lemma LeftmostIs(pages: seq<Page>, from: nat, num: nat, p: nat)
    requires from <= p && FreeRun(pages, p, num) && forall q: nat :: q < p ==> !FreeRun(pages, q, num)
    ensures LeftmostRun(pages, from, num) == Some(p)
  {
  }

  lemma NoRun(pages: seq<Page>, from: nat, num: nat)
    requires forall q: nat :: q + num <= |pages| ==> !FreeRun(pages, q, num)
    ensures LeftmostRun(pages, from, num) == None
  {
  }

  /** Opening a page hands out nothing. */
  lemma OpenedLive(z: Zone, c: nat)
    requires Core(z) && DC <= c < |z.lists|
    ensures z.lists[c] == [] ==> Live(z) <= Live(if c == DC then OpenDC(z).0 else OpenLarge(z, c).0)
  {
  }

  /** The page list that mem_alloc takes a block of class c from. */
  ghost function Opened(z: Zone, c: nat): (Zone, bool)
    requires Core(z) && DC <= c < |z.lists|
  {
    if z.lists[c] != [] then (z, true) else if c == DC then OpenDC(z) else OpenLarge(z, c)
  }

  lemma AllocSlabIs(z: Zone, c: nat)
    requires Core(z) && DC <= c < |z.lists|
    ensures var (z1, ok) := Opened(z, c);
      && Core(z1) && |z1.lists| == |z.lists|
      && if !ok then AllocSlab(z, c) == (z1, None)
         else
           z1.lists[c] != [] &&
           var t := if c == DC then TakeHead(z1, DC) else TakeLarge(z1, c);
           AllocSlab(z, c) == (t.0, Some(t.1))
  {
  }

  lemma KeptTwoPokes(d0: map<Addr, seq<int>>, d1: map<Addr, seq<int>>, us: set<Addr>, a: Addr, b: Addr)
    requires a !in us && b !in us && forall x :: x in d0 && x != a && x != b ==> x in d1 && d1[x] == d0[x]
    ensures Kept(d0, d1, us)
  {
  }

  lemma PushFacts(z: Zone, x: Addr)
    requires Core(z) && x in Live(z) && Usable(z, x) && Partly(z, x.page)
    ensures x in z.own && z.own[x] == User && x.page in z.desc && z.desc[x.page] != x && z.desc[x.page] !in Live(z)
    ensures DC < |z.lists| && z.pages[x.page].cls <= z.k
    ensures var z1, c := Push(z, x), z.pages[x.page].cls;
      && Core(z1) && z1.k == z.k && |z1.lists| == |z.lists| && |z1.pages| == |z.pages|
      && Partly(z1, x.page) && z1.pages[x.page] == Slab(c, [x.slot] + z.pages[x.page].chain)
      && InChain(z1, x) && Live(z1) == Live(z) - {x}
      && (z.desc[x.page].page == x.page <==> c == DC)
      && (WholePage(z1, x.page) <==> |z.pages[x.page].chain| + 1 >= Count(z.k, c) - Base(c))
      && FreeSlab(z, x) ==
           if !WholePage(z1, x.page) then z1
           else if c == DC then CloseDC(z1, x.page) else CloseLarge(z1, x.page)
  {
    hide Elems, NoDup;
    SlabAt(z, x.page);
    PushCore(z, x);
    assert DescOk(z, x.page);
    NotLive(z, x.page);
    WholeChain(Push(z, x), x.page);
    ElemsCons(x.slot, z.pages[x.page].chain);
    if z.pages[x.page].cls != DC { FreedDescriptor(z, x.page); }
  }

  lemma UnlinkedHead(s: State, s': State, z: Zone, c: nat, d: Addr)
    requires Core(z) && c < |z.lists| && z.lists[c] != [] && DescAt(z, c, 0) == Some(d)
    requires s' == s.(cells := s'.cells)
    requires forall a: Addr :: a != d && DescAt(z, c, 1) != Some(a) ==> Peek(s'.cells, a) == Peek(s.cells, a)
    requires DescAt(z, c, 1).Some? ==>
      var n := DescAt(z, c, 1).value; Peek(s'.cells, n) == Peek(s.cells, n).(prev := None)
    ensures Unlinked(s, s', z, c, 0, d)
  {
  }

  lemma PopLastFacts(z: Zone, c: nat, p: nat)
    requires Core(z) && DC <= c < |z.lists| && z.lists[c] != []
    requires p == z.lists[c][0] && Partly(z, p) && |z.pages[p].chain| == 1
    ensures z.pages[p].cls == c && p in z.desc && Core(PopLast(z, p))
    ensures var z1, d := PopLast(z, p), z.desc[p];
      && |z1.lists| == |z.lists| && |z1.pages| == |z.pages| && z1.k == z.k && z1.pages[p] == Slab(c, [])
      && z1 == Delist(z, p, Slab(c, [])).(own := z1.own)
      && DescAt(z1, c, 0) == DescAt(z, c, 1)
      && Live(z) <= Live(z1) && (c != DC ==> Live(z) <= Live(z1) - {d})
      && (c == DC ==> z1 == TakeHead(z, c).0 && d.page == p)
      && (c != DC ==> d.page != p && Usable(z1, d) && z1.pages[d.page].cls == DC && d in z1.own && z1.own[d] == User
                      && TakeLarge(z, c).0 == FreeDC(z1, d))
  {
    hide Elems, NoDup, InChain;
    HeadOf(z, c);
    NotLive(z, p);
    PopLastCore(z, p);
    DescAtWithout(z, PopLast(z, p), c, 0, 0);
    if c != DC {
      FreedDescriptor(z, p);
    } else {
      assert DescOk(z, p);
    }
  }

  lemma CloseFacts(z: Zone, p: nat)
    requires Core(z) && WholePage(z, p)
    ensures z.pages[p].cls < |z.lists| && p in z.desc
    ensures var z1, d := Delist(z, p, Held), z.desc[p];
      && Core(z1) && |z1.pages| == |z.pages| && z1.pages[p] == Held && z1.k == z.k && |z1.lists| == |z.lists|
      && Live(z) <= Live(z1)
      && (z.pages[p].cls == DC ==> d.page == p && CloseDC(z, p) == Drop(z1, p))
      && (z.pages[p].cls != DC ==>
            && Live(z) <= Live(z1) - {d} && d.page != p
            && Usable(z1, d) && z1.pages[d.page].cls == DC && d in z1.own && z1.own[d] == User
            && CloseLarge(z, p) == (var z2 := FreeDC(z1, d); Drop(z2, p)))
  {
    hide Elems, NoDup, InChain;
    WholeChain(z, p);
    CloseCore(z, p);
    NotLive(z, p);
    assert DescOk(z, p);
    if z.pages[p].cls != DC {
      FreedDescriptor(z, p);
      assert SlotOk(z, z.desc[p]);
    }
  }

  lemma CloseResult(z: Zone, p: nat)
    requires Core(z) && WholePage(z, p)
    ensures Core(if z.pages[p].cls == DC then CloseDC(z, p) else CloseLarge(z, p))
  {
  }

  lemma TouchedHeld(z: Zone, z': Zone, p: nat)
    requires TouchesOnlyDC(z, z') && p < |z.pages| && z.pages[p] == Held
    ensures |z'.pages| == |z.pages| && z'.pages[p] == Held && z'.k == z.k
  {
  }

  lemma BusyOwner(z: Zone, x: Addr)
    requires Core(z) && x in Live(z) && Usable(z, x) && z.pages[x.page].chain == []
    ensures x in z.own && z.own[x] == User && DC < |z.lists| && z.pages[x.page].cls < |z.lists| && IsSlab(z, x.page)
    ensures ClassOf(DESCRIPTOR) == DC && Alloc(z, DESCRIPTOR) == AllocDC(z)
  {
    hide Elems, NoDup, AllocDC;
    SlabAt(z, x.page);
    ClassAtLeastDC(DESCRIPTOR);
  }

  lemma BusyLocal(z: Zone, x: Addr)
    requires Core(z) && x in Live(z) && Usable(z, x) && z.pages[x.page].chain == []
    requires DC < |z.lists| && x in z.own && z.own[x] == User && z.pages[x.page].cls == DC
    ensures Addr(x.page, 0) !in Live(z) && Live(z) <= Live(z) - {Addr(x.page, 0)}
    ensures FreeSlab(z, x) == Enlist(z, x.page, DC, [x.slot], Addr(x.page, 0))
  {
    hide Elems, NoDup, Enlist;
    BlocksOne(x.page, x.slot);
    assert SlotOk(z, Addr(x.page, 0));
  }

  lemma BusyDelegated(z: Zone, x: Addr)
    requires Core(z) && x in Live(z) && Usable(z, x) && z.pages[x.page].chain == []
    requires DC < |z.lists| && z.pages[x.page].cls < |z.lists| && x in z.own && z.own[x] == User
    requires z.pages[x.page].cls != DC
    ensures var (z1, d) := AllocDC(z);
      if d.None? then FreeSlab(z, x) == Lose(z, x)
      else
        && x.page < |z1.pages| && z.pages[x.page].cls < |z1.lists| && z1.k == z.k
        && FreeSlab(z, x) == Enlist(z1, x.page, z.pages[x.page].cls, [x.slot], d.value)
        && Usable(z1, x) && z1.pages[x.page] == z.pages[x.page] && x in z1.own && z1.own[x] == User
        && d.value in z1.own && z1.own[d.value] == User && Usable(z1, d.value) && z1.pages[d.value.page].cls == DC
        && d.value !in Live(z) && Live(z1) == Live(z) + {d.value}
  {
    hide Core, Elems, NoDup, Enlist, AllocDC;
  }

  lemma BusyFacts(z: Zone, x: Addr)
    requires Core(z) && x in Live(z) && Usable(z, x) && z.pages[x.page].chain == []
    ensures x in z.own && z.own[x] == User && DC < |z.lists| && z.pages[x.page].cls < |z.lists| && IsSlab(z, x.page)
    ensures z.pages[x.page].cls == DC ==> Addr(x.page, 0) !in Live(z)
    ensures ClassOf(DESCRIPTOR) == DC && Alloc(z, DESCRIPTOR) == AllocDC(z)
    ensures z.pages[x.page].cls == DC ==> FreeSlab(z, x) == Enlist(z, x.page, DC, [x.slot], Addr(x.page, 0))
    ensures z.pages[x.page].cls != DC ==>
      var (z1, d) := AllocDC(z);
      if d.None? then FreeSlab(z, x) == Lose(z, x)
      else
        && x.page < |z1.pages| && z.pages[x.page].cls < |z1.lists| && z1.k == z.k
        && FreeSlab(z, x) == Enlist(z1, x.page, z.pages[x.page].cls, [x.slot], d.value)
        && Usable(z1, x) && z1.pages[x.page] == z.pages[x.page] && x in z1.own && z1.own[x] == User
        && d.value in z1.own && z1.own[d.value] == User && Usable(z1, d.value) && z1.pages[d.value.page].cls == DC
        && d.value !in Live(z) && Live(z1) == Live(z) + {d.value}
    ensures z.pages[x.page].cls == DC ==> Live(z) <= Live(z) - {Addr(x.page, 0)}
  {
    hide Core, Enlist, AllocDC, Alloc, FreeSlab, Live, Usable;
    BusyOwner(z, x);
    if z.pages[x.page].cls == DC { BusyLocal(z, x); } else { BusyDelegated(z, x); }
  }

  lemma OffFootprintBusy(cells: map<Addr, Cell>, cells': map<Addr, Cell>, z: Zone, x: Addr, d: Addr)
    requires Core(z) && Usable(z, x) && z.pages[x.page].chain == [] && x in z.own && z.own[x] == User
    requires if z.pages[x.page].cls == DC then d == Addr(x.page, 0) else d in z.own && z.own[d] == User
    requires forall a: Addr :: a != x && a != d ==> Peek(cells', a) == Peek(cells, a)
    ensures SameFootprint(cells, cells', z)
  {
    hide Elems;
    ElemsNil();
    assert SlotOk(z, x) && SlabOk(z, x.page);
    if d in z.own { assert SlotOk(z, d); }
    forall p | p in z.desc ensures Peek(cells', z.desc[p]) == Peek(cells, z.desc[p]) {
      assert DescOk(z, p) && SlotOk(z, z.desc[p]);
    }
    forall a | InChain(z, a) ensures Peek(cells', a) == Peek(cells, a) {
      assert SlabOk(z, a.page) && SlotOk(z, a);
    }
  }

  lemma BusyPrepared(cells: map<Addr, Cell>, x: Addr, c: nat, d: Addr)
    requires Peek(cells, d) == Cell(Num(1), x.page, c, Some(x), None, None) && Peek(cells, x).w0 == Link(None)
    ensures Prepared(cells, x.page, c, [x.slot], d)
  {
    assert Addr(x.page, x.slot) == x;
  }

  lemma ReleaseDC(z: Zone, x: Addr)
    requires Core(z) && Usable(z, x) && z.pages[x.page].cls == DC && x in z.own && z.own[x] == User
    ensures x in Live(z) && IsSlab(z, x.page) && Release(z, x) == FreeDC(z, x)
  {
  }

  lemma TouchedPage(z: Zone, z': Zone, p: nat)
    requires TouchesOnlyDC(z, z') && p < |z.pages| && z.pages[p].Slab? && z.pages[p].cls != DC
    ensures |z'.pages| == |z.pages| && z'.pages[p] == z.pages[p] && z'.k == z.k
  {
  }

  lemma KeptPoke(d0: map<Addr, seq<int>>, d1: map<Addr, seq<int>>, us: set<Addr>, a: Addr)
    requires a !in us && (d1 == d0 - {a} || d1 == d0 - {a} - {a})
    ensures Kept(d0, d1, us)
  {
  }

  lemma KeptPokeAt(d0: map<Addr, seq<int>>, d1: map<Addr, seq<int>>, us: set<Addr>, a: Option<Addr>)
    requires d1 == if a.Some? then d0 - {a.value} else d0
    requires a.Some? ==> a.value !in us
    ensures Kept(d0, d1, us)
  {
  }

  lemma LinkAt(s: State, z: Zone, xs: set<nat>, xc: set<nat>, p: nat)
    requires Core(z) && Rep(s, z, xs, xc) && Partly(z, p)
    ensures Peek(s.cells, Addr(p, z.pages[p].chain[0])).w0 == Link(ChainAt(p, z.pages[p].chain, 1))
  {
    assert LinkRep(s, z, p, 0);
  }

  lemma TakeIsPop(z: Zone, c: nat)
    requires Core(z) && c < |z.lists| && z.lists[c] != [] && DC <= c
    requires Partly(z, z.lists[c][0]) && |z.pages[z.lists[c][0]].chain| >= 2
    ensures var p := z.lists[c][0];
      (Pop(z, p), Addr(p, z.pages[p].chain[0])) == if c == DC then TakeHead(z, DC) else TakeLarge(z, c)
  {
    SlabAt(z, z.lists[c][0]);
  }

  lemma TakeGives(z: Zone, c: nat)
    requires Core(z) && c < |z.lists| && z.lists[c] != [] && DC <= c
    ensures Partly(z, z.lists[c][0])
    ensures (if c == DC then TakeHead(z, DC).1 else TakeLarge(z, c).1) ==
      Addr(z.lists[c][0], z.pages[z.lists[c][0]].chain[0])
  {
    HeadOf(z, c);
  }

  lemma KeptTrans(d0: map<Addr, seq<int>>, d1: map<Addr, seq<int>>, d2: map<Addr, seq<int>>, us: set<Addr>,
                  us1: set<Addr>, us2: set<Addr>)
    requires (d1 == d0 || Kept(d0, d1, us1)) && (d2 == d1 || Kept(d1, d2, us2)) && us <= us1 && us <= us2
    ensures Kept(d0, d2, us)
  {
  }

  /** Among powers of two only the descriptor's class passes the size test. */
  lemma LocalExactlyDC(c: nat)
    ensures DESCRIPTOR < Pow2(c) < 2 * DESCRIPTOR <==> c == DC
  {
    assert Pow2(4) == 16 && Pow2(5) == 32 && Pow2(6) == 64;
    if c < DC { Monotone(c, 4); }
    if c > DC { Monotone(6, c); }
  }

  lemma BlocksPerPage(k: nat, c: nat)
    requires c <= k
    ensures Pow2(k) / Pow2(c) == Count(k, c)
  {
    hide Pow2;
    Sum(k - c, c);
    Divides(Pow2(k - c), Pow2(c));
  }

  lemma Divides(m: nat, unit: nat)
    requires unit > 0
    ensures (m * unit) / unit == m
  {
    assert (m + 1) * unit == m * unit + unit;
    DivBounds(m * unit, unit, m, m + 1);
  }

  lemma HoldFacts(z: Zone, i: nat, c: nat)
    requires Core(z) && FirstFree(z.pages, 0) == Some(i) && DC <= c < |z.lists| && z.lists[c] == []
    ensures 0 < i && Core(Hold(z, i)) && Live(Hold(z, i)) == Live(z)
  {
    IdleCore(z, Hold(z, i), i, Held);
  }

  /** The nested allocation of a descriptor leaves the held page alone. */
  lemma AllocDCFacts(z: Zone, i: nat, c: nat)
    requires Core(z) && i < |z.pages| && z.pages[i] == Held && DC < c < |z.lists|
    ensures ClassOf(DESCRIPTOR) == DC && Alloc(z, DESCRIPTOR) == AllocDC(z)
    ensures var (z', d) := AllocDC(z);
      d.Some? ==>
        && z'.k == z.k && |z'.lists| == |z.lists| && i < |z'.pages| && z'.pages[i] == Held && z'.lists[c] == z.lists[c]
        && d.value !in Live(z) && d.value in z'.own && z'.own[d.value] == User
        && Usable(z', d.value) && z'.pages[d.value.page].cls == DC
        && Live(z') == Live(z) + {d.value}
  {
    ClassAtLeastDC(DESCRIPTOR);
  }

  lemma EnlistHead(z: Zone, i: nat, c: nat, chain: seq<nat>, d: Addr)
    requires i < |z.pages| && c < |z.lists| && z.lists[c] == []
    ensures var z' := Enlist(z, i, c, chain, d);
      |z'.lists| == |z.lists| && z'.lists[c] != [] && DescAt(z', c, 0) == Some(d)
  {
  }

  lemma OpenDCIs(z: Zone, i: nat)
    requires Core(z) && FirstFree(z.pages, 0) == Some(i) && DC < |z.lists| && z.lists[DC] == []
    ensures Base(DC) <= Count(z.k, DC) && DC <= z.k
    ensures OpenDC(z) == (Enlist(Hold(z, i), i, DC, FullChain(z.k, DC), Addr(i, 0)), true)
  {
    ClassFits(z, DC);
  }

  lemma OpenLargeIs(z: Zone, i: nat, c: nat)
    requires Core(z) && FirstFree(z.pages, 0) == Some(i) && DC < c < |z.lists| && z.lists[c] == []
    ensures Core(Hold(z, i)) && c <= z.k && Base(c) <= Count(z.k, c)
    ensures var (z2, d) := AllocDC(Hold(z, i));
      i < |z2.pages| && c < |z2.lists| &&
      OpenLarge(z, c) == if d.None? then (z2, false) else (Enlist(z2, i, c, FullChain(z.k, c), d.value), true)
  {
    HoldFacts(z, i, c);
    ClassFits(z, c);
  }

  lemma ClassFits(z: Zone, c: nat)
    requires Core(z) && c < |z.lists|
    ensures c + 2 <= z.k && 0 < |z.pages| && z.pages[0] == Held && Base(c) <= Count(z.k, c)
  {
    FullChainOk(z.k, c);
  }

  lemma FirstFreeIs(pages: seq<Page>, i: nat, from: nat)
    requires from <= i < |pages| && pages[i].Free? && forall q :: 0 <= q < i ==> !pages[q].Free?
    ensures FirstFree(pages, from) == Some(i)
  {
  }

  lemma NoFirstFree(pages: seq<Page>, from: nat)
    requires from <= |pages| && forall q :: 0 <= q < |pages| ==> !pages[q].Free?
    ensures FirstFree(pages, from) == None
  {
  }

  lemma HeldOwnsNothing(z: Zone, i: nat)
    requires Core(z) && i < |z.pages| && z.pages[i] == Held
    ensures forall x :: x in z.own ==> x.page != i
    ensures forall x :: x in Live(z) ==> x.page != i
  {
    forall x | x in z.own ensures x.page != i { assert SlotOk(z, x); }
  }

  lemma OffFootprint(cells: map<Addr, Cell>, cells': map<Addr, Cell>, z: Zone, i: nat, c: nat, d: Addr)
    requires Core(z) && i < |z.pages| && z.pages[i] == Held
    requires if c == DC then d == Addr(i, 0) else d in z.own && z.own[d] == User
    requires forall a: Addr :: a.page != i && a != d ==> Peek(cells', a) == Peek(cells, a)
    ensures SameFootprint(cells, cells', z)
  {
    if d in z.own { assert SlotOk(z, d); }
    forall p | p in z.desc ensures Peek(cells', z.desc[p]) == Peek(cells, z.desc[p]) {
      assert DescOk(z, p) && SlotOk(z, z.desc[p]) && DescBlockOk(z, z.desc[p]);
    }
    forall x | InChain(z, x) ensures Peek(cells', x) == Peek(cells, x) {
      assert SlabOk(z, x.page) && SlotOk(z, x);
    }
  }

  lemma FreshPrepared(cells: map<Addr, Cell>, i: nat, c: nat, chain: seq<nat>, d: Addr)
    requires chain != [] && forall j :: 0 <= j < |chain| ==> chain[j] == j + Base(c)
    requires Peek(cells, d) == Cell(Num(|chain|), i, c, Some(Addr(i, Base(c))), None, None)
    requires forall j :: Base(c) <= j < Base(c) + |chain| ==>
      Peek(cells, Addr(i, j)).w0 == Link(if j + 1 < Base(c) + |chain| then Some(Addr(i, j + 1)) else None)
    ensures Prepared(cells, i, c, chain, d)
  {
    forall j: nat | j < |chain| ensures Peek(cells, Addr(i, chain[j])).w0 == Link(ChainAt(i, chain, j + 1)) {
      assert chain[j] == Base(c) + j;
      if j + 1 < |chain| { assert chain[j + 1] == Base(c) + (j + 1) == chain[j] + 1; }
      assert Peek(cells, Addr(i, chain[j])).w0 ==
        Link(if chain[j] + 1 < Base(c) + |chain| then Some(Addr(i, chain[j] + 1)) else None);
    }
  }

  lemma ChainUntouched(s: State, s': State, z: Zone, c: nat, j: nat, p: nat, a: Addr)
    requires Core(z) && c < |z.lists| && j < |z.lists[c]| && p in z.desc && Unlinked(s, s', z, c, j, z.desc[p])
    requires InChain(z, a)
    ensures Peek(s'.cells, a) == Peek(s.cells, a)
  {
    UnlinkedElsewhere(s, s', z, c, j, p, a.page, a.slot);
  }

  lemma SlabAt(z: Zone, p: nat)
    requires Core(z) && IsSlab(z, p)
    ensures DC <= z.pages[p].cls < |z.lists| && 0 < p && z.pages[p].cls + 2 <= z.k
  {
    assert SlabOk(z, p);
  }

  /** Neighbouring descriptors are distinct from it, from each other, and no user blocks. */
  lemma NeighboursNotLive(z: Zone, c: nat, j: nat)
    requires Core(z) && c < |z.lists| && j < |z.lists[c]|
    ensures DescAt(z, c, j + 1).Some? ==>
      DescAt(z, c, j + 1).value !in Live(z) && DescAt(z, c, j + 1) != DescAt(z, c, j)
    ensures DescAt(z, c, j - 1).Some? ==>
      DescAt(z, c, j - 1).value !in Live(z) && DescAt(z, c, j - 1) != DescAt(z, c, j)
    ensures DescAt(z, c, j + 1).Some? ==> DescAt(z, c, j + 1) != DescAt(z, c, j - 1)
  {
    hide Core, Elems;
    if j + 1 < |z.lists[c]| {
      Listed(z, c, j + 1);
      NotLive(z, z.lists[c][j + 1]);
      NeighbourIs(z, c, j, c, j + 1);
    }
    if j > 0 {
      Listed(z, c, j - 1);
      NotLive(z, z.lists[c][j - 1]);
      NeighbourIs(z, c, j, c, j - 1);
      if j + 1 < |z.lists[c]| { NeighbourIs(z, c, j + 1, c, j - 1); }
    }
  }

  /** Descriptors are not user blocks. */
  lemma NotLive(z: Zone, p: nat)
    requires Core(z) && p in z.desc
    ensures z.desc[p] !in Live(z)
  {
    assert DescOk(z, p) && SlotOk(z, z.desc[p]);
  }

  class Heap {
    const k: nat
    const descriptors: array<PageState>
    const classes: array<Option<Addr>>
    const pageClasses: array<int>
    var cells: map<Addr, Cell>
    var data: map<Addr, seq<int>>
    ghost var z: Zone

    ghost function S(): State
      reads this, descriptors, classes, pageClasses
    {
      State(descriptors[..], classes[..], pageClasses[..], cells)
    }

    ghost predicate Ready(xs: set<nat>, xc: set<nat>)
      reads this, descriptors, classes, pageClasses
    {
      z.k == k && Core(z) && Rep(S(), z, xs, xc)
    }

    /** alc_init, for pages of 2^k bytes. */
    constructor (amount: nat, k0: nat)
      requires k0 >= 1 && amount >= Pow2(k0)
      ensures Ready({}, {}) && z == Initial(k0, amount / Pow2(k0))
      ensures fresh(descriptors) && fresh(classes) && fresh(pageClasses)
    {
      hide Core, Rep, Pow2, Initial;
      var n := amount / Pow2(k0);
      var ds := new PageState[n];
      var cs := new Option<Addr>[k0 - 1];
      var pcs := new int[n];
      this.k, descriptors, classes, pageClasses := k0, ds, cs, pcs;
      cells, data := map[], map[];
      z := Initial(k0, n);
      new;
      descriptors[0] := StateBusy;
      for i := 1 to n
        invariant z == Initial(k0, n)
        invariant descriptors[0] == StateBusy && forall q :: 1 <= q < i ==> descriptors[q] == StateFree
      {
        descriptors[i] := StateFree;
      }
      var c := 1;
      while c < k0 - 1
        invariant z == Initial(k0, n)
        invariant descriptors[0] == StateBusy && forall q :: 1 <= q < n ==> descriptors[q] == StateFree
        invariant 1 <= c && forall e :: 1 <= e < c && e < k0 - 1 ==> classes[e] == None
      {
        classes[c] := None;
        c := c + 1;
      }
      for i := 1 to n
        invariant z == Initial(k0, n)
        invariant descriptors[0] == StateBusy && forall q :: 1 <= q < n ==> descriptors[q] == StateFree
        invariant forall e :: 1 <= e < k0 - 1 ==> classes[e] == None
      {
        pageClasses[i] := 0;
      }
      InitialFrame(k0, n);
      InitialInv(k0, n);
      InitialRep(S(), k0, n);
    }

    /** The caller writes into a block it holds, which has a place. The same bytes read as the fields of a
        descriptor could be anything. */
    method Store(x: Addr, bytes: seq<int>, garbled: Cell)
      requires Ready({}, {}) && x in Live(z) && Placed(z, x) && |bytes| <= Capacity(z, x)
      modifies this`cells, this`data
      ensures Ready({}, {}) && data == old(data)[x := bytes]
    {
      hide Core, Rep, Live;
      ghost var s := S();
      cells := cells[x := garbled];
      data := data[x := bytes];
      LiveFootprint(s.cells, cells, z, x);
      FootprintRep(s, z, {}, {}, cells);
    }

    /** mem_realloc. */
    method MemRealloc(x: Addr, size: nat) returns (r: Option<Addr>)
      requires Ready({}, {}) && x in Live(z) && ClassOf(size) < 32
      modifies this`cells, this`data, this`z, descriptors, classes, pageClasses
      ensures Ready({}, {})
      ensures (z, r) == Realloc(old(z), x, size)
      ensures Kept(old(data), data, Live(old(z)) - {x})
      ensures r.Some? && x in old(data) ==>
        Placed(old(z), x) && r.value in data
        && data[r.value] == old(data)[x][..MinNat(Copied(old(z), x, size), |old(data)[x]|)]
    {
      hide Core, Rep, Live, Alloc, Release, Pow2, Placed, Elems, Kept, Log2, FloatLog, SameBlocks;
      ghost var z0, d0 := z, data;
      SuppliesBlock(z0, x, size);
      var dst := MemAlloc(size);
      if dst.None? {
        KeptTrans(d0, data, data, Live(z0) - {x}, Live(z0), Live(z0));
        return None;
      }
      PageAt(S(), z, {}, {}, x.page);
      var n: nat;
      if descriptors[x.page] == StateMultipage {
        n := if pageClasses[x.page] < 0 then size else MinNat(pageClasses[x.page] * Pow2(k), size);
      } else {
        n := MinNat(Pow2(pageClasses[x.page]), size);
      }
      assert n == Copied(z0, x, size);
      ghost var s1, d1 := S(), data;
      cells := cells[dst.value := Peek(cells, x)];
      data := if x in data then data[dst.value := data[x][..MinNat(n, |data[x]|)]] else data - {dst.value};
      LiveFootprint(s1.cells, cells, z, dst.value);
      FootprintRep(s1, z, {}, {}, cells);
      ghost var d2, z1 := data, z;
      MemFree(x, {}, {});
      KeptAround(d0, d1, d2, data, z0, z1, x, dst.value);
      r := dst;
    }

    /** The allocator writes into a block; bytes a user kept there are gone. */
    method Poke(a: Addr, c: Cell)
      modifies this`cells, this`data
      ensures cells == old(cells)[a := c]
      ensures data == old(data) - {a}
    {
      cells := cells[a := c];
      data := data - {a};
    }

    method AppendPageToClass(c: nat, d: Addr, ghost xs: set<nat>, ghost xc: set<nat>)
      requires Ready(xs, xc) && DC <= c < |z.lists| && c !in xc
      requires forall q :: q in z.desc ==> z.desc[q] != d
      requires Peek(cells, d).index < pageClasses.Length
      modifies this`cells, this`data, classes, pageClasses
      ensures cells == Appended(old(cells), DescAt(z, c, |z.lists[c]| - 1), d)
      ensures classes[..] == if z.lists[c] == [] then old(classes[..])[c := Some(d)] else old(classes[..])
      ensures pageClasses[..] == old(pageClasses[..])[Peek(old(cells), d).index := c]
      ensures Kept(old(data), data, Live(z) - {d})
    {
      hide Core, Rep;
      ghost var s := S();
      HeadAt(s, z, xs, xc, c);
      if classes[c] == None {
        classes[c] := Some(d);
      } else {
        var last := classes[c].value;
        ghost var j := 0;
        NodeAt(s, z, xs, xc, c, 0);
        while Peek(cells, last).next.Some?
          invariant S() == s && data == old(data)
          invariant j < |z.lists[c]| && z.lists[c][j] in z.desc && last == z.desc[z.lists[c][j]]
          invariant Peek(cells, last).next == DescAt(z, c, j + 1)
          decreases |z.lists[c]| - j
        {
          last := Peek(cells, last).next.value;
          j := j + 1;
          NodeAt(s, z, xs, xc, c, j);
        }
        if j + 1 < |z.lists[c]| { NodeAt(s, z, xs, xc, c, j + 1); }
        NodeAt(s, z, xs, xc, c, j);
        NotLive(z, z.lists[c][j]);
        Poke(last, Peek(cells, last).(next := Some(d)));
        Poke(d, Peek(cells, d).(prev := Some(last)));
      }
      pageClasses[Peek(cells, d).index] := c;
    }

    /** remove_from_class, for a page whose blocks are all free. */
    method RemoveFromClass(p: nat, ghost xs: set<nat>, ghost xc: set<nat>)
      requires Ready(xs, xc) && WholePage(z, p) && p !in xs && z.pages[p].cls !in xc
      modifies this`cells, this`data, this`z, classes
      ensures Ready(xs + {p}, xc)
      ensures p in old(z).desc && old(z).pages[p].cls < |old(z).lists| && z == Delist(old(z), p, Held)
      ensures Kept(old(data), data, Live(old(z)))
      ensures forall a :: InChain(old(z), a) ==> Peek(cells, a) == Peek(old(cells), a)
    {
      hide Core, Rep, Elems, Without, NoDup, InChain, Live;
      ghost var s, z0 := S(), z;
      ghost var j := Position(z, p);
      ghost var c0 := z.pages[p].cls;
      WholeChain(z, p);
      CloseCore(z, p);
      PageAt(s, z, xs, xc, p);
      NodeAt(s, z, xs, xc, c0, j);
      SlabAt(z, p);
      HeadAt(s, z, xs, xc, c0);
      NeighboursNotLive(z, c0, j);
      NeighbourIs(z, c0, 0, c0, j);
      var d := descriptors[p].at;
      var c := Peek(cells, d).cls;
      if classes[c] == Some(d) {
        classes[c] := Peek(cells, d).next;
      }
      if Peek(cells, d).next.Some? {
        var n := Peek(cells, d).next.value;
        Poke(n, Peek(cells, n).(prev := Peek(cells, d).prev));
      }
      if Peek(cells, d).prev.Some? {
        var n := Peek(cells, d).prev.value;
        Poke(n, Peek(cells, n).(next := Peek(cells, d).next));
      }
      z := Delist(z, p, Held);
      ghost var s1 := s.(cells := cells);
      assert Unlinked(s, s1, z0, c0, j, d);
      UnlinkRep(s, s1, z0, xs, xc, p, j, Held);
      DescAtWithout(z0, z, c0, j, 0);
      HeadSettled(s1, z, xs + {p}, xc + {c0}, c0);
      assert (xc + {c0}) - {c0} == xc;
      assert classes[..] == s.classes[c0 := DescAt(z, c0, 0)];
      forall a | InChain(z0, a) ensures Peek(cells, a) == Peek(s.cells, a) {
        ChainUntouched(s, s1, z0, c0, j, p, a);
      }
    }

    /** The loop of alloc_page that chains n blocks of page p from slot base on. */
    method LinkBlocks(p: nat, base: nat, n: nat)
      requires n >= 1
      modifies this`cells, this`data
      ensures forall a: Addr :: !(a.page == p && base <= a.slot < base + n) ==> Peek(cells, a) == Peek(old(cells), a)
      ensures forall i :: base <= i < base + n ==>
        Peek(cells, Addr(p, i)).w0 == Link(if i + 1 < base + n then Some(Addr(p, i + 1)) else None)
      ensures forall x :: x in old(data) && x.page != p ==> x in data && data[x] == old(data)[x]
    {
      for j := 0 to n - 1
        invariant forall a: Addr :: !(a.page == p && base <= a.slot < base + j) ==>
          Peek(cells, a) == Peek(old(cells), a)
        invariant forall i :: base <= i < base + j ==> Peek(cells, Addr(p, i)).w0 == Link(Some(Addr(p, i + 1)))
        invariant forall x :: x in old(data) && x.page != p ==> x in data && data[x] == old(data)[x]
      {
        Poke(Addr(p, base + j), Peek(cells, Addr(p, base + j)).(w0 := Link(Some(Addr(p, base + j + 1)))));
      }
      Poke(Addr(p, base + n - 1), Peek(cells, Addr(p, base + n - 1)).(w0 := Link(None)));
    }

    /** The tail of alloc_page, once page i has a descriptor block descp. */
    method SetUpPage(i: nat, c: nat, descp: Addr, first: nat, freeCount: nat)
      requires Ready({}, {}) && 0 < i < |z.pages| && z.pages[i] == Held && DC <= c < |z.lists|
      requires c + 2 <= z.k && Base(c) <= Count(z.k, c)
      requires first == Base(c) && freeCount == Count(z.k, c) - Base(c)
      requires if c == DC then descp == Addr(i, 0)
               else descp in z.own && z.own[descp] == User && Usable(z, descp) && z.pages[descp.page].cls == DC
      modifies this`cells, this`data, this`z, descriptors, classes, pageClasses
      ensures Ready({}, {})
      ensures z == Enlist(old(z), i, c, FullChain(old(z).k, c), descp)
      ensures Kept(old(data), data, Live(old(z)) - {descp})
    {
      hide Core, Rep, Elems, NoDup, Live, Usable, InChain, CanEnlist, Prepared, SameFootprint, Appended, Pow2, Enlist;
      ghost var s, z0, d0 := S(), z, data;
      ghost var chain := FullChain(z.k, c);
      FullChainOk(z.k, c);
      FreshEnlist(z, i, c, descp);
      EnlistFrame(z, i, c, chain, descp);
      HeldOwnsNothing(z, i);
      PageAt(s, z, {}, {}, i);
      HeadAt(s, z, {}, {}, c);
      Poke(descp, Cell(Num(freeCount), i, c, Some(Addr(i, first)), None, None));
      LinkBlocks(i, first, freeCount);
      OffFootprint(s.cells, cells, z, i, c, descp);
      FootprintRep(s, z, {}, {}, cells);
      FreshPrepared(cells, i, c, chain, descp);
      ghost var d1 := data;
      ListNewPage(i, c, descp, chain);
      KeptTrans(d0, d1, data, Live(z0) - {descp}, Live(z0) - {descp}, Live(z0) - {descp});
    }

    /** Its end: the page's descriptor is entered and appended to the class. */
    method ListNewPage(i: nat, c: nat, d: Addr, ghost chain: seq<nat>)
      requires Ready({}, {}) && i < |z.pages| && z.pages[i] == Held && DC <= c < |z.lists|
      requires CanEnlist(z, i, c, chain, d) && i !in z.desc && Prepared(cells, i, c, chain, d)
      requires Core(Enlist(z, i, c, chain, d))
      modifies this`cells, this`data, this`z, descriptors, classes, pageClasses
      ensures Ready({}, {})
      ensures z == Enlist(old(z), i, c, chain, d)
      ensures Kept(old(data), data, Live(old(z)) - {d})
    {
      hide Core, Rep, Elems, NoDup, Live, CanEnlist, Appended, Enlist;
      NotYetListed(z, i, c, chain, d);
      EnlistFrame(z, i, c, chain, d);
      PageAt(S(), z, {}, {}, i);
      TransitRep(S(), z, {}, {}, i, d);
      descriptors[i] := StateDesc(d);
      assert {} + {i} == {i} && {i} - {i} == {};
      ghost var s1 := S();
      AppendPageToClass(c, d, {i}, {});
      EnlistRep(s1, S(), z, {i}, {}, i, c, chain, d);
      z := Enlist(z, i, c, chain, d);
    }

    /** The body of alloc_page's loop, for the first free page i. */
    method ClaimPage(i: nat, c: nat) returns (desc: Option<Addr>)
      requires Ready({}, {}) && DC <= c < |z.lists| && z.lists[c] == []
      requires FirstFree(z.pages, 0) == Some(i)
      modifies this`cells, this`data, this`z, descriptors, classes, pageClasses
      ensures Ready({}, {})
      ensures (z, desc.Some?) == if c == DC then OpenDC(old(z)) else OpenLarge(old(z), c)
      ensures desc.Some? ==> z.lists[c] != [] && desc == DescAt(z, c, 0)
      ensures Kept(old(data), data, Live(old(z)))
      decreases if c == DC then 0 else 1, 0
    {
      hide Core, Rep, Elems, NoDup, Live, Usable, InChain, CanEnlist, TouchesOnlyDC, Pow2, FullChain,
        Enlist, OpenDC, OpenLarge, AllocDC, Alloc, ClassOf, FloatLog, Log2, Kept;
      ghost var z0 := z;
      LocalExactlyDC(c);
      ClassFits(z, c);
      BlocksPerPage(k, c);
      PageAt(S(), z, {}, {}, i);
      HoldRep(S(), z, {}, {}, i);
      HoldFacts(z, i, c);
      descriptors[i] := StateBusy;
      z := Hold(z, i);
      var size := Pow2(c);
      var freeCount := Pow2(k) / size;
      var first := 0;
      var descp := Addr(i, 0);
      if size > DESCRIPTOR && size < DESCRIPTOR * 2 {
        first := 1;
        freeCount := freeCount - 1;
        OpenDCIs(z0, i);
        HeldOwnsNothing(z, i);
      } else {
        AllocDCFacts(z, i, c);
        OpenLargeIs(z0, i, c);
        var d := MemAlloc(DESCRIPTOR);
        if d.None? {
          return None;
        }
        descp := d.value;
      }
      ghost var z2 := z;
      FreshEnlist(z, i, c, descp);
      EnlistHead(z, i, c, FullChain(k, c), descp);
      ghost var d1 := data;
      SetUpPage(i, c, descp, first, freeCount);
      KeptTrans(old(data), d1, data, Live(z0), Live(z0), Live(z2) - {descp});
      desc := Some(descp);
    }

    /** alloc_page: a free page becomes the only partly used page of class c. */
    method AllocPage(c: nat) returns (desc: Option<Addr>)
      requires Ready({}, {}) && DC <= c < |z.lists| && z.lists[c] == []
      modifies this`cells, this`data, this`z, descriptors, classes, pageClasses
      ensures Ready({}, {})
      ensures (z, desc.Some?) == if c == DC then OpenDC(old(z)) else OpenLarge(old(z), c)
      ensures desc.Some? ==> z.lists[c] != [] && desc == DescAt(z, c, 0)
      ensures Kept(old(data), data, Live(old(z)))
      decreases if c == DC then 0 else 1, 1
    {
      hide Core, Rep, Elems, NoDup, Live;
      ghost var z0, s0 := z, S();
      ClassFits(z, c);
      PageAt(s0, z, {}, {}, 0);
      for i := 1 to descriptors.Length
        invariant z == z0 && S() == s0 && data == old(data)
        invariant forall q :: 0 <= q < i ==> !z.pages[q].Free?
      {
        PageAt(s0, z, {}, {}, i);
        if descriptors[i] == StateFree {
          FirstFreeIs(z.pages, i, 0);
          desc := ClaimPage(i, c);
          return;
        }
      }
      NoFirstFree(z.pages, 0);
      desc := None;
    }

    /** mem_alloc from descriptor d of the first partly used page of class c. */
    method TakeBlock(c: nat, d: Addr) returns (ret: Addr)
      requires Ready({}, {}) && DC <= c < |z.lists| && z.lists[c] != [] && DescAt(z, c, 0) == Some(d)
      modifies this`cells, this`data, this`z, descriptors, classes, pageClasses
      ensures Ready({}, {})
      ensures (z, ret) == if c == DC then TakeHead(old(z), DC) else TakeLarge(old(z), c)
      ensures Kept(old(data), data, Live(old(z)))
      decreases if c == DC then 0 else 1, 2
    {
      hide Core, Rep, Elems, NoDup, Live, Usable, InChain, Kept, Without, PopLast, Pop, Unlinked;
      ghost var z0, s0, d0 := z, S(), data;
      HeadOf(z, c);
      ghost var p := z.lists[c][0];
      ghost var chain := z.pages[p].chain;
      NodeAt(s0, z, {}, {}, c, 0);
      LinkAt(s0, z, {}, {}, p);
      PageAt(s0, z, {}, {}, p);
      SlabAt(z, p);
      NotLive(z, p);
      TakeGives(z, c);
      ret := Peek(cells, d).block.value;
      var link := Peek(cells, ret).w0.to;
      Poke(d, Peek(cells, d).(block := link));
      Poke(d, Peek(cells, d).(w0 := Num(Peek(cells, d).w0.n - 1)));
      KeptPoke(d0, data, Live(z0), d);
      if Peek(cells, d).block == None {
        RunFull(c, d, p, s0, d0);
      } else {
        PopRep(s0, z, {}, {}, p);
        PopCore(z, p);
        assert cells == s0.cells[d := Peek(s0.cells, d).(w0 := Num(|chain| - 1), block := link)];
        TakeIsPop(z, c);
        z := Pop(z, p);
      }
    }

    /** The list's side of it: the page's descriptor leaves the list. */
    method UnlinkFull(c: nat, d: Addr, ghost p: nat, ghost s0: State, ghost d0: map<Addr, seq<int>>)
      requires z.k == k && Core(z) && Rep(s0, z, {}, {}) && DC <= c < |z.lists| && z.lists[c] != []
      requires p == z.lists[c][0] && Partly(z, p) && |z.pages[p].chain| == 1 && DescAt(z, c, 0) == Some(d)
      requires S() == s0.(cells := cells)
      requires cells == s0.cells[d := Peek(s0.cells, d).(block := None, w0 := Num(0))]
      requires Kept(d0, data, Live(z))
      modifies this`cells, this`data, this`z
      ensures p in old(z).desc && old(z).pages[p].cls < |old(z).lists|
      ensures z == PopLast(old(z), p) && z.k == k && Core(z) && Rep(S(), z, {p}, {c})
      ensures Kept(d0, data, Live(old(z))) && Peek(cells, d) == Peek(old(cells), d)
    {
      hide Core, Rep, Elems, NoDup, Live, Usable, InChain, Kept, Without, PopLast, Delist;
      hide TouchesOnlyDC, Release, Unlinked;
      ghost var z0 := z;
      NodeAt(s0, z, {}, {}, c, 0);
      PageAt(s0, z, {}, {}, p);
      SlabAt(z, p);
      NeighboursNotLive(z, c, 0);
      ghost var e1 := data;
      if Peek(cells, d).next.Some? {
        var n := Peek(cells, d).next.value;
        Poke(n, Peek(cells, n).(prev := Peek(cells, d).prev));
      }
      // The first page of a list has no left neighbour to update.
      assert Peek(cells, d).prev == None;
      ghost var e2 := data;
      KeptPokeAt(e1, e2, Live(z0), Peek(cells, d).next);
      KeptTrans(d0, e1, e2, Live(z0), Live(z0), Live(z0));
      UnlinkedHead(s0, S(), z0, c, d);
      UnlinkRep(s0, S(), z0, {}, {}, p, 0, Slab(c, []));
      PopLastFacts(z0, c, p);
      z := PopLast(z, p);
      OwnRep(S(), Delist(z0, p, Slab(c, [])), {} + {p}, {} + {c}, z.own);
      assert {} + {p} == {p} && {} + {c} == {c};
    }

    /** mem_alloc when the page has just run out of free blocks. */
    method RunFull(c: nat, d: Addr, ghost p: nat, ghost s0: State, ghost d0: map<Addr, seq<int>>)
      requires z.k == k && Core(z) && Rep(s0, z, {}, {}) && DC <= c < |z.lists| && z.lists[c] != []
      requires p == z.lists[c][0] && Partly(z, p) && |z.pages[p].chain| == 1 && DescAt(z, c, 0) == Some(d)
      requires S() == s0.(cells := cells)
      requires cells == s0.cells[d := Peek(s0.cells, d).(block := None, w0 := Num(0))]
      requires Kept(d0, data, Live(z))
      modifies this`cells, this`data, this`z, descriptors, classes, pageClasses
      ensures Ready({}, {})
      ensures z == if c == DC then TakeHead(old(z), DC).0 else TakeLarge(old(z), c).0
      ensures Kept(d0, data, Live(old(z)))
      decreases if c == DC then 0 else 1, 1
    {
      hide Core, Rep, Elems, NoDup, Live, Usable, InChain, Kept, Without, PopLast, Delist;
      hide TouchesOnlyDC, Release, Unlinked;
      ghost var z0 := z;
      NodeAt(s0, z, {}, {}, c, 0);
      PageAt(s0, z, {}, {}, p);
      SlabAt(z, p);
      PopLastFacts(z0, c, p);
      UnlinkFull(c, d, p, s0, d0);
      ghost var z1, e2 := z, data;
      Sizes(S(), z, {p}, {c});
      assert {p} - {p} == {} && {c} - {c} == {};
      var next := Peek(cells, d).next;
      var index := Peek(cells, d).index;
      if descriptors[index].at.page != index {
        ReleaseDC(z, d);
        MemFree(descriptors[index].at, {p}, {c});
        DescAtTouched(z1, z, c, 0);
        TouchedPage(z1, z, p);
        KeptTrans(d0, e2, data, Live(z0), Live(z0), Live(z1) - {d});
      }
      SettleRep(S(), z, {p}, {c}, p, c);
      descriptors[Peek(cells, d).index] := StateBusy;
      classes[c] := next;
    }

    /** free_page: all blocks of page p are free again. */
    method FreePage(p: nat, ghost xs: set<nat>, ghost xc: set<nat>)
      requires Ready(xs, xc) && WholePage(z, p) && p !in xs && z.pages[p].cls !in xc
      requires z.pages[p].cls == DC || (xs == {} && xc == {})
      modifies this`cells, this`data, this`z, descriptors, classes, pageClasses
      ensures Ready(xs, xc)
      ensures z == if old(z).pages[p].cls == DC then CloseDC(old(z), p) else CloseLarge(old(z), p)
      ensures Kept(old(data), data, Live(old(z)))
      ensures old(z).pages[p].cls == DC ==> forall a :: InChain(old(z), a) ==> Peek(cells, a) == Peek(old(cells), a)
      decreases if z.pages[p].cls == DC then 0 else 1, 4
    {
      hide Core, Rep, Elems, NoDup, Live, Usable, InChain, Kept, Without, Delist, TouchesOnlyDC;
      hide Release, CloseDC, CloseLarge;
      ghost var z0, c0 := z, z.pages[p].cls;
      SlabAt(z, p);
      CloseFacts(z, p);
      PageAt(S(), z, xs, xc, p);
      RemoveFromClass(p, xs, xc);
      ghost var z1 := z;
      ghost var d1 := data;
      HeldClassRep(S(), z, xs + {p}, xc, p, 0);
      PageAt(S(), z, xs + {p}, xc, p);
      pageClasses[p] := 0;
      var d := descriptors[p].at;
      if d.page != p {
        ReleaseDC(z, d);
        assert {} + {p} == {p};
        MemFree(d, {p}, {});
        TouchedHeld(z1, z, p);
      }
      KeptTrans(old(data), d1, data, Live(z0), Live(z0), if c0 == DC then Live(z0) else Live(z1) - {d});
      DropRep(S(), z, xs + {p}, xc, p);
      assert (xs + {p}) - {p} == xs;
      descriptors[p] := StateFree;
      z := Drop(z, p);
      CloseResult(z0, p);
    }

    /** mem_free into a partly used page. */
    method FreeIntoChain(x: Addr, ghost xs: set<nat>, ghost xc: set<nat>)
      requires Ready(xs, xc) && x in Live(z) && Usable(z, x) && Partly(z, x.page) && x.page !in xs && DC !in xc
      requires z.pages[x.page].cls == DC || (xs == {} && xc == {})
      modifies this`cells, this`data, this`z, descriptors, classes, pageClasses
      ensures Ready(xs, xc)
      ensures old(z).pages[x.page].cls < |old(z).lists| && DC < |old(z).lists| && z == FreeSlab(old(z), x)
      ensures Kept(old(data), data, Live(old(z)) - {x})
      ensures old(z).pages[x.page].cls == DC ==> Peek(cells, x) == Peek(old(cells), x).(w0 := Peek(cells, x).w0)
      decreases if z.pages[x.page].cls == DC then 0 else 1, 5
    {
      hide Core, Rep, Elems, NoDup, Live, Usable, Kept, Push, CloseDC, CloseLarge, FreeSlab, Pow2;
      ghost var z0, s0 := z, S();
      var p := x.page;
      SlabAt(z, p);
      ghost var j := Position(z, p);
      NodeAt(s0, z, xs, xc, z.pages[p].cls, j);
      PageAt(s0, z, xs, xc, p);
      PushFacts(z, x);
      PushRep(s0, z, xs, xc, x);
      BlocksPerPage(k, z.pages[p].cls);
      var d := descriptors[p].at;
      Poke(d, Peek(cells, d).(w0 := Num(Peek(cells, d).w0.n + 1)));
      Poke(x, Peek(cells, x).(w0 := Link(Peek(cells, d).block)));
      Poke(d, Peek(cells, d).(block := Some(x)));
      assert cells == s0.cells[x := Peek(s0.cells, x).(w0 := Link(Peek(s0.cells, d).block))]
        [d := Peek(s0.cells, d).(w0 := Num(|z0.pages[p].chain| + 1), block := Some(x))];
      KeptTwoPokes(old(data), data, Live(z0) - {x}, d, x);
      z := Push(z, x);
      ghost var d1 := data;
      var n, max := Peek(cells, d).w0.n, Pow2(k) / Pow2(Peek(cells, d).cls);
      if n >= max || (n >= max - 1 && d.page == p) {
        FreePage(p, xs, xc);
      }
      KeptTrans(old(data), d1, data, Live(z0) - {x}, Live(z0) - {x}, Live(z0) - {x});
    }

    /** mem_free into a busy page, which needs a descriptor again. */
    method FreeIntoBusy(x: Addr, ghost xs: set<nat>, ghost xc: set<nat>)
      requires Ready(xs, xc) && x in Live(z) && Usable(z, x)
      requires z.pages[x.page].chain == [] && x.page !in xs && DC !in xc
      requires z.pages[x.page].cls == DC || (xs == {} && xc == {})
      modifies this`cells, this`data, this`z, descriptors, classes, pageClasses
      ensures Ready(xs, xc)
      ensures old(z).pages[x.page].cls < |old(z).lists| && DC < |old(z).lists| && z == FreeSlab(old(z), x)
      ensures Kept(old(data), data, Live(old(z)) - {x})
      ensures old(z).pages[x.page].cls == DC ==> Peek(cells, x) == Peek(old(cells), x).(w0 := Peek(cells, x).w0)
      decreases if z.pages[x.page].cls == DC then 0 else 1, 5
    {
      hide Core, Rep, Elems, NoDup, Live, Usable, Kept, FreeSlab, Pow2, AllocDC, Alloc, Enlist, SameFootprint, Appended,
        CanEnlist, InChain, Prepared, ClassOf, FloatLog, Log2;
      ghost var z0 := z;
      var p := x.page;
      BusyFacts(z, x);
      SlabAt(z, p);
      PageAt(S(), z, xs, xc, p);
      descriptors[p] := StateBusy;
      assert descriptors[..] == old(descriptors[..]);
      ghost var c := z.pages[p].cls;
      LocalExactlyDC(c);
      var cls := pageClasses[p];
      var size := Pow2(cls);
      var d := Addr(p, 0);
      if !(DESCRIPTOR < size && size < DESCRIPTOR * 2) {
        var r := MemAlloc(DESCRIPTOR);
        if r.None? {
          z := Lose(z, x);
          LoseCore(z0, x);
          OwnRep(S(), z0, {}, {}, z.own);
          KeptTrans(old(data), data, data, Live(z0) - {x}, Live(z0), Live(z0));
          return;
        }
        d := r.value;
        PageAt(S(), z, {}, {}, p);
      }
      ghost var z1, d1 := z, data;
      Relist(x, d, cls, xs, xc);
      KeptTrans(old(data), d1, data, Live(z0) - {x}, Live(z0), Live(z1) - {x} - {d});
    }

    /** The tail of mem_free for a busy page, once its descriptor block d is known. */
    method Relist(x: Addr, d: Addr, cls: int, ghost xs: set<nat>, ghost xc: set<nat>)
      requires Ready(xs, xc) && Usable(z, x) && z.pages[x.page].chain == []
      requires x in Live(z) && x in z.own && z.own[x] == User
      requires IsSlab(z, x.page) && cls == z.pages[x.page].cls && cls !in xc && x.page !in xs && d != x
      requires if cls == DC then d == Addr(x.page, 0)
               else d in z.own && z.own[d] == User && Usable(z, d) && z.pages[d.page].cls == DC
      modifies this`cells, this`data, this`z, descriptors, classes, pageClasses
      ensures Ready(xs, xc)
      ensures cls < |old(z).lists| && z == Enlist(old(z), x.page, cls, [x.slot], d)
      ensures Kept(old(data), data, Live(old(z)) - {x} - {d})
      ensures cls == DC ==> Peek(cells, x) == Peek(old(cells), x).(w0 := Peek(cells, x).w0)
    {
      hide Core, Rep, Elems, NoDup, Live, Usable, Kept, Enlist, SameFootprint, Appended, CanEnlist, InChain, Prepared;
      ghost var z0, cells0, c := z, cells, z.pages[x.page].cls;
      var p := x.page;
      SlabAt(z, p);
      PageAt(S(), z, xs, xc, p);
      BusyEnlist(z, x, d);
      EnlistFrame(z, p, c, [x.slot], d);
      Poke(d, Cell(Num(1), p, cls, Some(x), None, None));
      Poke(x, Peek(cells, x).(w0 := Link(None)));
      KeptTwoPokes(old(data), data, Live(z0) - {x} - {d}, d, x);
      OffFootprintBusy(cells0, cells, z, x, d);
      FootprintRep(S().(cells := cells0), z, xs, xc, cells);
      BusyPrepared(cells, x, c, d);
      NotYetListed(z, p, c, [x.slot], d);
      ghost var s1, d1 := S(), data;
      LiveIsNoDesc(z, c, |z.lists[c]| - 1, x);
      AppendedElsewhere(cells, DescAt(z, c, |z.lists[c]| - 1), d, x);
      AppendPageToClass(Peek(cells, d).cls, d, xs, xc);
      descriptors[p] := StateDesc(d);
      EnlistRep(s1, S(), z, xs, xc, p, c, [x.slot], d);
      assert xs - {p} == xs;
      KeptTrans(old(data), d1, data, Live(z0) - {x} - {d}, Live(z0) - {x} - {d}, Live(z) - {d});
      z := Enlist(z, p, c, [x.slot], d);
    }

    /** mem_free of a multipage block: as many pages come back as its recorded
        length says. */
    method GiveBack(x: Addr)
      requires Ready({}, {}) && IsRun(z, x)
      modifies this`z, descriptors, pageClasses
      ensures Ready({}, {}) && z == GiveRun(old(z), x.page)
    {
      hide Core, Rep;
      ghost var s0 := S();
      var p := x.page;
      PageAt(s0, z, {}, {}, p);
      RunFits(z, p);
      var num := pageClasses[p];
      ghost var n := if num > 0 then num else 0;
      var i := p;
      while i < p + num
        invariant p <= i <= p + n && z == old(z)
        invariant |descriptors[..]| == |s0.descriptors| && classes[..] == s0.classes && cells == s0.cells
        invariant forall q :: 0 <= q < descriptors.Length ==>
          descriptors[q] == if p <= q < i then StateFree else s0.descriptors[q]
        invariant forall q :: 0 <= q < pageClasses.Length ==>
          pageClasses[q] == if p <= q < i then 0 else s0.pageClasses[q]
      {
        descriptors[i] := StateFree;
        pageClasses[i] := 0;
        i := i + 1;
      }
      GiveRunCore(z, p);
      GiveRunRep(s0, S(), z, p);
      z := GiveRun(z, p);
    }

    /** mem_free. The ghost parameters name pages and class heads that the caller is
        in the middle of updating; only blocks of the descriptor's class are ever
        freed at such a moment. */
    method MemFree(x: Addr, ghost xs: set<nat>, ghost xc: set<nat>)
      requires Ready(xs, xc) && x in Live(z) && x.page !in xs && DC !in xc
      requires (IsSlab(z, x.page) && z.pages[x.page].cls == DC) || (xs == {} && xc == {})
      modifies this`cells, this`data, this`z, descriptors, classes, pageClasses
      ensures Ready(xs, xc)
      ensures z == Release(old(z), x)
      ensures Kept(old(data), data, Live(old(z)) - {x})
      ensures IsSlab(old(z), x.page) && old(z).pages[x.page].cls == DC ==>
        Peek(cells, x) == Peek(old(cells), x).(w0 := Peek(cells, x).w0)
      decreases if IsSlab(z, x.page) && z.pages[x.page].cls == DC then 0 else 1, 6
    {
      hide Core, Rep, Live, FreeSlab, GiveRun;
      LiveIs(z, x);
      PageAt(S(), z, xs, xc, x.page);
      if descriptors[x.page] == StateMultipage {
        GiveBack(x);
      } else if descriptors[x.page].StateDesc? {
        FreeIntoChain(x, xs, xc);
      } else {
        FreeIntoBusy(x, xs, xc);
      }
    }

    /** find_free_pages. */
    method FindFreePages(num: nat) returns (i: int)
      requires Ready({}, {}) && num >= 1
      ensures i == match LeftmostRun(z.pages, 0, num) case None => -1 case Some(p) => p
    {
      hide Core, Rep;
      Sizes(S(), z, {}, {});
      var r := 0;
      for j := 0 to descriptors.Length
        invariant 0 <= r <= j && r < num
        invariant forall q :: j - r <= q < j ==> z.pages[q].Free?
        invariant r < j ==> !z.pages[j - r - 1].Free?
        invariant forall q: nat :: q + num <= j ==> !FreeRun(z.pages, q, num)
      {
        PageAt(S(), z, {}, {}, j);
        if descriptors[j] == StateFree {
          r := r + 1;
        } else {
          r := 0;
        }
        if r >= num {
          LeftmostIs(z.pages, 0, num, j + 1 - num);
          return j + 1 - num;
        }
      }
      NoRun(z.pages, 0, num);
      return -1;
    }

    /** mem_alloc of a multipage block. */
    method AllocRun(c: nat) returns (r: Option<Addr>)
      requires Ready({}, {}) && c >= |z.lists|
      modifies this`z, descriptors, pageClasses
      ensures Ready({}, {})
      ensures RunLength(k, c) >= 1
      ensures match LeftmostRun(old(z).pages, 0, RunLength(k, c))
        case None => r == None && z == old(z)
        case Some(p) => r == Some(Addr(p, 0)) && z == TakeRun(old(z), p, RunLength(k, c))
    {
      hide Core, Rep, Pow2;
      Sizes(S(), z, {}, {});
      RunSize(z, c);
      var num := (Pow2(c) + Pow2(k) / 2) / Pow2(k);
      var page := FindFreePages(num);
      if page == -1 {
        return None;
      }
      ghost var s0 := S();
      var i := page;
      while i < page + num
        invariant page <= i <= page + num && z == old(z)
        invariant |descriptors[..]| == |s0.descriptors| && classes[..] == s0.classes && cells == s0.cells
        invariant forall q :: 0 <= q < descriptors.Length ==>
          descriptors[q] == if page <= q < i then StateMultipage else s0.descriptors[q]
        invariant forall q :: 0 <= q < pageClasses.Length ==>
          pageClasses[q] == if page <= q < i then -1 else s0.pageClasses[q]
      {
        descriptors[i] := StateMultipage;
        pageClasses[i] := -1;
        i := i + 1;
      }
      pageClasses[page] := ToChar(num);
      TakeRunCore(z, page, num);
      TakeRunRep(s0, S(), z, page, num);
      z := TakeRun(z, page, num);
      r := Some(Addr(page, 0));
    }

    /** mem_alloc for a class that pages are cut into. */
    method AllocFromClass(c: nat) returns (r: Option<Addr>)
      requires Ready({}, {}) && DC <= c < |z.lists|
      modifies this`cells, this`data, this`z, descriptors, classes, pageClasses
      ensures Ready({}, {})
      ensures (z, r) == AllocSlab(old(z), c)
      ensures Kept(old(data), data, Live(old(z)))
      decreases if c == DC then 0 else 1, 3
    {
      hide Core, Rep, Live, Pow2, AllocSlab, TakeHead, TakeLarge, OpenDC, OpenLarge, Kept;
      ghost var z0 := z;
      AllocSlabIs(z, c);
      OpenedLive(z0, c);
      HeadAt(S(), z, {}, {}, c);
      var page := classes[c];
      if page == None {
        page := AllocPage(c);
        if page.None? {
          return None;
        }
      }
      ghost var d1, z1 := data, z;
      var x := TakeBlock(c, page.value);
      KeptTrans(old(data), d1, data, Live(z0), Live(z0), Live(z1));
      r := Some(x);
    }

    /** mem_alloc. */
    method MemAlloc(size: nat) returns (r: Option<Addr>)
      requires Ready({}, {}) && ClassOf(size) < 32
      modifies this`cells, this`data, this`z, descriptors, classes, pageClasses
      ensures Ready({}, {})
      ensures (z, r) == Alloc(old(z), size)
      ensures Kept(old(data), data, Live(old(z)))
      decreases if ClassOf(size) == DC then 0 else 1, 4
    {
      hide Core, Rep, Live, Pow2, Log2, FloatLog, AllocSlab, TakeRun;
      var sizeIn := if size >= DESCRIPTOR then size else DESCRIPTOR;
      var c := Log2(RoundPow2(sizeIn));
      LogOfPow2(ClassOf(size));
      ClassAtLeastDC(size);
      Sizes(S(), z, {}, {});
      if c < classes.Length {
        r := AllocFromClass(c);
      } else {
        r := AllocRun(c);
      }
    }
  }
}
