/** The zone allocator's operations on the reference model. The mutual recursion of
    the program unrolls here: pages of the descriptor's class keep their descriptor
    in the page, so an operation on that class never starts another one. */
module ZoneSpec {
  import opened Options
  import opened Powers
  import opened Sequences
  import opened ZoneModel
  import opened ZoneSizes

  /** What no operation changes. */
  predicate SameFrame(z: Zone, z': Zone)
  {
    z'.k == z.k && |z'.pages| == |z.pages| && |z'.lists| == |z.lists|
  }

  /** Only free pages and slabs of the descriptor's class change, with their list. */
  ghost predicate TouchesOnlyDC(z: Zone, z': Zone)
  {
    && SameFrame(z, z')
    && (forall q :: 0 <= q < |z.pages| && !z.pages[q].Free? && !(z.pages[q].Slab? && z.pages[q].cls == DC) ==>
          z'.pages[q] == z.pages[q])
    && (forall c :: 0 <= c < |z.lists| && c != DC ==> z'.lists[c] == z.lists[c])
    && (forall q :: q in z.desc && !(q < |z.pages| && z.pages[q].Slab? && z.pages[q].cls == DC) ==>
          q in z'.desc && z'.desc[q] == z.desc[q])
  }

  lemma Pow2AtLeastFour(n: nat)
    requires n >= 2
    ensures Pow2(n) >= 4
  {
  }

  lemma FullChainOk(k: nat, c: nat)
    requires c + 2 <= k
    ensures Count(k, c) >= 4 && Base(c) <= Count(k, c)
    ensures |FullChain(k, c)| == Count(k, c) - Base(c) && NoDup(FullChain(k, c))
    ensures forall s :: s in Elems(FullChain(k, c)) <==> Base(c) <= s < Count(k, c)
  {
    Pow2AtLeastFour(k - c);
    var f := FullChain(k, c);
    forall s: nat ensures s in Elems(f) <==> Base(c) <= s < Count(k, c) {
      if Base(c) <= s < Count(k, c) { assert f[s - Base(c)] == s; }
    }
  }

  lemma HeadOf(z: Zone, c: nat)
    requires Core(z) && c < |z.lists| && z.lists[c] != []
    ensures Partly(z, z.lists[c][0]) && z.pages[z.lists[c][0]].cls == c && z.lists[c][0] in z.desc
    ensures z.lists[c][0] != 0
  {
    hide Elems;
    ElemsAt(z.lists[c], 0);
    assert ListOk(z, c, z.lists[c][0]) && DescOk(z, z.lists[c][0]);
  }

  /** The first block of the first partly used page of class c is handed out. A
      descriptor that is no longer needed becomes a plain block, if it was one. */
  ghost function TakeHead(z: Zone, c: nat): (r: (Zone, Addr))
    requires Core(z) && c < |z.lists| && z.lists[c] != []
    ensures Core(r.0) && SameFrame(z, r.0)
    ensures Partly(z, z.lists[c][0]) && r.1 == Addr(z.lists[c][0], z.pages[z.lists[c][0]].chain[0])
    ensures r.1 !in z.own && r.1 in r.0.own && Usable(r.0, r.1)
    ensures c == DC ==> r.0.own == z.own[r.1 := User] && r.0.pages[r.1.page].cls == DC && TouchesOnlyDC(z, r.0)
  {
    HeadOf(z, c);
    assert SlabOk(z, z.lists[c][0]);
    ElemsAt(z.pages[z.lists[c][0]].chain, 0);
    assert SlotOk(z, Addr(z.lists[c][0], z.pages[z.lists[c][0]].chain[0]));
    var p := z.lists[c][0];
    var x := Addr(p, z.pages[p].chain[0]);
    if |z.pages[p].chain| >= 2 then
      PopCore(z, p);
      (Pop(z, p), x)
    else
      PopLastCore(z, p);
      (PopLast(z, p), x)
  }

  /** A free page becomes a page of the descriptor's class, its descriptor in it. */
  ghost function OpenDC(z: Zone): (r: (Zone, bool))
    requires Core(z) && DC < |z.lists| && z.lists[DC] == []
    ensures Core(r.0) && TouchesOnlyDC(z, r.0) && r.0.own == z.own
    ensures if r.1 then r.0.lists[DC] != [] else r.0 == z
    ensures r.1 <==> exists q :: 0 <= q < |z.pages| && z.pages[q].Free?
  {
    match FirstFree(z.pages, 0)
    case None => (z, false)
    case Some(i) =>
      IdleCore(z, Hold(z, i), i, Held);
      FreshEnlist(Hold(z, i), i, DC, Addr(i, 0));
      (Enlist(Hold(z, i), i, DC, FullChain(z.k, DC), Addr(i, 0)), true)
  }

  /** Allocation in the descriptor's own class. */
  ghost function AllocDC(z: Zone): (r: (Zone, Option<Addr>))
    requires Core(z) && DC < |z.lists|
    ensures Core(r.0) && SameFrame(z, r.0)
    ensures r.1.None? ==> r.0 == z
    ensures r.1.Some? ==>
      && r.1.value !in z.own && r.0.own == z.own[r.1.value := User]
      && Usable(r.0, r.1.value) && r.0.pages[r.1.value.page].cls == DC && TouchesOnlyDC(z, r.0)
    ensures r.1.None? <==> z.lists[DC] == [] && forall q :: 0 <= q < |z.pages| ==> !z.pages[q].Free?
  {
    var (z1, ok) := if z.lists[DC] == [] then OpenDC(z) else (z, true);
    if ok then
      var (z2, x) := TakeHead(z1, DC);
      TouchesTwice(z, z1, z2);
      (z2, Some(x))
    else (z, None)
  }

  lemma TouchesTwice(z: Zone, z1: Zone, z2: Zone)
    requires Core(z) && (z1 == z || (TouchesOnlyDC(z, z1) && Core(z1))) && TouchesOnlyDC(z1, z2)
    ensures TouchesOnlyDC(z, z2)
  {
    if z1 != z {
      forall q | q in z.desc && !(q < |z.pages| && z.pages[q].Slab? && z.pages[q].cls == DC)
        ensures q in z2.desc && z2.desc[q] == z.desc[q]
      {
        assert DescOk(z, q);
        assert z1.pages[q] == z.pages[q];
      }
    }
  }

  lemma FreshEnlist(z: Zone, i: nat, c: nat, d: Addr)
    requires Core(z) && 0 < i < |z.pages| && z.pages[i] == Held && DC <= c < |z.lists|
    requires if c == DC then d == Addr(i, 0)
             else d in z.own && z.own[d] == User && Usable(z, d) && z.pages[d.page].cls == DC
    ensures c + 2 <= z.k && Base(c) <= Count(z.k, c)
    ensures CanEnlist(z, i, c, FullChain(z.k, c), d) && Core(Enlist(z, i, c, FullChain(z.k, c), d))
    ensures Enlist(z, i, c, FullChain(z.k, c), d).lists[c] != [] && i !in z.desc
    ensures Enlist(z, i, c, FullChain(z.k, c), d).own == if c == DC then z.own else z.own[d := DescOf(i)]
  {
    hide Elems, NoDup, Blocks;
    FullChainOk(z.k, c);
    BlocksOf(i, FullChain(z.k, c));
    assert DescOk(z, i);
    forall x | x in z.own ensures x.page != i { assert SlotOk(z, x); }
    EnlistCore(z, i, c, FullChain(z.k, c), d);
  }

  ghost predicate WholePage(z: Zone, p: nat)
  {
    Partly(z, p) && |z.pages[p].chain| == Count(z.k, z.pages[p].cls) - Base(z.pages[p].cls)
  }

  /** free_page for a page of the descriptor's class. */
  ghost function CloseDC(z: Zone, p: nat): (r: Zone)
    requires Core(z) && WholePage(z, p) && z.pages[p].cls == DC
    ensures Core(r) && TouchesOnlyDC(z, r) && r.own == z.own
  {
    WholeChain(z, p);
    CloseCore(z, p);
    IdleCore(Delist(z, p, Held), Drop(Delist(z, p, Held), p), p, Page.Free);
    Drop(Delist(z, p, Held), p)
  }

  /** Release in the descriptor's own class. */
  ghost function FreeDC(z: Zone, x: Addr): (r: Zone)
    requires Core(z) && Usable(z, x) && z.pages[x.page].cls == DC && x in z.own && z.own[x] == User
    ensures Core(r) && TouchesOnlyDC(z, r)
    ensures r.own == z.own - {x}
  {
    if z.pages[x.page].chain == [] then
      BusyEnlist(z, x, Addr(x.page, 0));
      BlocksOne(x.page, x.slot);
      Enlist(z, x.page, DC, [x.slot], Addr(x.page, 0))
    else
      PushCore(z, x);
      if WholePage(Push(z, x), x.page) then CloseDC(Push(z, x), x.page) else Push(z, x)
  }

  lemma BlocksOne(p: nat, s: nat)
    ensures Blocks(p, [s]) == {Addr(p, s)}
  {
    assert [s][0] == s;
    BlocksOf(p, [s]);
    ElemsOne([s]);
  }

  /** What becomes of owners and pages when page p is enlisted. */
  lemma EnlistEffect(z: Zone, p: nat, c: nat, chain: seq<nat>, d: Addr)
    requires p < |z.pages| && c < |z.lists| && (z.pages[p] == Held || z.pages[p].Slab?)
    requires c != DC ==> d in z.own && z.own[d] == User && d !in Blocks(p, chain)
    requires forall x :: x in Blocks(p, chain) && x in z.own ==> z.own[x] == User
    ensures var r := Enlist(z, p, c, chain, d);
      && SameFrame(z, r)
      && Live(r) == Live(z) - Blocks(p, chain) - (if c != DC then {d} else {})
      && LostBlocks(r) == LostBlocks(z)
      && forall q :: 0 <= q < |z.pages| && q != p ==> r.pages[q] == z.pages[q]
  {
    hide Blocks;
  }

  /** A busy page becomes partly used again when its block x comes back. */
  lemma BusyEnlist(z: Zone, x: Addr, d: Addr)
    requires Core(z) && Usable(z, x) && z.pages[x.page].chain == [] && x in z.own && z.own[x] == User
    requires if z.pages[x.page].cls == DC then d == Addr(x.page, 0)
             else d in z.own && z.own[d] == User && Usable(z, d) && z.pages[d.page].cls == DC
    ensures 0 < x.page && z.pages[x.page].cls < |z.lists|
    ensures CanEnlist(z, x.page, z.pages[x.page].cls, [x.slot], d)
    ensures Core(Enlist(z, x.page, z.pages[x.page].cls, [x.slot], d))
  {
    hide Elems;
    assert SlabOk(z, x.page);
    ElemsOne([x.slot]);
    EnlistCore(z, x.page, z.pages[x.page].cls, [x.slot], d);
  }

  /** A chain as long as the page has slots holds all of them, and is never longer. */
  lemma WholeChain(z: Zone, p: nat)
    requires Core(z) && IsSlab(z, p)
    ensures |z.pages[p].chain| <= Count(z.k, z.pages[p].cls) - Base(z.pages[p].cls)
    ensures |z.pages[p].chain| == Count(z.k, z.pages[p].cls) - Base(z.pages[p].cls) ==>
      forall s :: Base(z.pages[p].cls) <= s < Count(z.k, z.pages[p].cls) ==> s in Elems(z.pages[p].chain)
  {
    hide Elems, NoDup;
    assert SlabOk(z, p);
    FullChainOk(z.k, z.pages[p].cls);
    ElemsSize(z.pages[p].chain);
    Filled(Elems(z.pages[p].chain), Base(z.pages[p].cls), Count(z.k, z.pages[p].cls));
  }

  ghost function LostBlocks(z: Zone): set<Addr>
  {
    set x | x in z.own && z.own[x] == Lost
  }

  /** A descriptor block can be released once its page has left its list. */
  lemma FreedDescriptor(z: Zone, p: nat)
    requires Core(z) && Partly(z, p) && z.pages[p].cls != DC
    ensures z.pages[p].cls < |z.lists| && p in z.desc && z.desc[p] in z.own && z.own[z.desc[p]] == DescOf(p)
    ensures Usable(z, z.desc[p]) && z.pages[z.desc[p].page].cls == DC && z.desc[p].page != p
  {
    assert SlabOk(z, p) && DescOk(z, p) && DescBlockOk(z, z.desc[p]);
  }

  /** Hand out a block of a larger class; a page that runs full gives its descriptor
      back. */
  ghost function TakeLarge(z: Zone, c: nat): (r: (Zone, Addr))
    requires Core(z) && c < |z.lists| && c != DC && DC < |z.lists| && z.lists[c] != []
    ensures Core(r.0) && SameFrame(z, r.0)
    ensures r.1 !in z.own && Live(r.0) == Live(z) + {r.1} && LostBlocks(r.0) == LostBlocks(z)
    ensures Usable(r.0, r.1) && r.0.pages[r.1.page].cls == c
  {
    HeadOf(z, c);
    var p := z.lists[c][0];
    FreedDescriptor(z, p);
    var d, chain := z.desc[p], z.pages[p].chain;
    assert SlotOk(z, d);
    var (z1, x) := TakeHead(z, c);
    if |chain| >= 2 then (z1, x) else (FreeDC(z1, d), x)
  }

  /** A free page becomes a page of a larger class; its descriptor is a block of
      the descriptor's class. Without room for that, the page stays out of
      circulation. */
  ghost function OpenLarge(z: Zone, c: nat): (r: (Zone, bool))
    requires Core(z) && DC < c < |z.lists| && z.lists[c] == []
    ensures Core(r.0) && SameFrame(z, r.0)
    ensures r.1 ==> r.0.lists[c] != []
    ensures Live(r.0) == Live(z) && LostBlocks(r.0) == LostBlocks(z)
    ensures forall x :: x in z.own ==> x in r.0.own
  {
    match FirstFree(z.pages, 0)
    case None => (z, false)
    case Some(i) =>
      IdleCore(z, Hold(z, i), i, Held);
      var z1 := Hold(z, i);
      var (z2, d) := AllocDC(z1);
      if d.None? then (z2, false)
      else
        (Furnish(z2, i, c, d.value), true)
  }

  /** Held page i becomes a page of class c with all its slots free. */
  ghost function Furnish(z: Zone, i: nat, c: nat, d: Addr): (r: Zone)
    requires Core(z) && 0 < i < |z.pages| && z.pages[i] == Held && DC < c < |z.lists|
    requires d in z.own && z.own[d] == User && Usable(z, d) && z.pages[d.page].cls == DC
    ensures Core(r) && SameFrame(z, r) && r.lists[c] != []
    ensures Live(r) == Live(z) - {d} && LostBlocks(r) == LostBlocks(z)
    ensures forall x :: x in z.own ==> x in r.own
    ensures forall q :: 0 <= q < |z.pages| && q != i ==> r.pages[q] == z.pages[q]
  {
    FreshEnlist(z, i, c, d);
    FreshBlocks(z, i, FullChain(z.k, c));
    EnlistEffect(z, i, c, FullChain(z.k, c), d);
    Enlist(z, i, c, FullChain(z.k, c), d)
  }

  /** A held page has no block in use. */
  lemma FreshBlocks(z: Zone, i: nat, chain: seq<nat>)
    requires Core(z) && i < |z.pages| && z.pages[i] == Held
    ensures forall x :: x in Blocks(i, chain) ==> x !in z.own
  {
    hide Elems;
    BlocksOf(i, chain);
    forall x | x in z.own ensures x.page != i { assert SlotOk(z, x); }
  }

  /** mem_alloc within a class, as an operation on the model. */
  ghost function AllocSlab(z: Zone, c: nat): (r: (Zone, Option<Addr>))
    requires Core(z) && DC <= c < |z.lists|
    ensures Core(r.0) && SameFrame(z, r.0)
    ensures r.1.Some? ==>
      && r.1.value !in z.own && Live(r.0) == Live(z) + {r.1.value}
      && Usable(r.0, r.1.value) && r.0.pages[r.1.value.page].cls == c
    ensures r.1.None? ==> Live(r.0) == Live(z)
    ensures LostBlocks(r.0) == LostBlocks(z)
  {
    if c == DC then AllocDC(z)
    else
      var (z1, ok) := if z.lists[c] == [] then OpenLarge(z, c) else (z, true);
      if ok then
        var (z2, x) := TakeLarge(z1, c);
        (z2, Some(x))
      else (z1, None)
  }

  /** free_page for a page of a larger class: its descriptor is freed too. */
  ghost function CloseLarge(z: Zone, p: nat): (r: Zone)
    requires Core(z) && WholePage(z, p) && z.pages[p].cls != DC
    ensures Core(r) && SameFrame(z, r)
    ensures Live(r) == Live(z) && LostBlocks(r) == LostBlocks(z)
  {
    WholeChain(z, p);
    CloseCore(z, p);
    FreedDescriptor(z, p);
    assert SlotOk(z, z.desc[p]);
    var z2 := FreeDC(Delist(z, p, Held), z.desc[p]);
    IdleCore(z2, Drop(z2, p), p, Page.Free);
    Drop(z2, p)
  }

  /** A block of a busy page of a larger class comes back: the page needs a
      descriptor again, and without one the block is lost. */
  ghost function FreeBusy(z: Zone, x: Addr): (r: Zone)
    requires Core(z) && Usable(z, x) && x in z.own && z.own[x] == User
    requires DC < |z.lists| && z.pages[x.page].cls != DC && z.pages[x.page].chain == []
    ensures Core(r) && SameFrame(z, r)
    ensures Live(r) == Live(z) - {x}
    ensures LostBlocks(r) == if AllocDC(z).1.None? then LostBlocks(z) + {x} else LostBlocks(z)
  {
    var (z1, d) := AllocDC(z);
    if d.None? then
      LoseCore(z, x);
      Lose(z, x)
    else Relisted(z1, x, d.value)
  }

  /** The busy page of block x is partly used again, with descriptor d. */
  ghost function Relisted(z: Zone, x: Addr, d: Addr): (r: Zone)
    requires Core(z) && Usable(z, x) && z.pages[x.page].chain == [] && x in z.own && z.own[x] == User && x != d
    requires z.pages[x.page].cls != DC && d in z.own && z.own[d] == User && Usable(z, d) && z.pages[d.page].cls == DC
    ensures Core(r) && SameFrame(z, r)
    ensures Live(r) == Live(z) - {x} - {d} && LostBlocks(r) == LostBlocks(z)
  {
    BusyEnlist(z, x, d);
    BlocksOne(x.page, x.slot);
    EnlistEffect(z, x.page, z.pages[x.page].cls, [x.slot], d);
    Enlist(z, x.page, z.pages[x.page].cls, [x.slot], d)
  }

  /** mem_free of a block in a slab, as an operation on the model. */
  ghost function FreeSlab(z: Zone, x: Addr): (r: Zone)
    requires Core(z) && DC < |z.lists| && Usable(z, x) && x in z.own && z.own[x] == User
    ensures Core(r) && SameFrame(z, r)
    ensures Live(r) == Live(z) - {x}
    ensures LostBlocks(r) == if LosesBlock(z, x) then LostBlocks(z) + {x} else LostBlocks(z)
  {
    if z.pages[x.page].cls == DC then FreeDC(z, x)
    else if z.pages[x.page].chain == [] then FreeBusy(z, x)
    else
      PushCore(z, x);
      if WholePage(Push(z, x), x.page) then CloseLarge(Push(z, x), x.page) else Push(z, x)
  }

  /** Freeing x fails for want of a descriptor: its page is busy, no page of the
      descriptor's class has a free block and no page is free. */
  ghost predicate LosesBlock(z: Zone, x: Addr)
  {
    && IsSlab(z, x.page) && z.pages[x.page].cls != DC && z.pages[x.page].chain == []
    && DC < |z.lists| && z.lists[DC] == [] && forall q :: 0 <= q < |z.pages| ==> !z.pages[q].Free?
  }

  // --- The public operations -------------------------------------------

  /** mem_alloc. */
  ghost function Alloc(z: Zone, size: nat): (r: (Zone, Option<Addr>))
    requires Core(z)
    ensures Core(r.0) && SameFrame(z, r.0)
    ensures LostBlocks(r.0) == LostBlocks(z)
    ensures r.1.None? ==> Live(r.0) == Live(z)
    ensures r.1.Some? ==> r.1.value !in z.own && Live(r.0) == Live(z) + {r.1.value}
  {
    ClassAtLeastDC(size);
    if ClassOf(size) < |z.lists| then AllocSlab(z, ClassOf(size))
    else
      var num := RunLength(z.k, ClassOf(size));
      RunCovers(z.k, ClassOf(size));
      match LeftmostRun(z.pages, 0, num)
      case None => (z, None)
      case Some(p) =>
        TakeRunCore(z, p, num);
        assert SlotOk(z, Addr(p, 0));
        (TakeRun(z, p, num), Some(Addr(p, 0)))
  }

  /** mem_free. */
  ghost function Release(z: Zone, x: Addr): (r: Zone)
    requires Core(z) && x in Live(z)
    ensures Core(r) && SameFrame(z, r)
    ensures Live(r) == Live(z) - {x}
    ensures LostBlocks(r) == if LosesBlock(z, x) then LostBlocks(z) + {x} else LostBlocks(z)
  {
    assert SlotOk(z, x);
    if IsRun(z, x) then
      GiveRunCore(z, x.page);
      assert x == Addr(x.page, 0);
      GiveRun(z, x.page)
    else
      assert SlabOk(z, x.page);
      FreeSlab(z, x)
  }

  /** mem_realloc as an operation on the model. */
  ghost function Realloc(z: Zone, x: Addr, size: nat): (r: (Zone, Option<Addr>))
    requires Core(z) && x in Live(z)
    ensures Core(r.0) && SameFrame(z, r.0)
    ensures Live(r.0) == if r.1.Some? then Live(z) - {x} + {r.1.value} else Live(z)
  {
    var (z1, y) := Alloc(z, size);
    if y.None? then (z1, None) else (Release(z1, x), y)
  }
}
