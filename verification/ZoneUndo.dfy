/** Allocations and releases that undo each other. */
module ZoneUndo {
  import opened Options
  import opened Powers
  import opened Sequences
  import opened ZoneModel
  import opened ZoneSizes
  import opened ZoneSpec
  import opened ZoneTheory

  /** The first page of class c, which keeps a free block when one is handed out. */
  ghost predicate Plenty(z: Zone, c: nat)
  {
    c < |z.lists| && z.lists[c] != [] && Partly(z, z.lists[c][0]) && |z.pages[z.lists[c][0]].chain| >= 2
  }

  /** mem_alloc hands out the first free block of the first partly used page. */
  lemma AllocPops(z: Zone, size: nat, p: nat)
    requires Core(z) && ClassOf(size) < |z.lists| && z.lists[ClassOf(size)] != [] && z.lists[ClassOf(size)][0] == p
    requires p < |z.pages| && z.pages[p].Slab? && |z.pages[p].chain| >= 2
    ensures Partly(z, p) && Alloc(z, size) == (Pop(z, p), Some(Addr(p, z.pages[p].chain[0])))
  {
    hide Core, Elems, NoDup, Pop;
    ClassAtLeastDC(size);
    HeadOf(z, ClassOf(size));
  }

  /** Releasing what has just been allocated brings back the very same heap. */
  lemma ReleaseUndoesAlloc(z: Zone, size: nat)
    requires Inv(z) && Plenty(z, ClassOf(size))
    ensures Alloc(z, size).1.Some? && Release(Alloc(z, size).0, Alloc(z, size).1.value) == z
  {
    hide Elems, NoDup, ClassOf, Alloc, Pow2;
    var c := ClassOf(size);
    var p := z.lists[c][0];
    var chain := z.pages[p].chain;
    var x, z1 := Addr(p, chain[0]), Pop(z, p);
    AllocPops(z, size, p);
    HeadOf(z, c);
    assert SlabOk(z, p);
    ElemsAt(chain, 0);
    assert SlotOk(z, x);
    assert [chain[0]] + chain[1..] == chain;
    assert z1.own - {x} == z.own;
    assert z.pages[p := z1.pages[p]][p := z.pages[p]] == z.pages;
    assert Push(z1, x) == z;
    AllOccupied(z);
    assert OccupiedAt(z, p);
    assert z1 == Alloc(z, size).0 && Core(z1);
    PushedOnly(z1, x);
  }

  /** Release of a block whose page is partly used and stays so. */
  lemma PushedOnly(z: Zone, x: Addr)
    requires Core(z) && x in Live(z) && Usable(z, x) && Partly(z, x.page) && !WholePage(Push(z, x), x.page)
    ensures Release(z, x) == Push(z, x)
  {
    hide Elems, NoDup, Pow2;
    assert SlabOk(z, x.page);
  }

  /** A block that has just been released is the next one to be allocated, and that
      brings back the very same heap. */
  lemma AllocUndoesRelease(z: Zone, x: Addr, size: nat)
    requires Core(z) && x in Live(z) && Usable(z, x) && Partly(z, x.page) && !WholePage(Push(z, x), x.page)
    requires ClassOf(size) == z.pages[x.page].cls < |z.lists|
    requires z.lists[ClassOf(size)] != [] && z.lists[ClassOf(size)][0] == x.page
    ensures Alloc(Release(z, x), size) == (z, Some(x))
  {
    hide Elems, NoDup, ClassOf, Alloc, Pow2;
    PushedOnly(z, x);
    PushCore(z, x);
    var z1 := Push(z, x);
    var chain := z.pages[x.page].chain;
    assert ([x.slot] + chain)[1..] == chain;
    AllocPops(z1, size, x.page);
    assert z.pages[x.page := z1.pages[x.page]][x.page := z.pages[x.page]] == z.pages;
    assert (z.own - {x})[x := User] == z.own;
  }
}
