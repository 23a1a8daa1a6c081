/** Where blocks lie in the arena, and how many bytes mem_realloc carries over. */
module ZoneLayout {
  import opened Powers
  import opened ZoneModel
  import opened ZoneSizes
  import opened ZoneSpec

  /** Anything that has bytes of its own: a slot of a slab page, the descriptor that a
      page of the descriptor's class keeps in slot 0, or a multipage block. */
  predicate Placed(z: Zone, x: Addr)
  {
    (IsSlab(z, x.page) && x.slot < Count(z.k, z.pages[x.page].cls)) || IsRun(z, x)
  }

  function Capacity(z: Zone, x: Addr): nat
    requires Placed(z, x)
  {
    if z.pages[x.page].Slab? then Pow2(z.pages[x.page].cls) else z.pages[x.page].len * Pow2(z.k)
  }

  /** Offset of the block's first byte in mi.memory. */
  function Offset(z: Zone, x: Addr): nat
    requires Placed(z, x)
  {
    x.page * Pow2(z.k) + if z.pages[x.page].Slab? then x.slot * Pow2(z.pages[x.page].cls) else 0
  }

  /** The pages that the block's bytes lie in end before this one. */
  function EndPage(z: Zone, x: Addr): nat
    requires Placed(z, x)
  {
    x.page + if z.pages[x.page].Slab? then 1 else z.pages[x.page].len
  }

  lemma MulPlus(a: nat, n: nat, c: nat)
    ensures a * c + n * c == (a + n) * c
  {
  }

  lemma SlotInPage(k: nat, c: nat, slot: nat)
    requires c <= k && slot < Count(k, c)
    ensures slot * Pow2(c) + Pow2(c) <= Pow2(k)
  {
    hide Pow2;
    Sum(k - c, c);
    MulPlus(slot, 1, Pow2(c));
    MulLe(slot + 1, Pow2(k - c), Pow2(c));
  }

  lemma EndsIn(z: Zone, x: Addr)
    requires Core(z) && Placed(z, x)
    ensures 1 <= x.page < EndPage(z, x) <= |z.pages|
  {
    hide Pow2;
    assert RunOk(z, x.page);
  }

  lemma InPages(z: Zone, x: Addr)
    requires Core(z) && Placed(z, x)
    ensures 1 <= x.page < EndPage(z, x) <= |z.pages|
    ensures x.page * Pow2(z.k) <= Offset(z, x)
    ensures Offset(z, x) + Capacity(z, x) <= EndPage(z, x) * Pow2(z.k)
    ensures EndPage(z, x) * Pow2(z.k) <= |z.pages| * Pow2(z.k) && Pow2(z.k) <= x.page * Pow2(z.k)
  {
    hide Pow2, Core;
    EndsIn(z, x);
    MulPlus(x.page, EndPage(z, x) - x.page, Pow2(z.k));
    if z.pages[x.page].Slab? { SlotInPage(z.k, z.pages[x.page].cls, x.slot); }
    MulLe(EndPage(z, x), |z.pages|, Pow2(z.k));
    MulLe(1, x.page, Pow2(z.k));
  }

  predicate Before(z: Zone, x: Addr, y: Addr)
    requires Placed(z, x) && Placed(z, y)
  {
    Offset(z, x) + Capacity(z, x) <= Offset(z, y)
  }

  lemma RunsApart(z: Zone, x: Addr, y: Addr)
    requires Core(z) && Placed(z, x) && Placed(z, y) && x.page < y.page
    ensures EndPage(z, x) <= y.page
  {
    assert RunOk(z, x.page) && RunOk(z, y.page);
  }

  lemma PagesApart(z: Zone, x: Addr, y: Addr)
    requires Core(z) && Placed(z, x) && Placed(z, y) && x.page < y.page
    ensures Before(z, x, y)
  {
    hide Pow2;
    RunsApart(z, x, y);
    InPages(z, x);
    InPages(z, y);
    MulLe(EndPage(z, x), y.page, Pow2(z.k));
  }

  lemma SlotsApart(z: Zone, x: Addr, y: Addr)
    requires Placed(z, x) && Placed(z, y) && x.page == y.page && x.slot < y.slot
    ensures Before(z, x, y)
  {
    hide Pow2;
    var unit := Pow2(z.pages[x.page].cls);
    MulPlus(x.slot, 1, unit);
    MulLe(x.slot + 1, y.slot, unit);
  }

  /** Blocks and descriptors never overlap, and lie in the arena beyond page 0, where
      the tables are. */
  lemma Disjoint(z: Zone, x: Addr, y: Addr)
    requires Core(z) && Placed(z, x) && Placed(z, y)
    ensures Pow2(z.k) <= Offset(z, x) && Offset(z, x) + Capacity(z, x) <= |z.pages| * Pow2(z.k)
    ensures x != y ==> Before(z, x, y) || Before(z, y, x)
  {
    hide Pow2, Core;
    InPages(z, x);
    if x.page < y.page { PagesApart(z, x, y); }
    else if y.page < x.page { PagesApart(z, y, x); }
    else if x.slot < y.slot { SlotsApart(z, x, y); }
    else if y.slot < x.slot { SlotsApart(z, y, x); }
  }

  lemma UsedIsPlaced(z: Zone, x: Addr)
    requires Core(z) && (x in z.own || (x.page in z.desc && z.desc[x.page] == x))
    ensures Placed(z, x)
  {
    hide Pow2;
    if x in z.own {
      assert SlotOk(z, x);
    } else {
      assert DescOk(z, x.page) && SlabOk(z, x.page);
      FullChainOk(z.k, DC);
    }
  }

  /** A successful mem_alloc gives a block that is large enough and apart from every
      other block in use and every descriptor. */
  lemma AllocGivesRoom(z: Zone, size: nat)
    requires Core(z) && Alloc(z, size).1.Some?
    ensures var z', x := Alloc(z, size).0, Alloc(z, size).1.value;
      && Placed(z', x) && Capacity(z', x) >= size
      && Pow2(z'.k) <= Offset(z', x) && Offset(z', x) + Capacity(z', x) <= |z.pages| * Pow2(z'.k)
      && forall y: Addr :: y != x && (y in z'.own || (y.page in z'.desc && z'.desc[y.page] == y)) ==>
           Placed(z', y) && (Before(z', x, y) || Before(z', y, x))
  {
    hide Pow2, Core, Alloc, Placed, Before, Offset, Capacity;
    var z', x := Alloc(z, size).0, Alloc(z, size).1.value;
    assert x in Live(z') && x in z'.own;
    UsedIsPlaced(z', x);
    Enough(z, size);
    Disjoint(z', x, x);
    forall y: Addr | y != x && (y in z'.own || (y.page in z'.desc && z'.desc[y.page] == y))
      ensures Placed(z', y) && (Before(z', x, y) || Before(z', y, x))
    {
      UsedIsPlaced(z', y);
      Disjoint(z', x, y);
    }
  }

  lemma Enough(z: Zone, size: nat)
    requires Core(z) && Alloc(z, size).1.Some? && Placed(Alloc(z, size).0, Alloc(z, size).1.value)
    ensures Capacity(Alloc(z, size).0, Alloc(z, size).1.value) >= size
    ensures
      var z', x, c := Alloc(z, size).0, Alloc(z, size).1.value, ClassOf(size);
      && (z'.pages[x.page].Slab? <==> c + 2 <= z.k) && z'.k == z.k
      && Capacity(z', x) == if c <= z.k && !(z'.pages[x.page].Slab?) then Pow2(z.k) else Pow2(c)
  {
    hide Pow2, ClassOf, AllocSlab;
    var c := ClassOf(size);
    ClassAtLeastDC(size);
    if c >= |z.lists| {
      RunCovers(z.k, c);
      if c > z.k { Sum(c - z.k, z.k); }
    }
  }

  lemma Shifted(c: nat, k: nat)
    ensures c + 2 <= k <==> 4 * Pow2(c) <= Pow2(k)
    ensures c <= k <==> Pow2(c) <= Pow2(k)
  {
    hide Pow2;
    Doubles(c);
    Doubles(c + 1);
    if c + 2 <= k { Monotone(c + 2, k); } else { Monotone(k, c + 1); }
    if c <= k { Monotone(c, k); } else { Monotone(k, c); }
  }

  /** The block is no larger than it has to be: a block of a page has the least power of two
      at or above the request, exactly when the conversion to float does not overshoot, and
      else twice that; it comes from a page when the page holds four. Other blocks have
      as many pages as that size takes, at least one. */
  lemma AllocLeast(z: Zone, size: nat) returns (p: nat)
    requires Core(z) && Alloc(z, size).1.Some?
    ensures LeastPower(Request(size), p)
    ensures var z', x := Alloc(z, size).0, Alloc(z, size).1.value;
      var rounded := if Overshoots(Request(size) - 1) then 2 * p else p;
      && Placed(z', x)
      && (z'.pages[x.page].Slab? <==> 4 * rounded <= Pow2(z.k))
      && Capacity(z', x) == (if z'.pages[x.page].Slab? || rounded > Pow2(z.k) then rounded else Pow2(z.k))
      && (z'.pages[x.page].Slab? ==>
            (LeastPower(Request(size), Capacity(z', x)) <==> !Overshoots(Request(size) - 1)))
  {
    hide Pow2, Core, Alloc, Placed, Capacity, ClassOf, Overshoots;
    var z', x := Alloc(z, size).0, Alloc(z, size).1.value;
    assert x in Live(z') && x in z'.own;
    UsedIsPlaced(z', x);
    Enough(z, size);
    p := ClassOfLeast(size);
    Shifted(ClassOf(size), z.k);
    if LeastPower(Request(size), 2 * p) { OneLeastPower(Request(size), p, 2 * p); }
  }

  /** A page is cut into blocks without a rest. */
  lemma PageFilled(k: nat, c: nat)
    requires c <= k
    ensures Count(k, c) * Pow2(c) == Pow2(k)
  {
    hide Pow2;
    Sum(k - c, c);
  }

  // --- mem_realloc -----------------------------------------------------

  /** Bytes that mem_realloc copies out of block x. The page count of a multipage block
      is read back from a signed byte and multiplied as an unsigned number, so a
      negative one exceeds every size. */
  function Copied(z: Zone, x: Addr, size: nat): nat
    requires Placed(z, x)
  {
    if z.pages[x.page].Start? then
      var n := ToChar(z.pages[x.page].len);
      if n < 0 then size else MinNat(n * Pow2(z.k), size)
    else MinNat(Pow2(z.pages[x.page].cls), size)
  }

  function MinNat(a: nat, b: nat): nat { if a > b then b else a }

  /** mem_realloc copies min(old capacity, new size) bytes, unless the block has more
      pages than a signed byte can count: then it does so exactly when the request
      fits what was recorded. */
  lemma CopiedExactly(z: Zone, x: Addr, size: nat)
    requires Placed(z, x)
    ensures Copied(z, x, size) == MinNat(Capacity(z, x), size) <==>
      (IsRun(z, x) && z.pages[x.page].len > 127 ==>
         if ToChar(z.pages[x.page].len) < 0 then size <= Capacity(z, x)
         else size <= ToChar(z.pages[x.page].len) * Pow2(z.k))
  {
    hide Pow2;
    if z.pages[x.page].Start? && z.pages[x.page].len > 127 {
      var len, n := z.pages[x.page].len, ToChar(z.pages[x.page].len);
      if n >= 0 {
        MulLe(n + 1, len, Pow2(z.k));
        MulPlus(n, 1, Pow2(z.k));
      }
    }
  }
}
