/** Reference model of the zone allocator: what the page tables, class lists and
    free chains mean, with the pointers abstracted away. Every operation is a
    composition of a few steps, each of which keeps the ownership invariant. */
module ZoneModel {
  import opened Powers
  import opened Sequences

  /** Block slot of page page; its class fixes how many bytes that is. */
  datatype Addr = Addr(page: nat, slot: nat)

  /** Class of the descriptor itself: blocks of 32 bytes, the only size strictly
      between sizeof(descriptor) == 24 and twice that. Descriptors of pages of this
      class sit in slot 0 of the page; all others are blocks of this class. */
  const DC: nat := 5

  datatype Page =
    | Free
    | Held                                  // busy without blocks: page 0, or a page in transit or leaked
    | Slab(cls: nat, chain: seq<nat>)       // free slots in chain order; none left means busy
    | Start(len: nat)                       // first page of a multipage block
    | Cont(start: nat)                      // its other pages
    | Stray                                 // marked multipage but part of no block

  /** Who holds a block that is not free: the caller of mem_alloc, the page whose
      descriptor it is, or nobody because its release failed. */
  datatype Owner = User | DescOf(p: nat) | Lost

  datatype Zone = Zone(
    k: nat,                       // page size is 2^k
    pages: seq<Page>,
    lists: seq<seq<nat>>,         // partly used pages of each class, in list order
    desc: map<nat, Addr>,         // where each partly used page keeps its descriptor
    own: map<Addr, Owner>)        // blocks in use

  /** First slot of a page of class c that can hold a block. */
  function Base(c: nat): nat { if c == DC then 1 else 0 }

  /** Blocks per page. */
  function Count(k: nat, c: nat): nat
    requires c <= k
  {
    Pow2(k - c)
  }

  predicate IsSlab(z: Zone, p: nat) { p < |z.pages| && z.pages[p].Slab? && z.pages[p].cls <= z.k }

  predicate Partly(z: Zone, p: nat) { IsSlab(z, p) && z.pages[p].chain != [] }

  /** Slot x.slot of slab page x.page can hold a block. */
  predicate Usable(z: Zone, x: Addr)
  {
    IsSlab(z, x.page) && Base(z.pages[x.page].cls) <= x.slot < Count(z.k, z.pages[x.page].cls)
  }

  ghost predicate InChain(z: Zone, x: Addr)
  {
    IsSlab(z, x.page) && x.slot in Elems(z.pages[x.page].chain)
  }

  predicate IsRun(z: Zone, x: Addr)
  {
    x.slot == 0 && x.page < |z.pages| && z.pages[x.page].Start?
  }

  predicate Delegated(z: Zone, p: nat)
  {
    Partly(z, p) && z.pages[p].cls != DC
  }

  ghost function Live(z: Zone): set<Addr>
  {
    set x | x in z.own && z.own[x] == User
  }

  // --- Invariant -------------------------------------------------------

  ghost predicate SlabOk(z: Zone, p: nat)
  {
    p < |z.pages| && z.pages[p].Slab? ==>
      && DC <= z.pages[p].cls < |z.lists| && z.pages[p].cls <= z.k
      && NoDup(z.pages[p].chain)
      && forall s :: s in Elems(z.pages[p].chain) ==> Base(z.pages[p].cls) <= s < Count(z.k, z.pages[p].cls)
  }

  /** List c holds exactly the partly used pages of class c. */
  ghost predicate ListOk(z: Zone, c: nat, p: nat)
  {
    c < |z.lists| ==> (p in Elems(z.lists[c]) <==> Partly(z, p) && z.pages[p].cls == c)
  }

  /** A partly used page has exactly one descriptor: in its own slot 0 if it is of
      the descriptor's class, else in a block that it alone owns. */
  ghost predicate DescOk(z: Zone, p: nat)
  {
    && (p in z.desc <==> Partly(z, p))
    && (Partly(z, p) ==>
          if z.pages[p].cls == DC then z.desc[p] == Addr(p, 0)
          else z.desc[p] in z.own && z.own[z.desc[p]] == DescOf(p))
  }

  /** A usable slot of a slab is free or owned, and not both; a multipage block is
      owned by the user until it is freed; nothing else is owned. */
  ghost predicate SlotOk(z: Zone, x: Addr)
  {
    && (x in z.own ==> (Usable(z, x) && !InChain(z, x)) || (IsRun(z, x) && z.own[x] == User))
    && (Usable(z, x) ==> InChain(z, x) || x in z.own)
    && (IsRun(z, x) ==> x in z.own)
  }

  /** A block that holds a descriptor is of the descriptor class, and is the
      descriptor of the page that owns it. */
  ghost predicate DescBlockOk(z: Zone, x: Addr)
  {
    x in z.own && z.own[x].DescOf? ==>
      && Delegated(z, z.own[x].p) && z.own[x].p in z.desc && z.desc[z.own[x].p] == x
      && Usable(z, x) && z.pages[x.page].cls == DC
  }

  /** Multipage blocks are runs of pages, none shared and none adrift. */
  ghost predicate RunOk(z: Zone, p: nat)
  {
    p < |z.pages| ==>
      && (z.pages[p].Start? ==>
            && 1 <= z.pages[p].len <= |z.pages| - p
            && forall q :: p < q < p + z.pages[p].len ==> z.pages[q] == Cont(p))
      && (z.pages[p].Cont? ==>
            var s := z.pages[p].start;
            s < p && z.pages[s].Start? && p < s + z.pages[s].len)
  }

  ghost predicate SlabsOk(z: Zone) { forall p: nat :: SlabOk(z, p) }
  ghost predicate ListsOk(z: Zone)
  {
    && (forall c :: 0 <= c < |z.lists| ==> NoDup(z.lists[c]))
    && (forall c: nat, p: nat :: ListOk(z, c, p))
  }
  ghost predicate DescsOk(z: Zone) { forall p: nat :: DescOk(z, p) }
  ghost predicate SlotsOk(z: Zone) { forall x: Addr :: SlotOk(z, x) }
  ghost predicate DescBlocksOk(z: Zone) { forall x: Addr :: DescBlockOk(z, x) }
  ghost predicate RunsOk(z: Zone) { forall p: nat :: RunOk(z, p) }

  ghost predicate Core(z: Zone)
  {
    && z.k >= 1 && |z.lists| == z.k - 1
    && |z.pages| > 0 && z.pages[0] == Held
    && SlabsOk(z) && ListsOk(z) && DescsOk(z) && SlotsOk(z) && DescBlocksOk(z) && RunsOk(z)
  }

  /** No slab is without a used block. */
  ghost predicate Occupied(z: Zone)
  {
    forall p: nat :: IsSlab(z, p) ==>
      |z.pages[p].chain| < Count(z.k, z.pages[p].cls) - Base(z.pages[p].cls)
  }

  ghost predicate Inv(z: Zone)
  {
    Core(z) && Occupied(z)
  }

  // --- Steps -----------------------------------------------------------

  function Without(s: seq<nat>, p: nat): seq<nat>
  {
    if s == [] then [] else if s[0] == p then s[1..] else [s[0]] + Without(s[1..], p)
  }

  function FullChain(k: nat, c: nat): seq<nat>
    requires c <= k && Base(c) <= Count(k, c)
  {
    seq(Count(k, c) - Base(c), i requires 0 <= i => i + Base(c))
  }

  /** A free page is taken out of circulation. */
  function Hold(z: Zone, i: nat): Zone
    requires i < |z.pages|
  {
    z.(pages := z.pages[i := Held])
  }

  /** A held page goes back. */
  function Drop(z: Zone, i: nat): Zone
    requires i < |z.pages|
  {
    z.(pages := z.pages[i := Page.Free])
  }

  ghost function Blocks(p: nat, chain: seq<nat>): set<Addr>
  {
    set s | s in Elems(chain) :: Addr(p, s)
  }

  /** Page p becomes a partly used page with the given free chain and descriptor d,
      at the end of its list. */
  ghost function Enlist(z: Zone, p: nat, c: nat, chain: seq<nat>, d: Addr): Zone
    requires p < |z.pages| && c < |z.lists|
  {
    z.(pages := z.pages[p := Slab(c, chain)],
       lists := z.lists[c := z.lists[c] + [p]],
       desc := z.desc[p := d],
       own := (z.own - Blocks(p, chain)) + if c != DC then map[d := DescOf(p)] else map[])
  }

  /** The first free block of page p is handed out and others remain. */
  function Pop(z: Zone, p: nat): Zone
    requires Partly(z, p)
  {
    var s := z.pages[p];
    z.(pages := z.pages[p := s.(chain := s.chain[1..])], own := z.own[Addr(p, s.chain[0]) := User])
  }

  /** Page p leaves its class list as view v; a delegated descriptor becomes a
      plain live block, for its owner to free. */
  function Delist(z: Zone, p: nat, v: Page): Zone
    requires Partly(z, p) && z.pages[p].cls < |z.lists| && p in z.desc
  {
    var c := z.pages[p].cls;
    z.(pages := z.pages[p := v],
       lists := z.lists[c := Without(z.lists[c], p)],
       desc := z.desc - {p},
       own := if c != DC then z.own[z.desc[p] := User] else z.own)
  }

  /** The last free block of page p is handed out. */
  function PopLast(z: Zone, p: nat): Zone
    requires Partly(z, p) && z.pages[p].cls < |z.lists| && p in z.desc
  {
    var s := z.pages[p];
    var z1 := Delist(z, p, Slab(s.cls, []));
    z1.(own := z1.own[Addr(p, s.chain[0]) := User])
  }

  function Push(z: Zone, x: Addr): Zone
    requires Partly(z, x.page)
  {
    var s := z.pages[x.page];
    z.(pages := z.pages[x.page := s.(chain := [x.slot] + s.chain)], own := z.own - {x})
  }

  function Lose(z: Zone, x: Addr): Zone
  {
    z.(own := z.own[x := Lost])
  }

  lemma {:induction false} ElemsWithout(s: seq<nat>, p: nat)
    requires NoDup(s)
    ensures NoDup(Without(s, p)) && Elems(Without(s, p)) == Elems(s) - {p}
  {
    if s != [] {
      ElemsTail(s);
      if s[0] != p {
        ElemsWithout(s[1..], p);
        ElemsCons(s[0], Without(s[1..], p));
      }
    }
  }

  lemma BlocksOf(p: nat, chain: seq<nat>)
    ensures forall x: Addr :: x in Blocks(p, chain) <==> x.page == p && x.slot in Elems(chain)
  {
    forall x: Addr ensures x in Blocks(p, chain) <==> x.page == p && x.slot in Elems(chain) {
      if x.page == p && x.slot in Elems(chain) { assert x == Addr(p, x.slot); }
    }
  }

  // --- Every step keeps the invariant ----------------------------------

  /** Changing one page that is in no multipage block leaves those blocks alone. */
  lemma RunsKept(z: Zone, z': Zone, p: nat)
    requires RunsOk(z) && p < |z.pages| && !z.pages[p].Start? && !z.pages[p].Cont?
    requires |z'.pages| == |z.pages| && !z'.pages[p].Start? && !z'.pages[p].Cont?
    requires forall q :: 0 <= q < |z.pages| && q != p ==> z'.pages[q] == z.pages[q]
    ensures RunsOk(z')
  {
    forall q: nat ensures RunOk(z', q) { assert RunOk(z, q); }
  }

  /** Moving a page between free and held matters to nobody. */
  lemma IdleCore(z: Zone, z': Zone, i: nat, v: Page)
    requires Core(z) && 0 < i < |z.pages| && (z.pages[i].Free? || z.pages[i].Held?) && (v.Free? || v.Held?)
    requires z' == z.(pages := z.pages[i := v])
    ensures Core(z')
  {
    hide Elems, NoDup;
    forall q: nat ensures SlabOk(z', q) { assert SlabOk(z, q); }
    forall c: nat, q: nat ensures ListOk(z', c, q) { assert ListOk(z, c, q); }
    forall q: nat ensures DescOk(z', q) { assert DescOk(z, q); }
    forall x: Addr ensures SlotOk(z', x) { assert SlotOk(z, x); }
    forall x: Addr ensures DescBlockOk(z', x) { assert DescBlockOk(z, x); }
    RunsKept(z, z', i);
  }

  lemma PopCore(z: Zone, p: nat)
    requires Core(z) && Partly(z, p) && |z.pages[p].chain| >= 2
    ensures Core(Pop(z, p))
  {
    hide Elems, NoDup;
    var z', chain := Pop(z, p), z.pages[p].chain;
    assert SlabOk(z, p);
    ElemsTail(chain);
    ElemsAt(chain, 0);
    assert SlotOk(z, Addr(p, chain[0]));
    forall q: nat ensures SlabOk(z', q) { assert SlabOk(z, q); }
    forall c: nat, q: nat ensures ListOk(z', c, q) { assert ListOk(z, c, q); }
    forall q: nat ensures DescOk(z', q) { assert DescOk(z, q); }
    forall x: Addr ensures SlotOk(z', x) { assert SlotOk(z, x); }
    forall x: Addr ensures DescBlockOk(z', x) { assert DescBlockOk(z, x); }
    RunsKept(z, z', p);
  }

  lemma PushCore(z: Zone, x: Addr)
    requires Core(z) && Partly(z, x.page) && Usable(z, x) && x in z.own && z.own[x] == User
    ensures Core(Push(z, x))
  {
    hide Elems, NoDup;
    var z' := Push(z, x);
    assert SlabOk(z, x.page) && SlotOk(z, x);
    ElemsCons(x.slot, z.pages[x.page].chain);
    forall q: nat ensures SlabOk(z', q) { assert SlabOk(z, q); }
    forall c: nat, q: nat ensures ListOk(z', c, q) { assert ListOk(z, c, q); }
    forall q: nat ensures DescOk(z', q) { assert DescOk(z, q); }
    forall y: Addr ensures SlotOk(z', y) { assert SlotOk(z, y); }
    forall y: Addr ensures DescBlockOk(z', y) { assert DescBlockOk(z, y); }
    RunsKept(z, z', x.page);
  }

  lemma LoseCore(z: Zone, x: Addr)
    requires Core(z) && Usable(z, x) && x in z.own && z.own[x] == User
    ensures Core(Lose(z, x))
  {
    hide Elems, NoDup;
    var z' := Lose(z, x);
    forall q: nat ensures SlabOk(z', q) { assert SlabOk(z, q); }
    forall c: nat, q: nat ensures ListOk(z', c, q) { assert ListOk(z, c, q); }
    forall q: nat ensures DescOk(z', q) { assert DescOk(z, q); }
    forall y: Addr ensures SlotOk(z', y) { assert SlotOk(z, y); }
    forall y: Addr ensures DescBlockOk(z', y) { assert DescBlockOk(z, y); }
    RunsKept(z, z', x.page);
  }

  /** What it takes to make p a partly used page: a fresh page contributes all of
      its slots, a busy one those blocks that its user gives back. */
  ghost predicate CanEnlist(z: Zone, p: nat, c: nat, chain: seq<nat>, d: Addr)
  {
    && 0 < p < |z.pages| && DC <= c < |z.lists| && c <= z.k
    && chain != [] && NoDup(chain)
    && (forall s :: s in Elems(chain) ==> Base(c) <= s < Count(z.k, c))
    && (|| (z.pages[p] == Held && forall s :: Base(c) <= s < Count(z.k, c) ==> s in Elems(chain))
        || (z.pages[p] == Slab(c, [])
            && forall s :: s in Elems(chain) ==> Addr(p, s) in z.own && z.own[Addr(p, s)] == User))
    && (if c == DC then d == Addr(p, 0)
        else d in z.own && z.own[d] == User && Usable(z, d) && z.pages[d.page].cls == DC && d.page != p)
  }

  lemma EnlistSlots(z: Zone, p: nat, c: nat, chain: seq<nat>, d: Addr)
    requires Core(z) && CanEnlist(z, p, c, chain, d)
    ensures SlotsOk(Enlist(z, p, c, chain, d)) && DescBlocksOk(Enlist(z, p, c, chain, d))
  {
    hide Elems, NoDup, Blocks;
    var z' := Enlist(z, p, c, chain, d);
    ElemsNil();
    BlocksOf(p, chain);
    forall x: Addr ensures SlotOk(z', x) { assert SlotOk(z, x); }
    forall x: Addr ensures DescBlockOk(z', x) { assert DescBlockOk(z, x); }
  }

  lemma EnlistCore(z: Zone, p: nat, c: nat, chain: seq<nat>, d: Addr)
    requires Core(z) && CanEnlist(z, p, c, chain, d)
    ensures Core(Enlist(z, p, c, chain, d))
  {
    hide Elems, NoDup, Blocks, SlotsOk, DescBlocksOk;
    var z' := Enlist(z, p, c, chain, d);
    ElemsNil();
    assert ListOk(z, c, p);
    ElemsAppend(z.lists[c], p);
    BlocksOf(p, chain);
    EnlistSlots(z, p, c, chain, d);
    forall q: nat ensures SlabOk(z', q) { assert SlabOk(z, q); }
    forall e: nat, q: nat ensures ListOk(z', e, q) { assert ListOk(z, e, q); }
    SlotsApply(z);
    forall q: nat ensures DescOk(z', q) { assert DescOk(z, q); if q in z.desc { assert SlotOk(z, z.desc[q]); } }
    RunsKept(z, z', p);
  }

  lemma SlotsApply(z: Zone)
    requires Core(z)
    ensures forall x: Addr :: SlotOk(z, x)
  {
  }

  /** A page all of whose slots are free leaves its list. */
  lemma CloseCore(z: Zone, p: nat)
    requires Core(z) && Partly(z, p)
    requires forall s :: Base(z.pages[p].cls) <= s < Count(z.k, z.pages[p].cls) ==> s in Elems(z.pages[p].chain)
    ensures z.pages[p].cls < |z.lists| && p in z.desc
    ensures Core(Delist(z, p, Held))
  {
    hide Elems, NoDup, Without;
    assert SlabOk(z, p) && DescOk(z, p) && SlotOk(z, z.desc[p]) && DescBlockOk(z, z.desc[p]);
    var z' := Delist(z, p, Held);
    ElemsNil();
    ElemsWithout(z.lists[z.pages[p].cls], p);
    forall q: nat ensures SlabOk(z', q) { assert SlabOk(z, q); }
    forall e: nat, q: nat ensures ListOk(z', e, q) { assert ListOk(z, e, q); }
    forall q: nat ensures DescOk(z', q) { assert DescOk(z, q); }
    forall x: Addr ensures SlotOk(z', x) { assert SlotOk(z, x); }
    forall x: Addr ensures DescBlockOk(z', x) { assert DescBlockOk(z, x) && SlotOk(z, x); }
    RunsKept(z, z', p);
  }

  lemma PopLastSlots(z: Zone, p: nat)
    requires Core(z) && Partly(z, p) && |z.pages[p].chain| == 1
    ensures z.pages[p].cls < |z.lists| && p in z.desc
    ensures SlotsOk(PopLast(z, p)) && DescBlocksOk(PopLast(z, p))
  {
    hide Elems, NoDup, Without;
    var chain := z.pages[p].chain;
    assert SlabOk(z, p) && DescOk(z, p) && SlotOk(z, z.desc[p]) && DescBlockOk(z, z.desc[p]);
    var z' := PopLast(z, p);
    ElemsNil();
    ElemsOne(chain);
    assert SlotOk(z, Addr(p, chain[0]));
    forall x: Addr ensures SlotOk(z', x) { assert SlotOk(z, x); }
    forall x: Addr ensures DescBlockOk(z', x) { assert DescBlockOk(z, x); }
  }

  lemma PopLastCore(z: Zone, p: nat)
    requires Core(z) && Partly(z, p) && |z.pages[p].chain| == 1
    ensures z.pages[p].cls < |z.lists| && p in z.desc
    ensures Core(PopLast(z, p))
  {
    hide Elems, NoDup, Without, DescBlocksOk;
    var chain := z.pages[p].chain;
    assert SlabOk(z, p) && DescOk(z, p) && SlotOk(z, z.desc[p]);
    var z' := PopLast(z, p);
    ElemsNil();
    ElemsOne(chain);
    assert SlotOk(z, Addr(p, chain[0]));
    ElemsWithout(z.lists[z.pages[p].cls], p);
    forall q: nat ensures SlabOk(z', q) { assert SlabOk(z, q); }
    forall e: nat, q: nat ensures ListOk(z', e, q) { assert ListOk(z, e, q); }
    forall q: nat ensures DescOk(z', q) { assert DescOk(z, q); }
    PopLastSlots(z, p);
    RunsKept(z, z', p);
  }

  // --- Multipage blocks ------------------------------------------------

  /** num free pages from p on become one multipage block. */
  function TakeRun(z: Zone, p: nat, num: nat): Zone
    requires 0 < num && p + num <= |z.pages|
  {
    z.(pages := seq(|z.pages|, q requires 0 <= q < |z.pages| =>
                 if q == p then Start(num) else if p < q < p + num then Cont(p) else z.pages[q]),
       own := z.own[Addr(p, 0) := User])
  }

  /** A number kept in the signed byte page_classes[p]. */
  function ToChar(n: nat): (r: int)
    ensures n <= 127 ==> r == n
    ensures -128 <= r <= 127 && (n - r) % 256 == 0
  {
    if n % 256 < 128 then n % 256 else n % 256 - 256
  }

  /** How many pages of a block of len pages come back when it is freed. */
  function Returned(len: nat): (n: nat)
    ensures n == len <==> len <= 127
    ensures n <= len
  {
    if ToChar(len) > 0 then ToChar(len) else 0
  }

  function Given(z: Zone, p: nat, q: nat): Page
    requires p < |z.pages| && z.pages[p].Start? && q < |z.pages|
  {
    var len := z.pages[p].len;
    if p <= q < p + Returned(len) then Page.Free else if p <= q < p + len then Stray else z.pages[q]
  }

  /** The block at p is freed; pages beyond the recorded length stay behind. */
  function GiveRun(z: Zone, p: nat): Zone
    requires p < |z.pages| && z.pages[p].Start?
  {
    z.(pages := seq(|z.pages|, q requires 0 <= q < |z.pages| => Given(z, p, q)), own := z.own - {Addr(p, 0)})
  }

  lemma TakeRunRuns(z: Zone, p: nat, num: nat)
    requires RunsOk(z) && 0 < num && p + num <= |z.pages|
    requires forall q :: p <= q < p + num ==> z.pages[q] == Page.Free
    ensures RunsOk(TakeRun(z, p, num))
  {
    var z' := TakeRun(z, p, num);
    forall r | 0 <= r < |z.pages|
      ensures z'.pages[r] == if r == p then Start(num) else if p < r < p + num then Cont(p) else z.pages[r]
    {}
    forall q: nat ensures RunOk(z', q) {
      if q < |z.pages| && !(p <= q < p + num) { OtherRun(z, z', p, num, q); }
    }
  }

  /** Blocks elsewhere lie apart from pages that were free. */
  lemma OtherRun(z: Zone, z': Zone, p: nat, num: nat, q: nat)
    requires RunsOk(z) && q < |z.pages| == |z'.pages| && p + num <= |z.pages| && !(p <= q < p + num)
    requires forall r :: p <= r < p + num ==> z.pages[r] == Page.Free
    requires forall r :: 0 <= r < |z.pages| && !(p <= r < p + num) ==> z'.pages[r] == z.pages[r]
    ensures RunOk(z', q)
  {
    assert RunOk(z, q);
    if z.pages[q].Start? {
      forall r | q < r < q + z.pages[q].len ensures z'.pages[r] == Cont(q) { assert z.pages[r] == Cont(q); }
    } else if z.pages[q].Cont? {
      var s := z.pages[q].start;
      assert z.pages[s].Start?;
      assert z'.pages[s] == z.pages[s];
    }
  }

  lemma TakeRunCore(z: Zone, p: nat, num: nat)
    requires Core(z) && 0 < num && p + num <= |z.pages|
    requires forall q :: p <= q < p + num ==> z.pages[q] == Page.Free
    ensures Core(TakeRun(z, p, num))
  {
    hide Elems, NoDup, RunsOk;
    var z' := TakeRun(z, p, num);
    forall q: nat ensures SlabOk(z', q) { assert SlabOk(z, q); }
    forall e: nat, q: nat ensures ListOk(z', e, q) { assert ListOk(z, e, q); }
    forall q: nat ensures DescOk(z', q) { assert DescOk(z, q); if q in z.desc { assert SlotOk(z, z.desc[q]); } }
    forall x: Addr ensures SlotOk(z', x) { assert SlotOk(z, x); }
    forall x: Addr ensures DescBlockOk(z', x) { assert DescBlockOk(z, x); }
    TakeRunRuns(z, p, num);
  }

  lemma GiveRunRuns(z: Zone, p: nat)
    requires RunsOk(z) && p < |z.pages| && z.pages[p].Start?
    ensures RunsOk(GiveRun(z, p))
  {
    var z' := GiveRun(z, p);
    assert RunOk(z, p);
    assert forall q :: 0 <= q < |z.pages| ==> z'.pages[q] == Given(z, p, q);
    forall q: nat ensures RunOk(z', q) { assert RunOk(z, q); }
  }

  lemma GiveRunCore(z: Zone, p: nat)
    requires Core(z) && p < |z.pages| && z.pages[p].Start?
    ensures Core(GiveRun(z, p))
  {
    hide Elems, NoDup;
    var z' := GiveRun(z, p);
    assert RunOk(z, p);
    assert forall q :: 0 <= q < |z.pages| ==> z'.pages[q] == Given(z, p, q);
    assert SlotOk(z, Addr(p, 0));
    forall q: nat ensures SlabOk(z', q) { assert SlabOk(z, q); }
    forall e: nat, q: nat ensures ListOk(z', e, q) { assert ListOk(z, e, q); }
    forall q: nat ensures DescOk(z', q) { assert DescOk(z, q); if q in z.desc { assert SlotOk(z, z.desc[q]); } }
    forall x: Addr ensures SlotOk(z', x) { assert SlotOk(z, x); }
    forall x: Addr ensures DescBlockOk(z', x) { assert DescBlockOk(z, x) && SlotOk(z, x); }
    GiveRunRuns(z, p);
  }
}
