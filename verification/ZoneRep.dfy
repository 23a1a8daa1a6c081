/** How the zone allocator's tables, descriptors and in-block links represent the
    reference model. */
module ZoneRep {
  import opened Options
  import opened Sequences
  import opened ZoneModel
  import opened ZoneSizes
  import opened ZoneSpec

  /** An entry of mi.descriptors: three reserved pointer values or a descriptor. */
  datatype PageState = StateFree | StateBusy | StateMultipage | StateDesc(at: Addr)

  /** First word of a block: a descriptor's free_count or a free block's link. */
  datatype Word = Num(n: int) | Link(to: Option<Addr>)

  /** The first 24 bytes of a block in the layout of a descriptor. A free block's
      link takes up the first word only. */
  datatype Cell = Cell(w0: Word, index: nat, cls: nat, block: Option<Addr>, next: Option<Addr>, prev: Option<Addr>)

  /** The allocator's whole state as a value. */
  datatype State = State(
    descriptors: seq<PageState>,
    classes: seq<Option<Addr>>,
    pageClasses: seq<int>,
    cells: map<Addr, Cell>)

  /** Memory that was never written reads as anything; this stands for it. */
  const BLANK := Cell(Num(0), 0, 0, None, None, None)

  function Peek(cells: map<Addr, Cell>, a: Addr): Cell
  {
    if a in cells then cells[a] else BLANK
  }

  /** Descriptor address of the j-th page of list c, or null past either end. */
  function DescAt(z: Zone, c: nat, j: int): Option<Addr>
    requires c < |z.lists|
  {
    if 0 <= j < |z.lists[c]| && z.lists[c][j] in z.desc then Some(z.desc[z.lists[c][j]]) else None
  }

  function ChainAt(p: nat, chain: seq<nat>, j: nat): Option<Addr>
  {
    if j < |chain| then Some(Addr(p, chain[j])) else None
  }

  /** Table entries of page p; pages in xs are in transit and only known not to be
      free. */
  ghost predicate PageRep(s: State, z: Zone, xs: set<nat>, p: nat)
    requires |s.descriptors| == |s.pageClasses| == |z.pages|
  {
    p < |z.pages| ==>
      match z.pages[p]
      case Free => p !in xs && s.descriptors[p] == StateFree
      case Held => if p in xs then s.descriptors[p].StateDesc? else s.descriptors[p] == StateBusy
      case Slab(c, chain) =>
        && s.pageClasses[p] == c
        && (if p in xs then s.descriptors[p] != StateFree && s.descriptors[p] != StateMultipage
            else s.descriptors[p] == if chain != [] && p in z.desc then StateDesc(z.desc[p]) else StateBusy)
      case Start(len) => s.descriptors[p] == StateMultipage && s.pageClasses[p] == ToChar(len)
      case Cont(_) => s.descriptors[p] == StateMultipage && s.pageClasses[p] == -1
      case Stray => s.descriptors[p] == StateMultipage
  }

  /** The list head of class c; heads of classes in xc are about to be written. */
  ghost predicate HeadRep(s: State, z: Zone, xc: set<nat>, c: nat)
    requires |s.classes| == |z.lists|
  {
    DC <= c < |z.lists| && c !in xc ==> s.classes[c] == DescAt(z, c, 0)
  }

  /** The descriptor of the j-th page of list c. */
  ghost predicate NodeRep(s: State, z: Zone, c: nat, j: nat)
  {
    c < |z.lists| && j < |z.lists[c]| && z.lists[c][j] in z.desc && Partly(z, z.lists[c][j]) ==>
      var p := z.lists[c][j];
      var chain := z.pages[p].chain;
      Peek(s.cells, z.desc[p]) ==
        Cell(Num(|chain|), p, c, Some(Addr(p, chain[0])), DescAt(z, c, j + 1), DescAt(z, c, j - 1))
  }

  /** The link in the j-th free block of page p. */
  ghost predicate LinkRep(s: State, z: Zone, p: nat, j: nat)
  {
    IsSlab(z, p) && j < |z.pages[p].chain| ==>
      Peek(s.cells, Addr(p, z.pages[p].chain[j])).w0 == Link(ChainAt(p, z.pages[p].chain, j + 1))
  }

  ghost predicate Rep(s: State, z: Zone, xs: set<nat>, xc: set<nat>)
  {
    && |s.descriptors| == |s.pageClasses| == |z.pages| && |s.classes| == |z.lists|
    && (forall p: nat :: PageRep(s, z, xs, p))
    && (forall c: nat :: HeadRep(s, z, xc, c))
    && (forall c: nat, j: nat :: NodeRep(s, z, c, j))
    && (forall p: nat, j: nat :: LinkRep(s, z, p, j))
  }

  // --- Descriptors and free blocks never share memory ------------------

  lemma DescIsNoFreeBlock(z: Zone, p: nat, q: nat, s: nat)
    requires Core(z) && p in z.desc && IsSlab(z, q) && s in Elems(z.pages[q].chain)
    ensures z.desc[p] != Addr(q, s)
  {
    hide Elems;
    assert DescOk(z, p) && SlabOk(z, q);
    assert SlotOk(z, z.desc[p]);
  }

  lemma DescsDistinct(z: Zone, p: nat, q: nat)
    requires Core(z) && p in z.desc && q in z.desc && z.desc[p] == z.desc[q]
    ensures p == q
  {
    assert DescOk(z, p) && DescOk(z, q);
    assert DescBlockOk(z, z.desc[p]) && DescBlockOk(z, z.desc[q]);
    assert SlotOk(z, z.desc[p]) && SlotOk(z, z.desc[q]);
  }

  /** Where page p stands in its list. */
  lemma Position(z: Zone, p: nat) returns (j: nat)
    requires Core(z) && Partly(z, p)
    ensures z.pages[p].cls < |z.lists| && p in z.desc
    ensures j < |z.lists[z.pages[p].cls]| && z.lists[z.pages[p].cls][j] == p
  {
    assert SlabOk(z, p) && DescOk(z, p) && ListOk(z, z.pages[p].cls, p);
    assert p in Elems(z.lists[z.pages[p].cls]);
    j :| 0 <= j < |z.lists[z.pages[p].cls]| && z.lists[z.pages[p].cls][j] == p;
  }

  lemma Listed(z: Zone, c: nat, j: nat)
    requires Core(z) && c < |z.lists| && j < |z.lists[c]|
    ensures Partly(z, z.lists[c][j]) && z.pages[z.lists[c][j]].cls == c && z.lists[c][j] in z.desc
    ensures DescAt(z, c, j) == Some(z.desc[z.lists[c][j]])
  {
    hide Elems;
    ElemsAt(z.lists[c], j);
    assert ListOk(z, c, z.lists[c][j]) && DescOk(z, z.lists[c][j]);
  }

  // --- One step at a time ----------------------------------------------

  lemma HoldRep(s: State, z: Zone, xs: set<nat>, xc: set<nat>, i: nat)
    requires Rep(s, z, xs, xc) && i < |z.pages| && z.pages[i].Free?
    ensures Rep(s.(descriptors := s.descriptors[i := StateBusy]), Hold(z, i), xs, xc)
  {
    var s', z' := s.(descriptors := s.descriptors[i := StateBusy]), Hold(z, i);
    assert PageRep(s, z, xs, i);
    forall p: nat ensures PageRep(s', z', xs, p) { assert PageRep(s, z, xs, p); }
    forall c: nat ensures HeadRep(s', z', xc, c) { assert HeadRep(s, z, xc, c); }
    forall c: nat, j: nat ensures NodeRep(s', z', c, j) { assert NodeRep(s, z, c, j); }
    forall p: nat, j: nat ensures LinkRep(s', z', p, j) { assert LinkRep(s, z, p, j); }
  }

  /** mem_alloc's two writes to the descriptor when other free blocks remain. */
  lemma PopRep(s: State, z: Zone, xs: set<nat>, xc: set<nat>, p: nat)
    requires Core(z) && Rep(s, z, xs, xc) && Partly(z, p) && |z.pages[p].chain| >= 2 && p in z.desc
    ensures var chain := z.pages[p].chain;
      var d := Peek(s.cells, z.desc[p]).(w0 := Num(|chain| - 1), block := Some(Addr(p, chain[1])));
      Rep(s.(cells := s.cells[z.desc[p] := d]), Pop(z, p), xs, xc)
  {
    hide Elems, NoDup;
    var chain := z.pages[p].chain;
    var d := Peek(s.cells, z.desc[p]).(w0 := Num(|chain| - 1), block := Some(Addr(p, chain[1])));
    var s', z' := s.(cells := s.cells[z.desc[p] := d]), Pop(z, p);
    forall q: nat ensures PageRep(s', z', xs, q) { assert PageRep(s, z, xs, q); }
    forall c: nat ensures HeadRep(s', z', xc, c) { assert HeadRep(s, z, xc, c); }
    forall c: nat, j: nat ensures NodeRep(s', z', c, j) {
      assert NodeRep(s, z, c, j);
      if c < |z.lists| && j < |z.lists[c]| {
        Listed(z, c, j);
        if z.lists[c][j] != p && z.desc[z.lists[c][j]] == z.desc[p] { DescsDistinct(z, z.lists[c][j], p); }
      }
    }
    forall q: nat, j: nat ensures LinkRep(s', z', q, j) {
      assert LinkRep(s, z, q, j) && LinkRep(s, z, q, j + 1);
      if IsSlab(z', q) && j < |z'.pages[q].chain| {
        var i := if q == p then j + 1 else j;
        ElemsAt(z.pages[q].chain, i);
        DescIsNoFreeBlock(z, p, q, z.pages[q].chain[i]);
      }
    }
  }

  /** mem_free's writes when the page is partly used. */
  lemma PushRep(s: State, z: Zone, xs: set<nat>, xc: set<nat>, x: Addr)
    requires Core(z) && Rep(s, z, xs, xc) && Partly(z, x.page) && Usable(z, x) && x in z.own && z.own[x] == User
    requires x.page in z.desc
    ensures Peek(s.cells, z.desc[x.page]).block.Some?
    ensures var d := z.desc[x.page];
      var cells1 := s.cells[x := Peek(s.cells, x).(w0 := Link(Peek(s.cells, d).block))];
      var n := |z.pages[x.page].chain|;
      Rep(s.(cells := cells1[d := Peek(s.cells, d).(w0 := Num(n + 1), block := Some(x))]), Push(z, x), xs, xc)
  {
    hide Elems, NoDup;
    var p, d := x.page, z.desc[x.page];
    assert DescOk(z, p) && SlotOk(z, x) && SlotOk(z, d);
    var j0 := Position(z, p);
    assert NodeRep(s, z, z.pages[p].cls, j0);
    var cells1 := s.cells[x := Peek(s.cells, x).(w0 := Link(Peek(s.cells, d).block))];
    var s' := s.(cells := cells1[d := Peek(s.cells, d).(w0 := Num(|z.pages[p].chain| + 1), block := Some(x))]);
    var z' := Push(z, x);
    assert SlabOk(z, p);
    forall q | q in z.desc ensures z.desc[q] != x { assert DescOk(z, q); }
    forall q: nat ensures PageRep(s', z', xs, q) { assert PageRep(s, z, xs, q); }
    forall c: nat ensures HeadRep(s', z', xc, c) { assert HeadRep(s, z, xc, c); }
    forall c: nat, j: nat ensures NodeRep(s', z', c, j) {
      assert NodeRep(s, z, c, j);
      if c < |z.lists| && j < |z.lists[c]| {
        Listed(z, c, j);
        if z.lists[c][j] != p && z.desc[z.lists[c][j]] == d { DescsDistinct(z, z.lists[c][j], p); }
      }
    }
    forall q: nat, j: nat ensures LinkRep(s', z', q, j) {
      if q == p && j > 0 { assert LinkRep(s, z, q, j - 1); } else { assert LinkRep(s, z, q, j); }
      if IsSlab(z', q) && j < |z'.pages[q].chain| && !(q == p && j == 0) {
        var i := if q == p then j - 1 else j;
        ElemsAt(z.pages[q].chain, i);
        DescIsNoFreeBlock(z, p, q, z.pages[q].chain[i]);
      }
    }
  }

  /** remove_from_class's writes to the neighbours of page p at position j. */
  ghost predicate Unlinked(s: State, s': State, z: Zone, c: nat, j: nat, d: Addr)
    requires c < |z.lists|
  {
    && s'.descriptors == s.descriptors && s'.pageClasses == s.pageClasses && s'.classes == s.classes
    && (forall a: Addr :: a != d ==> Peek(s'.cells, a) == Bypassed(s, z, c, j, a))
  }

  /** Cell a once the neighbours of position j in list c point past it. */
  function Bypassed(s: State, z: Zone, c: nat, j: nat, a: Addr): Cell
    requires c < |z.lists|
  {
    if DescAt(z, c, j + 1) == Some(a) then Peek(s.cells, a).(prev := DescAt(z, c, j - 1))
    else if DescAt(z, c, j - 1) == Some(a) then Peek(s.cells, a).(next := DescAt(z, c, j + 1))
    else Peek(s.cells, a)
  }

  lemma HeadAside(l: seq<nat>, j: nat)
    requires 0 < j < |l|
    ensures l[..j] + l[j + 1..] == [l[0]] + (l[1..][..j - 1] + l[1..][j..])
  {
    assert l[..j] == [l[0]] + l[1..][..j - 1];
    assert l[j + 1..] == l[1..][j..];
  }

  lemma {:induction false} WithoutAt(l: seq<nat>, j: nat)
    requires j < |l| && NoDup(l)
    ensures Without(l, l[j]) == l[..j] + l[j + 1..]
  {
    if j > 0 {
      assert l[1..][j - 1] == l[j] && l[0] != l[j];
      WithoutAt(l[1..], j - 1);
      HeadAside(l, j);
    }
  }

  lemma DescAtWithout(z: Zone, z': Zone, c: nat, j: nat, i: int)
    requires Core(z) && c < |z.lists| && j < |z.lists[c]| && |z'.lists| == |z.lists|
    requires z'.lists[c] == Without(z.lists[c], z.lists[c][j]) && z'.desc == z.desc - {z.lists[c][j]}
    ensures DescAt(z', c, i) == DescAt(z, c, if i < j then i else i + 1)
  {
    hide Elems, Without;
    WithoutAt(z.lists[c], j);
    if 0 <= i < |z'.lists[c]| {
      Listed(z, c, if i < j then i else i + 1);
    }
  }

  lemma DescAtOther(z: Zone, z': Zone, p: nat, c: nat, i: int)
    requires Core(z) && c < |z.lists| && |z'.lists| == |z.lists|
    requires Partly(z, p) && z.pages[p].cls != c && z'.lists[c] == z.lists[c] && z'.desc == z.desc - {p}
    ensures DescAt(z', c, i) == DescAt(z, c, i)
  {
    hide Elems;
    if 0 <= i < |z.lists[c]| { Listed(z, c, i); }
  }

  lemma UnlinkRep(s: State, s': State, z: Zone, xs: set<nat>, xc: set<nat>, p: nat, j: nat, v: Page)
    requires Core(z) && Rep(s, z, xs, xc) && Partly(z, p) && p in z.desc && z.pages[p].cls < |z.lists|
    requires j < |z.lists[z.pages[p].cls]| && z.lists[z.pages[p].cls][j] == p
    requires Unlinked(s, s', z, z.pages[p].cls, j, z.desc[p])
    requires v == Held || v == Slab(z.pages[p].cls, [])
    requires s.descriptors[p] == StateDesc(z.desc[p])
    ensures Rep(s', Delist(z, p, v), xs + {p}, xc + {z.pages[p].cls})
  {
    hide Elems, NoDup, Without, Unlinked;
    var c0 := z.pages[p].cls;
    var z' := Delist(z, p, v);
    UnlinkedTables(s, s', z, c0, j, z.desc[p]);
    assert PageRep(s, z, xs, p);
    forall q: nat ensures PageRep(s', z', xs + {p}, q) { assert PageRep(s, z, xs, q); }
    forall c: nat ensures HeadRep(s', z', xc + {c0}, c) {
      assert HeadRep(s, z, xc, c);
      if c < |z.lists| && c != c0 { DescAtOther(z, z', p, c, 0); }
    }
    forall c: nat, i: nat ensures NodeRep(s', z', c, i) { UnlinkNode(s, s', z, xs, xc, p, j, v, c, i); }
    forall q: nat, i: nat ensures LinkRep(s', z', q, i) {
      assert LinkRep(s, z, q, i);
      if IsSlab(z', q) && i < |z'.pages[q].chain| {
        ElemsAt(z.pages[q].chain, i);
        UnlinkedElsewhere(s, s', z, c0, j, p, q, z.pages[q].chain[i]);
      }
    }
  }

  lemma UnlinkedTables(s: State, s': State, z: Zone, c: nat, j: nat, d: Addr)
    requires c < |z.lists| && Unlinked(s, s', z, c, j, d)
    ensures s'.descriptors == s.descriptors && s'.pageClasses == s.pageClasses && s'.classes == s.classes
  {
  }

  /** Free blocks are untouched. */
  lemma UnlinkedElsewhere(s: State, s': State, z: Zone, c: nat, j: nat, p: nat, q: nat, slot: nat)
    requires Core(z) && c < |z.lists| && j < |z.lists[c]| && p in z.desc && Unlinked(s, s', z, c, j, z.desc[p])
    requires IsSlab(z, q) && slot in Elems(z.pages[q].chain)
    ensures Peek(s'.cells, Addr(q, slot)) == Peek(s.cells, Addr(q, slot))
  {
    hide Elems;
    DescIsNoFreeBlock(z, p, q, slot);
    if j + 1 < |z.lists[c]| { Listed(z, c, j + 1); DescIsNoFreeBlock(z, z.lists[c][j + 1], q, slot); }
    if j > 0 { Listed(z, c, j - 1); DescIsNoFreeBlock(z, z.lists[c][j - 1], q, slot); }
  }

  lemma UnlinkNode(s: State, s': State, z: Zone, xs: set<nat>, xc: set<nat>, p: nat, j: nat, v: Page, c: nat, i: nat)
    requires Core(z) && Rep(s, z, xs, xc) && Partly(z, p) && p in z.desc && z.pages[p].cls < |z.lists|
    requires j < |z.lists[z.pages[p].cls]| && z.lists[z.pages[p].cls][j] == p
    requires Unlinked(s, s', z, z.pages[p].cls, j, z.desc[p])
    requires v == Held || v == Slab(z.pages[p].cls, [])
    ensures NodeRep(s', Delist(z, p, v), c, i)
  {
    hide Elems, NoDup, Without;
    var c0 := z.pages[p].cls;
    var z' := Delist(z, p, v);
    if c < |z'.lists| && i < |z'.lists[c]| {
      var i0 := i;
      if c == c0 {
        WithoutAt(z.lists[c0], j);
        i0 := if i < j then i else i + 1;
        DescAtWithout(z, z', c0, j, i + 1);
        DescAtWithout(z, z', c0, j, i - 1);
        ListDistinct(z, c0, i0, j);
      } else {
        DescAtOther(z, z', p, c, i + 1);
        DescAtOther(z, z', p, c, i - 1);
      }
      assert NodeRep(s, z, c, i0);
      Listed(z, c, i0);
      var q := z.lists[c][i0];
      if z.desc[q] == z.desc[p] { DescsDistinct(z, q, p); }
      NeighbourIs(z, c0, j + 1, c, i0);
      if j > 0 { NeighbourIs(z, c0, j - 1, c, i0); }
    }
  }

  lemma ListDistinct(z: Zone, c: nat, i: nat, j: nat)
    requires Core(z) && c < |z.lists| && i < |z.lists[c]| && j < |z.lists[c]|
    ensures z.lists[c][i] == z.lists[c][j] ==> i == j
  {
  }

  /** Only one place in all lists has a given descriptor. */
  lemma NeighbourIs(z: Zone, c: nat, j: nat, e: nat, i: nat)
    requires Core(z) && c < |z.lists| && e < |z.lists| && i < |z.lists[e]|
    ensures DescAt(z, c, j) == DescAt(z, e, i) ==> c == e && i == j
  {
    hide Elems, NoDup;
    Listed(z, e, i);
    if j < |z.lists[c]| {
      Listed(z, c, j);
      if DescAt(z, c, j) == DescAt(z, e, i) {
        DescsDistinct(z, z.lists[c][j], z.lists[e][i]);
        ListDistinct(z, c, i, j);
      }
    }
  }

  /** The list head and the page entry of a delisted page are brought up to date. */
  lemma SettleRep(s: State, z: Zone, xs: set<nat>, xc: set<nat>, p: nat, c: nat)
    requires Rep(s, z, xs, xc) && p < |z.pages| && DC <= c < |z.lists|
    requires z.pages[p] == Held || z.pages[p] == Slab(c, [])
    ensures var s' := s.(descriptors := s.descriptors[p := StateBusy], classes := s.classes[c := DescAt(z, c, 0)]);
      Rep(s', z, xs - {p}, xc - {c})
  {
    var s' := s.(descriptors := s.descriptors[p := StateBusy], classes := s.classes[c := DescAt(z, c, 0)]);
    assert PageRep(s, z, xs, p);
    forall q: nat ensures PageRep(s', z, xs - {p}, q) { assert PageRep(s, z, xs, q); }
    forall e: nat ensures HeadRep(s', z, xc - {c}, e) { assert HeadRep(s, z, xc, e); }
    forall e: nat, i: nat ensures NodeRep(s', z, e, i) { assert NodeRep(s, z, e, i); }
    forall q: nat, i: nat ensures LinkRep(s', z, q, i) { assert LinkRep(s, z, q, i); }
  }

  lemma HeadSettled(s: State, z: Zone, xs: set<nat>, xc: set<nat>, c: nat)
    requires Rep(s, z, xs, xc) && DC <= c < |z.lists|
    ensures Rep(s.(classes := s.classes[c := DescAt(z, c, 0)]), z, xs, xc - {c})
  {
    var s' := s.(classes := s.classes[c := DescAt(z, c, 0)]);
    forall q: nat ensures PageRep(s', z, xs, q) { assert PageRep(s, z, xs, q); }
    forall e: nat ensures HeadRep(s', z, xc - {c}, e) { assert HeadRep(s, z, xc, e); }
    forall e: nat, i: nat ensures NodeRep(s', z, e, i) { assert NodeRep(s, z, e, i); }
    forall q: nat, i: nat ensures LinkRep(s', z, q, i) { assert LinkRep(s, z, q, i); }
  }

  lemma DropRep(s: State, z: Zone, xs: set<nat>, xc: set<nat>, p: nat)
    requires Rep(s, z, xs, xc) && p < |z.pages| && z.pages[p] == Held
    ensures Rep(s.(descriptors := s.descriptors[p := StateFree]), Drop(z, p), xs - {p}, xc)
  {
    var s', z' := s.(descriptors := s.descriptors[p := StateFree]), Drop(z, p);
    forall q: nat ensures PageRep(s', z', xs - {p}, q) { assert PageRep(s, z, xs, q); }
    forall e: nat ensures HeadRep(s', z', xc, e) { assert HeadRep(s, z, xc, e); }
    forall e: nat, i: nat ensures NodeRep(s', z', e, i) { assert NodeRep(s, z, e, i); }
    forall q: nat, i: nat ensures LinkRep(s', z', q, i) { assert LinkRep(s, z, q, i); }
  }

  /** append_page_to_class's writes for a descriptor d that stands alone. */
  function Appended(cells: map<Addr, Cell>, last: Option<Addr>, d: Addr): map<Addr, Cell>
  {
    if last.None? then cells
    else
      var cells1 := cells[last.value := Peek(cells, last.value).(next := Some(d))];
      cells1[d := Peek(cells1, d).(prev := last)]
  }

  /** A filled-in descriptor and linked blocks, not yet in any list. */
  ghost predicate Prepared(cells: map<Addr, Cell>, p: nat, c: nat, chain: seq<nat>, d: Addr)
  {
    && chain != []
    && Peek(cells, d) == Cell(Num(|chain|), p, c, Some(Addr(p, chain[0])), None, None)
    && forall j: nat :: j < |chain| ==> Peek(cells, Addr(p, chain[j])).w0 == Link(ChainAt(p, chain, j + 1))
  }

  lemma EnlistRep(s: State, s': State, z: Zone, xs: set<nat>, xc: set<nat>, p: nat, c: nat, chain: seq<nat>, d: Addr)
    requires Core(z) && Rep(s, z, xs, xc) && CanEnlist(z, p, c, chain, d) && c !in xc
    requires Prepared(s.cells, p, c, chain, d)
    requires s'.descriptors == s.descriptors[p := StateDesc(d)] && s'.pageClasses == s.pageClasses[p := c]
    requires s'.classes == if z.lists[c] == [] then s.classes[c := Some(d)] else s.classes
    requires s'.cells == Appended(s.cells, DescAt(z, c, |z.lists[c]| - 1), d)
    ensures Rep(s', Enlist(z, p, c, chain, d), xs - {p}, xc)
  {
    hide Elems, NoDup, Blocks, Core;
    var z' := Enlist(z, p, c, chain, d);
    forall q: nat ensures PageRep(s', z', xs - {p}, q) { assert PageRep(s, z, xs, q); }
    forall e: nat ensures HeadRep(s', z', xc, e) {
      assert HeadRep(s, z, xc, e);
      if e < |z.lists| { DescAtEnlisted(z, p, c, chain, d, e, 0); }
    }
    forall e: nat, i: nat ensures NodeRep(s', z', e, i) { EnlistNode(s, s', z, xs, xc, p, c, chain, d, e, i); }
    forall q: nat, i: nat ensures LinkRep(s', z', q, i) { EnlistLink(s, s', z, xs, xc, p, c, chain, d, q, i); }
  }

  lemma NotYetListed(z: Zone, p: nat, c: nat, chain: seq<nat>, d: Addr)
    requires Core(z) && CanEnlist(z, p, c, chain, d)
    ensures p !in z.desc && forall q :: q in z.desc ==> z.desc[q] != d
    ensures forall e: nat, i: nat :: e < |z.lists| && i < |z.lists[e]| ==> z.lists[e][i] != p
    ensures c == DC ==> forall j :: 0 <= j < |chain| ==> Addr(p, chain[j]) != d
  {
    hide Elems, NoDup;
    ElemsNil();
    assert DescOk(z, p) && SlotOk(z, d);
    forall q | q in z.desc ensures z.desc[q] != d { assert DescOk(z, q); }
    forall e: nat, i: nat | e < |z.lists| && i < |z.lists[e]| ensures z.lists[e][i] != p { Listed(z, e, i); }
    forall j | 0 <= j < |chain| ensures chain[j] in Elems(chain) { ElemsAt(chain, j); }
  }

  lemma DescAtEnlisted(z: Zone, p: nat, c: nat, chain: seq<nat>, d: Addr, e: nat, i: int)
    requires Core(z) && CanEnlist(z, p, c, chain, d) && e < |z.lists|
    ensures DescAt(Enlist(z, p, c, chain, d), e, i) ==
      if e == c && i == |z.lists[c]| then Some(d) else DescAt(z, e, i)
  {
    hide Elems, NoDup, Core, CanEnlist;
    NotYetListed(z, p, c, chain, d);
    InRange(z, p, c, chain, d);
    if 0 <= i < |z.lists[e]| { Listed(z, e, i); }
  }

  lemma InRange(z: Zone, p: nat, c: nat, chain: seq<nat>, d: Addr)
    requires CanEnlist(z, p, c, chain, d)
    ensures p < |z.pages| && c < |z.lists| && chain != [] && c <= z.k
  {
  }

  lemma EnlistNode(s: State, s': State, z: Zone, xs: set<nat>, xc: set<nat>, p: nat, c: nat, chain: seq<nat>, d: Addr,
                   e: nat, i: nat)
    requires Core(z) && Rep(s, z, xs, xc) && CanEnlist(z, p, c, chain, d)
    requires Prepared(s.cells, p, c, chain, d)
    requires s'.cells == Appended(s.cells, DescAt(z, c, |z.lists[c]| - 1), d)
    ensures NodeRep(s', Enlist(z, p, c, chain, d), e, i)
  {
    hide Elems, NoDup, Blocks, Core, CanEnlist;
    InRange(z, p, c, chain, d);
    var z' := Enlist(z, p, c, chain, d);
    var n := |z.lists[c]|;
    NotYetListed(z, p, c, chain, d);
    if n > 0 { Listed(z, c, n - 1); }
    if e < |z'.lists| && i < |z'.lists[e]| {
      DescAtEnlisted(z, p, c, chain, d, e, i + 1);
      DescAtEnlisted(z, p, c, chain, d, e, i - 1);
      if !(e == c && i == n) {
        assert NodeRep(s, z, e, i);
        Listed(z, e, i);
        if n > 0 { NeighbourIs(z, c, n - 1, e, i); }
      }
    }
  }

  lemma EnlistLink(s: State, s': State, z: Zone, xs: set<nat>, xc: set<nat>, p: nat, c: nat, chain: seq<nat>, d: Addr,
                   q: nat, i: nat)
    requires Core(z) && Rep(s, z, xs, xc) && CanEnlist(z, p, c, chain, d)
    requires Prepared(s.cells, p, c, chain, d)
    requires s'.cells == Appended(s.cells, DescAt(z, c, |z.lists[c]| - 1), d)
    ensures LinkRep(s', Enlist(z, p, c, chain, d), q, i)
  {
    hide Elems, NoDup, Blocks;
    var z' := Enlist(z, p, c, chain, d);
    var n := |z.lists[c]|;
    if IsSlab(z', q) && i < |z'.pages[q].chain| {
      var a := Addr(q, z'.pages[q].chain[i]);
      EnlistCore(z, p, c, chain, d);
      assert Partly(z', p) && z'.desc[p] == d && p in z'.desc;
      ElemsAt(z'.pages[q].chain, i);
      DescIsNoFreeBlock(z', p, q, z'.pages[q].chain[i]);
      if n > 0 {
        Listed(z, c, n - 1);
        NotYetListed(z, p, c, chain, d);
        DescIsNoFreeBlock(z', z.lists[c][n - 1], q, z'.pages[q].chain[i]);
      }
      if q != p { assert LinkRep(s, z, q, i); }
    }
  }

  /** Writes outside descriptors and free blocks do not matter. */
  ghost predicate SameFootprint(cells: map<Addr, Cell>, cells': map<Addr, Cell>, z: Zone)
  {
    && (forall p :: p in z.desc ==> Peek(cells', z.desc[p]) == Peek(cells, z.desc[p]))
    && (forall x :: InChain(z, x) ==> Peek(cells', x) == Peek(cells, x))
  }

  lemma FootprintRep(s: State, z: Zone, xs: set<nat>, xc: set<nat>, cells': map<Addr, Cell>)
    requires Rep(s, z, xs, xc) && SameFootprint(s.cells, cells', z)
    ensures Rep(s.(cells := cells'), z, xs, xc)
  {
    hide Elems;
    var s' := s.(cells := cells');
    forall q: nat ensures PageRep(s', z, xs, q) { assert PageRep(s, z, xs, q); }
    forall e: nat ensures HeadRep(s', z, xc, e) { assert HeadRep(s, z, xc, e); }
    forall e: nat, i: nat ensures NodeRep(s', z, e, i) { assert NodeRep(s, z, e, i); }
    forall q: nat, i: nat ensures LinkRep(s', z, q, i) {
      assert LinkRep(s, z, q, i);
      if IsSlab(z, q) && i < |z.pages[q].chain| {
        ElemsAt(z.pages[q].chain, i);
        assert InChain(z, Addr(q, z.pages[q].chain[i]));
      }
    }
  }

  /** A held page's table entry may point at the descriptor being prepared. */
  lemma TransitRep(s: State, z: Zone, xs: set<nat>, xc: set<nat>, p: nat, d: Addr)
    requires Rep(s, z, xs, xc) && p < |z.pages| && z.pages[p] == Held
    ensures Rep(s.(descriptors := s.descriptors[p := StateDesc(d)]), z, xs + {p}, xc)
  {
    var s' := s.(descriptors := s.descriptors[p := StateDesc(d)]);
    forall q: nat ensures PageRep(s', z, xs + {p}, q) { assert PageRep(s, z, xs, q); }
    forall e: nat ensures HeadRep(s', z, xc, e) { assert HeadRep(s, z, xc, e); }
    forall e: nat, i: nat ensures NodeRep(s', z, e, i) { assert NodeRep(s, z, e, i); }
    forall q: nat, i: nat ensures LinkRep(s', z, q, i) { assert LinkRep(s, z, q, i); }
  }

  lemma NodeAt(s: State, z: Zone, xs: set<nat>, xc: set<nat>, c: nat, j: nat)
    requires Core(z) && Rep(s, z, xs, xc) && c < |z.lists| && j < |z.lists[c]|
    ensures Partly(z, z.lists[c][j]) && z.pages[z.lists[c][j]].cls == c && z.lists[c][j] in z.desc
    ensures DescAt(z, c, j) == Some(z.desc[z.lists[c][j]])
    ensures var p := z.lists[c][j]; var chain := z.pages[p].chain;
      Peek(s.cells, z.desc[p]) ==
        Cell(Num(|chain|), p, c, Some(Addr(p, chain[0])), DescAt(z, c, j + 1), DescAt(z, c, j - 1))
  {
    Listed(z, c, j);
    assert NodeRep(s, z, c, j);
  }

  lemma HeadAt(s: State, z: Zone, xs: set<nat>, xc: set<nat>, c: nat)
    requires Core(z) && Rep(s, z, xs, xc) && DC <= c < |z.lists| && c !in xc
    ensures |s.classes| == |z.lists| && s.classes[c] == DescAt(z, c, 0)
    ensures s.classes[c].None? <==> z.lists[c] == []
  {
    assert HeadRep(s, z, xc, c);
    if z.lists[c] != [] { Listed(z, c, 0); }
  }

  lemma PageAt(s: State, z: Zone, xs: set<nat>, xc: set<nat>, p: nat)
    requires Rep(s, z, xs, xc) && p < |z.pages|
    ensures |s.descriptors| == |s.pageClasses| == |z.pages| && PageRep(s, z, xs, p)
  {
  }

  lemma Sizes(s: State, z: Zone, xs: set<nat>, xc: set<nat>)
    requires Core(z) && Rep(s, z, xs, xc)
    ensures |s.descriptors| == |s.pageClasses| == |z.pages| > 0 && |s.classes| == |z.lists| == z.k - 1
  {
  }

  lemma AppendedElsewhere(cells: map<Addr, Cell>, last: Option<Addr>, d: Addr, x: Addr)
    requires x != d && last != Some(x)
    ensures Peek(Appended(cells, last, d), x) == Peek(cells, x)
  {
  }

  lemma LiveIsNoDesc(z: Zone, c: nat, j: int, x: Addr)
    requires Core(z) && c < |z.lists| && x in Live(z)
    ensures DescAt(z, c, j) != Some(x)
  {
    if 0 <= j < |z.lists[c]| {
      Listed(z, c, j);
      assert DescOk(z, z.lists[c][j]) && SlotOk(z, z.desc[z.lists[c][j]]);
    }
  }

  lemma HeldClassRep(s: State, z: Zone, xs: set<nat>, xc: set<nat>, p: nat, c: int)
    requires Rep(s, z, xs, xc) && p < |z.pages| && z.pages[p] == Held
    ensures Rep(s.(pageClasses := s.pageClasses[p := c]), z, xs, xc)
  {
    var s' := s.(pageClasses := s.pageClasses[p := c]);
    forall q: nat ensures PageRep(s', z, xs, q) { assert PageRep(s, z, xs, q); }
    forall e: nat ensures HeadRep(s', z, xc, e) { assert HeadRep(s, z, xc, e); }
    forall e: nat, i: nat ensures NodeRep(s', z, e, i) { assert NodeRep(s, z, e, i); }
    forall q: nat, i: nat ensures LinkRep(s', z, q, i) { assert LinkRep(s, z, q, i); }
  }

  /** Owners are not represented. */
  lemma OwnRep(s: State, z: Zone, xs: set<nat>, xc: set<nat>, own: map<Addr, Owner>)
    requires Rep(s, z, xs, xc)
    ensures Rep(s, z.(own := own), xs, xc)
  {
    var z' := z.(own := own);
    forall q: nat ensures PageRep(s, z', xs, q) { assert PageRep(s, z, xs, q); }
    forall e: nat ensures HeadRep(s, z', xc, e) { assert HeadRep(s, z, xc, e); }
    forall e: nat, i: nat ensures NodeRep(s, z', e, i) { assert NodeRep(s, z, e, i); }
    forall q: nat, i: nat ensures LinkRep(s, z', q, i) { assert LinkRep(s, z, q, i); }
  }

  /** Heads of other classes survive operations on the descriptor's class. */
  lemma DescAtTouched(z: Zone, z': Zone, c: nat, i: int)
    requires Core(z) && c < |z.lists| && c != DC && TouchesOnlyDC(z, z')
    ensures |z'.lists| == |z.lists| && DescAt(z', c, i) == DescAt(z, c, i)
  {
    hide Elems;
    if 0 <= i < |z.lists[c]| { Listed(z, c, i); }
  }

  lemma TakeRunRep(s: State, s': State, z: Zone, p: nat, num: nat)
    requires Rep(s, z, {}, {}) && 0 < num && FreeRun(z.pages, p, num)
    requires |s'.descriptors| == |s'.pageClasses| == |z.pages| && s'.classes == s.classes && s'.cells == s.cells
    requires forall q :: 0 <= q < |z.pages| ==>
      s'.descriptors[q] == if p <= q < p + num then StateMultipage else s.descriptors[q]
    requires forall q :: 0 <= q < |z.pages| ==>
      s'.pageClasses[q] == if q == p then ToChar(num) else if p < q < p + num then -1 else s.pageClasses[q]
    ensures Rep(s', TakeRun(z, p, num), {}, {})
  {
    var z' := TakeRun(z, p, num);
    forall q: nat ensures PageRep(s', z', {}, q) { assert PageRep(s, z, {}, q); }
    forall e: nat ensures HeadRep(s', z', {}, e) { assert HeadRep(s, z, {}, e); }
    forall e: nat, i: nat ensures NodeRep(s', z', e, i) { assert NodeRep(s, z, e, i); }
    forall q: nat, i: nat ensures LinkRep(s', z', q, i) { assert LinkRep(s, z, q, i); }
  }

  lemma GiveRunRep(s: State, s': State, z: Zone, p: nat)
    requires Core(z) && Rep(s, z, {}, {}) && p < |z.pages| && z.pages[p].Start?
    requires |s'.descriptors| == |s'.pageClasses| == |z.pages| && s'.classes == s.classes && s'.cells == s.cells
    requires forall q :: 0 <= q < |z.pages| ==>
      s'.descriptors[q] == if p <= q < p + Returned(z.pages[p].len) then StateFree else s.descriptors[q]
    requires forall q :: 0 <= q < |z.pages| ==>
      s'.pageClasses[q] == if p <= q < p + Returned(z.pages[p].len) then 0 else s.pageClasses[q]
    ensures Rep(s', GiveRun(z, p), {}, {})
  {
    var z', len := GiveRun(z, p), z.pages[p].len;
    assert RunOk(z, p);
    assert forall q :: 0 <= q < |z.pages| ==> z'.pages[q] == Given(z, p, q);
    forall q: nat ensures PageRep(s', z', {}, q) { assert PageRep(s, z, {}, q); }
    forall e: nat ensures HeadRep(s', z', {}, e) { assert HeadRep(s, z, {}, e); }
    forall e: nat, i: nat ensures NodeRep(s', z', e, i) { assert NodeRep(s, z, e, i); }
    forall q: nat, i: nat ensures LinkRep(s', z', q, i) { assert LinkRep(s, z, q, i); }
  }
}
