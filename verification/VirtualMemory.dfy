/** virtual-memory/mem.py: frames, pages, eviction and fault counting. Random numbers
    are inputs; a choice among several victims is any of them. */
module VirtualMemory {
  import opened Sequences

  /** Flag bits 1, 2, 4 and 8. A page that was evicted keeps its last frame number. */
  datatype Page = Page(frame: nat, valid: bool, dirty: bool, accessed: bool, io: bool, countdown: int) {
    function Flags(): nat {
      (if valid then 1 else 0) + (if dirty then 2 else 0) + (if accessed then 4 else 0) + if io then 8 else 0
    }
  }

  datatype Algorithm = AnyPage | Nru | Lru

  const TIMER_TICK: int := 50

  type Pages = map<nat, Page>

  function Resident(pages: Pages): set<nat>
  {
    set v | v in pages && pages[v].valid
  }

  function Swapped(pages: Pages): set<nat>
  {
    set v | v in pages && !pages[v].valid
  }

  /** choice_random, choice_nru (lowest flags) and choice_lru (highest flags). */
  predicate Picks(a: Algorithm, pages: Pages, v: nat)
  {
    && v in pages && pages[v].valid
    && match a
       case AnyPage => true
       case Nru => forall w :: w in pages && pages[w].valid ==> pages[v].Flags() <= pages[w].Flags()
       case Lru => forall w :: w in pages && pages[w].valid ==> pages[w].Flags() <= pages[v].Flags()
  }

  /** p ranks below q: pages that need no input or output come first, among these the ones
      not accessed, among these the clean ones. */
  predicate Below(p: Page, q: Page)
  {
    || (!p.io && q.io)
    || (p.io == q.io && !p.accessed && q.accessed)
    || (p.io == q.io && p.accessed == q.accessed && !p.dirty && q.dirty)
  }

  /** Nru takes a resident page that none ranks below, Lru one that ranks below none. */
  predicate Foremost(a: Algorithm, pages: Pages, v: nat)
  {
    && v in pages && pages[v].valid
    && match a
       case AnyPage => true
       case Nru => forall w :: w in pages && pages[w].valid ==> !Below(pages[w], pages[v])
       case Lru => forall w :: w in pages && pages[w].valid ==> !Below(pages[v], pages[w])
  }

  /** Comparing the flag words of resident pages comes to that ranking. */
  lemma PicksForemost(a: Algorithm, pages: Pages, v: nat)
    ensures Picks(a, pages, v) <==> Foremost(a, pages, v)
  {
    if v in pages && pages[v].valid {
      forall w | w in pages && pages[w].valid
        ensures pages[v].Flags() <= pages[w].Flags() <==> !Below(pages[w], pages[v])
        ensures pages[w].Flags() <= pages[v].Flags() <==> !Below(pages[v], pages[w])
      {
      }
    }
  }

  lemma {:induction false} Lowest(pages: Pages, s: set<nat>) returns (lo: nat)
    requires s != {} && forall v :: v in s ==> v in pages
    ensures lo in s && forall w :: w in s ==> pages[lo].Flags() <= pages[w].Flags()
  {
    lo :| lo in s;
    var rest := s - {lo};
    if rest != {} {
      var l := Lowest(pages, rest);
      assert forall w :: w in s ==> w == lo || w in rest;
      if pages[l].Flags() < pages[lo].Flags() { lo := l; }
    } else {
      assert s == {lo};
    }
  }

  lemma {:induction false} Highest(pages: Pages, s: set<nat>) returns (hi: nat)
    requires s != {} && forall v :: v in s ==> v in pages
    ensures hi in s && forall w :: w in s ==> pages[w].Flags() <= pages[hi].Flags()
  {
    hi :| hi in s;
    var rest := s - {hi};
    if rest != {} {
      var h := Highest(pages, rest);
      assert forall w :: w in s ==> w == hi || w in rest;
      if pages[hi].Flags() < pages[h].Flags() { hi := h; }
    } else {
      assert s == {hi};
    }
  }

  /** Every algorithm finds a victim as soon as some page is resident. */
  lemma VictimExists(a: Algorithm, pages: Pages)
    requires Resident(pages) != {}
    ensures exists v :: v in pages && Picks(a, pages, v)
  {
    var s := Resident(pages);
    var lo := Lowest(pages, s);
    var hi := Highest(pages, s);
    assert forall w :: w in pages && pages[w].valid ==> w in s;
    assert Picks(if a == Lru then a else Nru, pages, if a == Lru then hi else lo);
    assert Picks(a, pages, if a == Lru then hi else lo);
  }

  // --- Frames ----------------------------------------------------------

  /** Frame f is on the free list, or holds exactly one page. */
  ghost predicate FrameOk(n: nat, pages: Pages, empty: seq<nat>, holder: map<nat, nat>, f: nat)
  {
    && (f < n ==> (f in Elems(empty) <==> f !in holder))
    && (f >= n ==> f !in Elems(empty) && f !in holder)
    && (f in holder ==> holder[f] in pages && pages[holder[f]].valid && pages[holder[f]].frame == f)
  }

  ghost predicate PageOk(pages: Pages, holder: map<nat, nat>, v: nat)
  {
    v in pages && pages[v].valid ==> pages[v].frame in holder && holder[pages[v].frame] == v
  }

  ghost predicate FramesOk(n: nat, pages: Pages, empty: seq<nat>, holder: map<nat, nat>)
  {
    && NoDup(empty) && (forall f: nat :: FrameOk(n, pages, empty, holder, f))
    && (forall v: nat :: PageOk(pages, holder, v))
  }

  /** Free frames and frames of resident pages together are all frames, each once. */
  lemma FramesPartition(n: nat, pages: Pages, empty: seq<nat>, holder: map<nat, nat>)
    requires FramesOk(n, pages, empty, holder)
    ensures forall f: nat :: f < n <==>
      f in Elems(empty) || exists v :: v in pages && pages[v].valid && pages[v].frame == f
    ensures forall v :: v in pages && pages[v].valid ==> pages[v].frame !in Elems(empty)
    ensures forall v, w ::
      v in pages && w in pages && pages[v].valid && pages[w].valid && pages[v].frame == pages[w].frame ==> v == w
  {
    forall f: nat
      ensures f < n <==> f in Elems(empty) || exists v :: v in pages && pages[v].valid && pages[v].frame == f
    {
      assert FrameOk(n, pages, empty, holder, f);
      forall v | v in pages && pages[v].valid && pages[v].frame == f ensures f < n { assert PageOk(pages, holder, v); }
    }
    forall v | v in pages && pages[v].valid ensures pages[v].frame !in Elems(empty) {
      assert PageOk(pages, holder, v) && FrameOk(n, pages, empty, holder, pages[v].frame);
    }
    forall v, w | v in pages && w in pages && pages[v].valid && pages[w].valid && pages[v].frame == pages[w].frame
      ensures v == w
    {
      assert PageOk(pages, holder, v) && PageOk(pages, holder, w);
    }
  }

  /** As many frames as pages that sit in them. */
  lemma {:induction false} SameSize(vs: set<nat>, fs: set<nat>, pages: Pages)
    requires forall v :: v in vs ==> v in pages && pages[v].frame in fs
    requires forall f :: f in fs ==> exists v :: v in vs && pages[v].frame == f
    requires forall v, w :: v in vs && w in vs && pages[v].frame == pages[w].frame ==> v == w
    ensures |vs| == |fs|
  {
    if vs == {} {
      assert fs == {};
    } else {
      var v :| v in vs;
      var f := pages[v].frame;
      forall g | g in fs - {f} ensures exists w :: w in vs - {v} && pages[w].frame == g {
        var w :| w in vs && pages[w].frame == g;
        assert w in vs - {v};
      }
      SameSize(vs - {v}, fs - {f}, pages);
      assert vs == vs - {v} + {v} && fs == fs - {f} + {f};
    }
  }

  /** Conservation: free frames and resident pages add up to the frames there are. */
  lemma FrameCount(n: nat, pages: Pages, empty: seq<nat>, holder: map<nat, nat>)
    requires FramesOk(n, pages, empty, holder)
    ensures |empty| + |Resident(pages)| == n
  {
    hide NoDup, Elems;
    var fs := holder.Keys;
    forall f | f in fs ensures exists v :: v in Resident(pages) && pages[v].frame == f {
      assert FrameOk(n, pages, empty, holder, f) && holder[f] in Resident(pages);
    }
    forall v | v in Resident(pages) ensures pages[v].frame in fs && holder[pages[v].frame] == v {
      assert PageOk(pages, holder, v);
    }
    SameSize(Resident(pages), fs, pages);
    ElemsSize(empty);
    forall f: nat ensures f in fs + Elems(empty) <==> f < n { assert FrameOk(n, pages, empty, holder, f); }
    Filled(fs + Elems(empty), 0, n);
    forall f ensures !(f in fs && f in Elems(empty)) { if f >= 0 { assert FrameOk(n, pages, empty, holder, f); } }
    assert fs !! Elems(empty);
  }

  /** FramesOk with frame f taken off the free list and not yet given to a page. */
  ghost predicate FramesBut(n: nat, pages: Pages, empty: seq<nat>, holder: map<nat, nat>, f: nat)
  {
    && NoDup(empty) && f < n && f !in Elems(empty) && f !in holder
    && (forall g: nat :: g == f || FrameOk(n, pages, empty, holder, g)) && (forall v: nat :: PageOk(pages, holder, v))
  }

  lemma EvictFrames(n: nat, pages: Pages, empty: seq<nat>, holder: map<nat, nat>, v: nat, page: Page)
    requires FramesOk(n, pages, empty, holder) && v in pages && pages[v].valid && !page.valid
    ensures pages[v].frame in holder
    ensures FramesOk(n, pages[v := page], empty + [pages[v].frame], holder - {pages[v].frame})
    ensures Swapped(pages[v := page]) == Swapped(pages) + {v} && v !in Swapped(pages)
  {
    hide Elems, NoDup;
    var f := pages[v].frame;
    var pages', empty', holder' := pages[v := page], empty + [f], holder - {f};
    assert PageOk(pages, holder, v) && FrameOk(n, pages, empty, holder, f);
    ElemsAppend(empty, f);
    forall g: nat ensures FrameOk(n, pages', empty', holder', g) { assert FrameOk(n, pages, empty, holder, g); }
    forall w: nat ensures PageOk(pages', holder', w) { assert PageOk(pages, holder, w); }
  }

  lemma TakeFrames(n: nat, pages: Pages, empty: seq<nat>, holder: map<nat, nat>)
    requires FramesOk(n, pages, empty, holder) && empty != []
    ensures FramesBut(n, pages, empty[..|empty| - 1], holder, empty[|empty| - 1])
  {
    hide Elems, NoDup;
    var f, empty' := empty[|empty| - 1], empty[..|empty| - 1];
    ElemsInit(empty);
    assert FrameOk(n, pages, empty, holder, f);
    forall g: nat ensures g == f || FrameOk(n, pages, empty', holder, g) { assert FrameOk(n, pages, empty, holder, g); }
  }

  lemma GiveFrames(n: nat, pages: Pages, empty: seq<nat>, holder: map<nat, nat>, f: nat, v: nat, page: Page)
    requires FramesBut(n, pages, empty, holder, f) && v in pages && !pages[v].valid && page.valid && page.frame == f
    ensures FramesOk(n, pages[v := page], empty, holder[f := v])
    ensures Swapped(pages) == Swapped(pages[v := page]) + {v} && v !in Swapped(pages[v := page])
  {
    hide Elems, NoDup;
    var pages', holder' := pages[v := page], holder[f := v];
    forall g: nat ensures FrameOk(n, pages', empty, holder', g) {
      assert g == f || FrameOk(n, pages, empty, holder, g);
    }
    forall w: nat ensures PageOk(pages', holder', w) { assert PageOk(pages, holder, w); }
  }

  /** Pages may change in all but where they are. */
  lemma TouchFrames(n: nat, pages: Pages, pages': Pages, empty: seq<nat>, holder: map<nat, nat>)
    requires FramesOk(n, pages, empty, holder)
    requires forall v :: v in pages && pages[v].valid ==>
      v in pages' && pages'[v].valid && pages'[v].frame == pages[v].frame
    requires forall v :: v in pages' && pages'[v].valid ==> v in pages && pages[v].valid
    ensures FramesOk(n, pages', empty, holder)
  {
    forall g: nat ensures FrameOk(n, pages', empty, holder, g) { assert FrameOk(n, pages, empty, holder, g); }
    forall w: nat ensures PageOk(pages', holder, w) { assert PageOk(pages, holder, w); }
  }

  lemma KillFrames(n: nat, pages: Pages, empty: seq<nat>, holder: map<nat, nat>, v: nat)
    requires FramesOk(n, pages, empty, holder) && v in pages && pages[v].valid
    ensures pages[v].frame in holder
    ensures FramesOk(n, pages - {v}, empty + [pages[v].frame], holder - {pages[v].frame})
    ensures Swapped(pages - {v}) == Swapped(pages)
  {
    hide Elems, NoDup;
    var f := pages[v].frame;
    var pages', empty', holder' := pages - {v}, empty + [f], holder - {f};
    assert PageOk(pages, holder, v) && FrameOk(n, pages, empty, holder, f);
    ElemsAppend(empty, f);
    forall g: nat ensures FrameOk(n, pages', empty', holder', g) { assert FrameOk(n, pages, empty, holder, g); }
    forall w: nat ensures PageOk(pages', holder', w) { assert PageOk(pages, holder, w); }
  }

  lemma SwappedSame(pages: Pages, pages': Pages)
    requires pages'.Keys == pages.Keys && forall v :: v in pages ==> pages'[v].valid == pages[v].valid
    ensures Swapped(pages') == Swapped(pages)
  {
  }

  /** An empty free list means that every frame holds a page. */
  lemma SomeResident(n: nat, pages: Pages, holder: map<nat, nat>)
    requires n > 0 && FramesOk(n, pages, [], holder)
    ensures Resident(pages) != {}
  {
    assert FrameOk(n, pages, [], holder, 0);
    assert holder[0] in Resident(pages);
  }

  /** The page that the algorithm picked is swapped out, and no other. */
  ghost predicate Evicted(a: Algorithm, pages: Pages, pages': Pages, v: nat)
  {
    && v in pages && pages[v].valid && Foremost(a, pages, v)
    && pages' == pages[v := pages[v].(valid := false, accessed := false, dirty := false)]
  }

  /** A page that has just been moved into frame f. */
  function Loaded(p: Page, f: nat): Page
  {
    p.(frame := f, valid := true, accessed := p.io, dirty := false, countdown := TIMER_TICK)
  }

  /** The last free frame is f, and nothing is swapped out; without a free frame, f is
      that of exactly one victim. */
  ghost predicate MadeRoom(a: Algorithm, pages: Pages, empty: seq<nat>, pages': Pages, empty': seq<nat>, f: nat)
  {
    if empty != [] then pages' == pages && empty == empty' + [f]
    else empty' == [] && exists v :: Evicted(a, pages, pages', v) && pages[v].frame == f
  }

  lemma RoomSpares(a: Algorithm, pages: Pages, empty: seq<nat>, pages': Pages, empty': seq<nat>, f: nat, v: nat)
    requires MadeRoom(a, pages, empty, pages', empty', f) && v in pages && !pages[v].valid
    ensures v in pages' && pages'[v] == pages[v]
  {
  }

  /** A page that is swapped out is no victim. */
  lemma RoomWithout(a: Algorithm, pages: Pages, empty: seq<nat>, pages': Pages, empty': seq<nat>, f: nat, v: nat,
                    page: Page)
    requires v !in pages && v !in pages' && !page.valid
    requires MadeRoom(a, pages[v := page], empty, pages'[v := page], empty', f)
    ensures MadeRoom(a, pages, empty, pages', empty', f)
  {
    hide Foremost;
    var all, all' := pages[v := page], pages'[v := page];
    assert pages == all - {v} && pages' == all' - {v};
    if empty == [] {
      var u :| Evicted(a, all, all', u) && all[u].frame == f;
      ForemostWithout(a, pages, v, page, u);
      assert Evicted(a, pages, pages', u);
    }
  }

  lemma ForemostWithout(a: Algorithm, pages: Pages, v: nat, page: Page, u: nat)
    requires v !in pages && !page.valid && u in pages && Foremost(a, pages[v := page], u)
    ensures Foremost(a, pages, u)
  {
    hide Below;
    forall w | w in pages ensures w in pages[v := page] && pages[v := page][w] == pages[w] {}
  }

  /** A resident page that has been read or written. */
  function Touched(p: Page, write: bool): Page
  {
    p.(accessed := true, dirty := p.dirty || write)
  }

  /** A page that has just been asked for, in frame f; it did its input if fs says so. */
  function Requested(f: nat, fs: bool): Page
  {
    Page(f, true, false, fs, fs, TIMER_TICK)
  }

  /** What turning to page v, which may be new, does: the page is resident and touched, and
      to the others happens nothing, or one victim goes when there was no frame for it. */
  ghost predicate TurnedTo(a: Algorithm, pages: Pages, empty: seq<nat>, pages': Pages, empty': seq<nat>, v: nat,
                           fs: bool, write: bool)
  {
    && v in pages'
    && var f := pages'[v].frame;
       if v !in pages then
         pages'[v] == Touched(Requested(f, fs), write) && MadeRoom(a, pages, empty, pages' - {v}, empty', f)
       else if pages[v].valid then
         pages' == pages[v := Touched(pages[v], write)] && empty' == empty
       else
         pages'[v] == Touched(Loaded(pages[v], f), write) && MadeRoom(a, pages, empty, pages'[v := pages[v]], empty', f)
  }

  /** Flags of a page that is not resident are clear, and the countdown is in its range. */
  predicate Settled(p: Page)
  {
    0 <= p.countdown <= TIMER_TICK && (!p.valid ==> !p.accessed && !p.dirty)
  }

  /** A new page holds no frame yet. */
  lemma NewPage(n: nat, pages: Pages, empty: seq<nat>, holder: map<nat, nat>, v: nat, page: Page)
    requires FramesOk(n, pages, empty, holder) && v !in pages && !page.valid
    ensures FramesOk(n, pages[v := page], empty, holder)
    ensures |Swapped(pages[v := page])| == |Swapped(pages)| + 1
  {
    hide FramesOk;
    TouchFrames(n, pages, pages[v := page], empty, holder);
    assert Swapped(pages[v := page]) == Swapped(pages) + {v} && v !in Swapped(pages);
  }

  function Aged(p: Page): Page
  {
    if p.countdown - 1 < 0 then p.(accessed := false, dirty := false, countdown := TIMER_TICK)
    else p.(countdown := p.countdown - 1)
  }

  /** One round of ageing: pages that are swapped out do not age. */
  function AllAged(pages: Pages): Pages
  {
    map v | v in pages :: if pages[v].valid then Aged(pages[v]) else pages[v]
  }

  function AgedFor(p: Page, rounds: nat): Page
  {
    if rounds == 0 then p else Aged(AgedFor(p, rounds - 1))
  }

  /** A page keeps its access and dirty bits for as many rounds as its countdown says, and
      loses both in the next: a loaded page after 51. Being touched does not put it off. */
  lemma {:induction false} BitsExpire(p: Page, rounds: nat)
    requires 0 <= p.countdown && rounds <= p.countdown + 1
    ensures AgedFor(p, rounds) ==
      if rounds <= p.countdown then p.(countdown := p.countdown - rounds)
      else p.(accessed := false, dirty := false, countdown := 50)
    ensures forall write: bool :: Touched(p, write).countdown == p.countdown
  {
    if rounds > 0 { BitsExpire(p, rounds - 1); }
  }

  lemma PickIsResident(a: Algorithm, pages: Pages, v: nat)
    requires v in pages && Picks(a, pages, v)
    ensures pages[v].valid
  {
  }

  class Vm {
    const algorithm: Algorithm
    const frames: nat
    var pages: Pages
    var empty: seq<nat>
    var next: nat
    var faults: nat
    var accesses: nat
    ghost var holder: map<nat, nat>
    ghost var evictions: nat
    ghost var killedSwapped: nat

    ghost predicate Valid()
      reads this
    {
      && frames > 0 && FramesOk(frames, pages, empty, holder)
      && (forall v :: v in pages ==> v < next && Settled(pages[v])) && faults <= accesses
    }

    /** Evictions that faults, pages still swapped out and pages killed while swapped
        out do not account for. */
    ghost function Balance(): int
      reads this
    {
      evictions - faults - |Swapped(pages)| - killedSwapped
    }

    /** start, before any process runs. */
    constructor (algorithm: Algorithm, frames: nat)
      requires frames > 0
      ensures Valid() && Balance() == 0 && pages == map[] && next == 0 && accesses == 0
      ensures this.algorithm == algorithm && |empty| == frames && forall f :: 0 <= f < frames ==> empty[f] == f
    {
      this.algorithm, this.frames := algorithm, frames;
      pages, next, faults, accesses := map[], 0, 0, 0;
      empty := seq(frames, i => i);
      holder, evictions, killedSwapped := map[], 0, 0;
      new;
      forall f: nat ensures FrameOk(frames, pages, empty, holder, f) {
        if f < frames { assert empty[f] == f; }
      }
    }

    /** replace_page: some victim of the algorithm's choice goes. */
    method ReplacePage()
      requires Valid() && Resident(pages) != {}
      modifies this`pages, this`empty, this`holder, this`evictions
      ensures Valid() && Balance() == old(Balance()) && empty != []
      ensures exists v :: Evicted(algorithm, old(pages), pages, v) && empty == old(empty) + [old(pages)[v].frame]
    {
      hide FramesOk, Picks, Swapped, Foremost;
      VictimExists(algorithm, pages);
      var v :| v in pages && Picks(algorithm, pages, v);
      PickIsResident(algorithm, pages, v);
      PicksForemost(algorithm, pages, v);
      var page := pages[v];
      EvictFrames(frames, pages, empty, holder, v, page.(valid := false, accessed := false, dirty := false));
      pages := pages[v := page.(valid := false, accessed := false, dirty := false)];
      empty := empty + [page.frame];
      holder, evictions := holder - {page.frame}, evictions + 1;
      assert Evicted(algorithm, old(pages), pages, v);
    }

    /** need_empty_physical_page */
    method NeedEmptyPhysicalPage() returns (f: nat)
      requires Valid()
      modifies this`pages, this`empty, this`holder, this`evictions
      ensures FramesBut(frames, pages, empty, holder, f)
      ensures pages.Keys == old(pages.Keys) && Balance() == old(Balance())
      ensures MadeRoom(algorithm, old(pages), old(empty), pages, empty, f)
      ensures forall v :: v in pages ==> v < next && Settled(pages[v])
    {
      hide FramesOk, FramesBut, Foremost, Swapped;
      if empty == [] {
        SomeResident(frames, pages, holder);
        ReplacePage();
      }
      TakeFrames(frames, pages, empty, holder);
      f := empty[|empty| - 1];
      empty := empty[..|empty| - 1];
    }

    /** make_resident */
    method MakeResident(v: nat, nofault: bool)
      requires Valid() && v in pages && (!nofault ==> faults < accesses)
      modifies this`pages, this`empty, this`faults, this`holder, this`evictions
      ensures Valid() && pages.Keys == old(pages.Keys) && pages[v].valid
      ensures old(pages)[v].valid ==> pages == old(pages) && empty == old(empty)
      ensures !old(pages)[v].valid ==> pages[v] == Loaded(old(pages)[v], pages[v].frame)
      ensures !old(pages)[v].valid ==>
        MadeRoom(algorithm, old(pages), old(empty), pages[v := old(pages)[v]], empty, pages[v].frame)
      ensures faults == old(faults) + if old(pages)[v].valid || nofault then 0 else 1
      ensures Balance() == old(Balance()) + if !old(pages)[v].valid && nofault then 1 else 0
    {
      hide FramesOk, FramesBut, Swapped;
      var page := pages[v];
      if !page.valid {
        if !nofault {
          faults := faults + 1;
        }
        var f := NeedEmptyPhysicalPage();
        RoomSpares(algorithm, old(pages), old(empty), pages, empty, f, v);
        page := pages[v].(frame := f, valid := true, accessed := page.io, dirty := false, countdown := TIMER_TICK);
        GiveFrames(frames, pages, empty, holder, f, v, page);
        ghost var pages1 := pages;
        pages := pages[v := page];
        assert pages[v := old(pages)[v]] == pages1;
        holder := holder[f := v];
      }
    }

    /** request_page: a new page, resident without a fault. */
    method RequestPage(fs: bool) returns (v: nat)
      requires Valid()
      modifies this`pages, this`empty, this`next, this`faults, this`holder, this`evictions
      ensures Valid() && v == old(next) && next == old(next) + 1
      ensures v !in old(pages) && pages.Keys == old(pages.Keys) + {v}
      ensures pages[v] == Requested(pages[v].frame, fs)
      ensures MadeRoom(algorithm, old(pages), old(empty), pages - {v}, empty, pages[v].frame)
      ensures faults == old(faults) && Balance() == old(Balance())
    {
      hide FramesOk, Swapped, MadeRoom;
      v := next;
      next := next + 1;
      ghost var pages0 := pages;
      pages := pages[v := Page(0, false, false, false, fs, TIMER_TICK)];
      NewPage(frames, pages0, empty, holder, v, pages[v]);
      ghost var page := pages[v];
      MakeResident(v, true);
      assert pages[v := page] == (pages - {v})[v := page];
      RoomWithout(algorithm, pages0, old(empty), pages - {v}, empty, pages[v].frame, v, page);
    }

    /** access_page */
    method AccessPage(v: nat, write: bool)
      requires Valid() && v in pages
      modifies this`pages, this`empty, this`faults, this`accesses, this`holder, this`evictions
      ensures Valid() && pages.Keys == old(pages.Keys)
      ensures TurnedTo(algorithm, old(pages), old(empty), pages, empty, v, false, write)
      ensures accesses == old(accesses) + 1 && faults == old(faults) + if old(pages)[v].valid then 0 else 1
      ensures Balance() == old(Balance())
    {
      hide FramesOk, MadeRoom, Swapped;
      accesses := accesses + 1;
      MakeResident(v, false);
      ghost var pages0 := pages;
      pages := pages[v := pages[v].(accessed := true, dirty := pages[v].dirty || write)];
      assert pages[v := old(pages)[v]] == pages0[v := old(pages)[v]];
      TouchFrames(frames, pages0, pages, empty, holder);
      SwappedSame(pages0, pages);
    }

    /** kill_page */
    method KillPage(v: nat)
      requires Valid() && v in pages
      modifies this`pages, this`empty, this`holder, this`killedSwapped
      ensures Valid() && pages == old(pages) - {v} && Balance() == old(Balance())
      ensures empty == if old(pages)[v].valid then old(empty) + [old(pages)[v].frame] else old(empty)
    {
      hide FramesOk;
      var page := pages[v];
      if page.valid {
        KillFrames(frames, pages, empty, holder, v);
        holder := holder - {page.frame};
      } else {
        TouchFrames(frames, pages, pages - {v}, empty, holder);
        assert Swapped(pages) == Swapped(pages - {v}) + {v};
        killedSwapped := killedSwapped + 1;
      }
      pages := pages - {v};
      if page.valid {
        empty := empty + [page.frame];
      }
    }

    /** reset_bits: resident pages age, and lose their access and dirty bits in time. */
    method ResetBits()
      requires Valid()
      modifies this`pages
      ensures Valid() && pages == AllAged(old(pages)) && Balance() == old(Balance())
    {
      hide FramesOk;
      ghost var pages0 := pages;
      var todo := Resident(pages);
      while todo != {}
        invariant pages.Keys == pages0.Keys && todo <= Resident(pages0)
        invariant forall v :: v in pages ==>
          pages[v] == if v in Resident(pages0) - todo then Aged(pages0[v]) else pages0[v]
      {
        var v :| v in todo;
        var page := pages[v].(countdown := pages[v].countdown - 1);
        if page.countdown < 0 {
          page := page.(accessed := false, dirty := false, countdown := TIMER_TICK);
        }
        pages := pages[v := page];
        todo := todo - {v};
      }
      TouchFrames(frames, pages0, pages, empty, holder);
      assert Swapped(pages) == Swapped(pages0);
    }
  }
}
