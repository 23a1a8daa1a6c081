/** The zone allocator from alc_init through any calls: the heap in memory is where the
    reference zone says, and is the initial one again exactly when nothing leaked. */
module ZoneSession {
  import opened Powers
  import opened ZoneModel
  import opened ZoneSizes
  import opened ZoneSpec
  import opened ZoneTheory
  import opened ZoneRuns
  import opened ZoneRep
  import opened ZoneAllocator

  /** A size whose class fits an int. */
  predicate Sensible(call: Call)
  {
    !call.Put? ==> ClassOf(call.size) < 32
  }

  method Perform(h: Heap, call: Call)
    requires h.Ready({}, {}) && Legal(h.z, call) && Sensible(call)
    modifies h`cells, h`data, h`z, h.descriptors, h.classes, h.pageClasses
    ensures h.Ready({}, {}) && h.z == Step(old(h.z), call)
  {
    hide Core, Alloc, Release, Realloc, Live, Rep, ClassOf;
    match call {
      case Get(size) => var r := h.MemAlloc(size);
      case Put(x) => h.MemFree(x, {}, {});
      case Resize(x, size) => var r := h.MemRealloc(x, size);
    }
  }

  lemma {:induction false} RunSplit(z: Zone, calls: seq<Call>, k: nat)
    requires Core(z) && LegalRun(z, calls) && k < |calls|
    ensures LegalRun(z, calls[..k]) && Legal(Run(z, calls[..k]), calls[k])
    ensures LegalRun(z, calls[..k + 1]) && Run(z, calls[..k + 1]) == Step(Run(z, calls[..k]), calls[k])
    decreases calls
  {
    hide Core, Legal, Step;
    if k > 0 {
      RunSplit(Step(z, calls[0]), calls[1..], k - 1);
      assert calls[..k][1..] == calls[1..][..k - 1] && calls[..k + 1][1..] == calls[1..][..k];
    } else {
      assert calls[..1] == [calls[0]] && calls[..1][1..] == [] && calls[..0] == [];
    }
  }

  lemma NoCalls(z: Zone)
    requires Core(z)
    ensures LegalRun(z, []) && Run(z, []) == z
  {
  }

  method PerformAll(h: Heap, calls: seq<Call>)
    requires h.Ready({}, {}) && LegalRun(h.z, calls) && forall k :: 0 <= k < |calls| ==> Sensible(calls[k])
    modifies h`cells, h`data, h`z, h.descriptors, h.classes, h.pageClasses
    ensures h.Ready({}, {}) && h.z == Run(old(h.z), calls)
  {
    hide Core, Legal, LegalRun, Run, Step, Rep;
    ghost var z0 := h.z;
    NoCalls(z0);
    assert calls[..0] == [];
    var k := 0;
    while k < |calls|
      invariant 0 <= k <= |calls| && h.Ready({}, {})
      invariant LegalRun(z0, calls[..k]) && h.z == Run(z0, calls[..k])
    {
      RunSplit(z0, calls, k);
      Perform(h, calls[k]);
      k := k + 1;
    }
    assert calls[..k] == calls;
  }

  /** Any legal calls on a new heap of pages of 2^k bytes. The invariant holds afterwards,
      and once everything has been freed the heap is as new exactly when no call leaked. */
  method Session(amount: nat, k: nat, calls: seq<Call>) returns (h: Heap)
    requires k >= 1 && amount >= Pow2(k)
    requires amount / Pow2(k) >= 1 && Core(Initial(k, amount / Pow2(k)))
    requires LegalRun(Initial(k, amount / Pow2(k)), calls) && forall j :: 0 <= j < |calls| ==> Sensible(calls[j])
    ensures h.Ready({}, {}) && h.z == Run(Initial(k, amount / Pow2(k)), calls) && Inv(h.z)
    ensures Live(h.z) == {} ==>
      (h.z == Initial(k, amount / Pow2(k)) <==> Leakless(Initial(k, amount / Pow2(k)), calls))
  {
    hide Core, Legal, LegalRun, Run, Rep, Initial, Leakless, Live, Pow2, Occupied;
    h := new Heap(amount, k);
    ghost var n := amount / Pow2(k);
    InitialInv(k, n);
    PerformAll(h, calls);
    RunKeepsInv(Initial(k, n), calls);
    if Live(h.z) == {} { FreeingAllRestores(k, n, calls); }
  }
}
