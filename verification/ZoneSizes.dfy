/** Sizes, classes and free pages: the arithmetic and the searches of the zone
    allocator. */
module ZoneSizes {
  import opened Options
  import opened Powers
  import opened ZoneModel

  /** First free page; page 0 never is. */
  function FirstFree(pages: seq<Page>, from: nat): (r: Option<nat>)
    requires from <= |pages|
    ensures r.Some? ==> from <= r.value < |pages| && pages[r.value].Free?
    ensures r.Some? ==> forall q :: from <= q < r.value ==> !pages[q].Free?
    ensures r.None? ==> forall q :: from <= q < |pages| ==> !pages[q].Free?
    decreases |pages| - from
  {
    if from == |pages| then None
    else if pages[from].Free? then Some(from)
    else FirstFree(pages, from + 1)
  }

  const DESCRIPTOR: nat := 24

  /** Requests below the size of a descriptor are raised to it. */
  function Request(size: nat): (r: nat)
    ensures r >= 24 && r >= size && (r == 24 || r == size)
  {
    if size >= DESCRIPTOR then size else DESCRIPTOR
  }

  function ClassOf(size: nat): nat
  {
    FloatLog(Request(size) - 1) + 1
  }

  lemma SmallPowers()
    ensures Pow2(4) == 16 && Pow2(5) == 32
  {
  }

  lemma DescriptorClass()
    ensures ClassOf(DESCRIPTOR) == DC
  {
    hide Pow2, Log2, Overshoots, FloatLog;
    SmallPowers();
    LogUnique(23, 4);
    FloatLogIs(23);
    NoOvershootBelow(23);
  }

  lemma LargeEnough(v: nat)
    requires v >= 2
    ensures v <= Pow2(FloatLog(v - 1) + 1)
  {
    hide Pow2, FloatLog, Overshoots;
    RoundPow2Least(v);
  }

  lemma ClassAtLeastDC(size: nat)
    ensures ClassOf(size) >= DC && ClassOf(DESCRIPTOR) == DC
    ensures Request(size) <= Pow2(ClassOf(size))
  {
    hide Pow2, FloatLog;
    DescriptorClass();
    LargeEnough(Request(size));
    SmallPowers();
    if ClassOf(size) < DC { Monotone(ClassOf(size), 4); }
  }

  /** A class is that of the least power of two at or above the request, or the next one
      if the conversion to float overshoots. */
  lemma ClassOfLeast(size: nat) returns (p: nat)
    ensures LeastPower(Request(size), p)
    ensures Pow2(ClassOf(size)) == if Overshoots(Request(size) - 1) then 2 * p else p
  {
    hide FloatLog, Overshoots, Log2, Exponent;
    var v := Request(size);
    p := Pow2(FloatLog(v - 1) + 1 - if Overshoots(v - 1) then 1 else 0);
    FloatLogLeast(v);
    FloatLogIs(v - 1);
  }

  /** Pages of a multipage block of class c. */
  function RunLength(k: nat, c: nat): nat
  {
    (Pow2(c) + Pow2(k) / 2) / Pow2(k)
  }

  predicate FreeRun(pages: seq<Page>, p: nat, num: nat)
  {
    p + num <= |pages| && forall q :: p <= q < p + num ==> pages[q].Free?
  }

  /** The leftmost run of num free pages from p on. */
  function LeftmostRun(pages: seq<Page>, p: nat, num: nat): (r: Option<nat>)
    ensures r.Some? ==> r.value >= p && FreeRun(pages, r.value, num)
    ensures forall q :: p <= q && (r.Some? ==> q < r.value) ==> !FreeRun(pages, q, num)
    decreases |pages| - p
  {
    if p + num > |pages| then None
    else if FreeRun(pages, p, num) then Some(p)
    else LeftmostRun(pages, p + 1, num)
  }

  /** The page count of a multipage block always covers the rounded size. */
  lemma RunCovers(k: nat, c: nat)
    requires k >= 1 && c + 1 >= k
    ensures RunLength(k, c) >= 1 && RunLength(k, c) * Pow2(k) >= Pow2(c)
    ensures RunLength(k, c) == if c <= k then 1 else Pow2(c - k)
  {
    hide Pow2;
    PowZero();
    if c == k - 1 {
      Doubles(c);
      HalfPage(Pow2(c));
    } else {
      Doubles(k - 1);
      Sum(c - k, k);
      Quotient(Pow2(c - k), Pow2(k));
    }
  }

  lemma Doubles(n: nat)
    ensures Pow2(n + 1) == 2 * Pow2(n)
  {
  }

  lemma PowZero()
    ensures Pow2(0) == 1
  {
  }

  lemma HalfPage(half: nat)
    requires half >= 1
    ensures (half + (2 * half) / 2) / (2 * half) == 1
  {
    DivBounds(2 * half, 2 * half, 1, 2);
  }

  lemma Quotient(m: nat, unit: nat)
    requires unit >= 2
    ensures (m * unit + unit / 2) / unit == m
  {
    var n := m * unit + unit / 2;
    assert (m + 1) * unit == m * unit + unit;
    DivBounds(n, unit, m, m + 1);
  }
}
