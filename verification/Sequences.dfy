/** Lists without repetition and the sets of their members. */
module Sequences {

  /** The members of a list, as a set. */
  ghost function Elems(s: seq<nat>): set<nat>
  {
    set x | x in s
  }

  predicate NoDup(s: seq<nat>)
  {
    forall i, j :: 0 <= i < j < |s| ==> s[i] != s[j]
  }

  lemma ElemsAt(s: seq<nat>, j: nat)
    requires j < |s|
    ensures s[j] in Elems(s)
  {
  }

  lemma ElemsNil()
    ensures Elems([]) == {} && NoDup([])
  {
  }

  lemma ElemsOne(s: seq<nat>)
    requires |s| == 1
    ensures Elems(s) == {s[0]} && NoDup(s)
  {
  }

  lemma ElemsAppend(s: seq<nat>, p: nat)
    ensures Elems(s + [p]) == Elems(s) + {p}
    ensures NoDup(s) && p !in Elems(s) ==> NoDup(s + [p])
  {
  }

  lemma ElemsCons(p: nat, s: seq<nat>)
    ensures Elems([p] + s) == {p} + Elems(s)
    ensures NoDup(s) && p !in Elems(s) ==> NoDup([p] + s)
  {
  }

  lemma ElemsTail(s: seq<nat>)
    requires s != [] && NoDup(s)
    ensures Elems(s[1..]) == Elems(s) - {s[0]} && NoDup(s[1..])
  {
    assert s == [s[0]] + s[1..];
  }

  lemma ElemsInit(s: seq<nat>)
    requires s != [] && NoDup(s)
    ensures Elems(s[..|s| - 1]) == Elems(s) - {s[|s| - 1]} && NoDup(s[..|s| - 1]) && s[|s| - 1] in Elems(s)
  {
    var init, last := s[..|s| - 1], s[|s| - 1];
    assert s == init + [last];
    ElemsAppend(init, last);
    assert last !in Elems(init);
  }

  lemma {:induction false} ElemsSize(s: seq<nat>)
    requires NoDup(s)
    ensures |Elems(s)| == |s|
  {
    if s == [] {
      ElemsNil();
    } else {
      ElemsTail(s);
      ElemsAt(s, 0);
      ElemsSize(s[1..]);
    }
  }

  /** A set of numbers from lo to hi - 1 has at most hi - lo members, and that many
      exactly when it has all of them. */
  lemma {:induction false} Filled(s: set<nat>, lo: nat, hi: nat)
    requires lo <= hi && forall x :: x in s ==> lo <= x < hi
    ensures |s| <= hi - lo
    ensures |s| == hi - lo <==> forall x :: lo <= x < hi ==> x in s
    decreases hi - lo
  {
    if lo < hi {
      var s' := s - {hi - 1};
      Filled(s', lo, hi - 1);
      assert hi - 1 in s ==> s == s' + {hi - 1};
      assert hi - 1 !in s ==> s == s';
      if |s'| == hi - 1 - lo && hi - 1 in s { assert forall x :: lo <= x < hi ==> x in s; }
    }
  }
}
