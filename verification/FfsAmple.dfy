/** When no call of a run can fail: what the calls may take at most is left on the device,
    and no file can outgrow its datablock. */
module FfsAmple {
  import opened Bytes
  import opened FfsFormat
  import opened FfsContents
  import opened FfsTree
  import opened FfsDirs
  import opened FfsLinks
  import opened FfsNames
  import opened FfsMkfs
  import opened FfsImage
  import opened FfsRuns

  /** Blocks that a call takes at most. */
  function Demand(call: Call): nat
  {
    match call
    case Create(_, _, _, _) => 2
    case Link(_, _, _, _) => 1
    case Unlink(_, _, _) => 0
    case Write(_, _, data) => if data == [] then 0 else |data| / BLOCK + 2
  }

  function Total(calls: seq<Call>): nat
  {
    if calls == [] then 0 else Demand(calls[0]) + Total(calls[1..])
  }

  /** What a user can check beforehand: room enough, no directory of more than 127 blocks
      even if every call adds an entry, and no write behind 127 blocks. */
  predicate Ample(geo: Geometry, calls: seq<Call>)
  {
    && Total(calls) + geo.Service() + 6 <= geo.blocks && ENTRY * (|calls| + 2) <= BLOCK * MAX_BLOCKS
    && forall k :: 0 <= k < |calls| && calls[k].Write? ==> calls[k].pos + |calls[k].data| <= BLOCK * MAX_BLOCKS
  }

  ghost predicate DirsBelow(t: Tree, m: nat)
  {
    forall d: nat :: IsDir(t, d) ==> |t[d].bytes| <= m
  }

  lemma NeededAtMost(count: nat, pos: nat, len: nat)
    ensures Needed(count, pos, len) <= if len == 0 then 0 else len / BLOCK + 2
    ensures len == ENTRY && pos % ENTRY == 0 ==> Needed(count, pos, len) <= 1
  {
  }

  lemma StepTakes(s: State, n: nat, call: Call, s': State)
    requires n < WORD_LIMIT && TreeOk(s.tree, n) && StepTo(s, n, call, s')
    ensures s'.use.room >= s.use.room - Demand(call)
  {
    hide DirMap, Unlinkable, Starves, TreeTo, Needed, LeastFree;
    match call
    case Create(d, _, _, _) =>
      AlignedIn(s.tree, d);
      if d in s.use.held { NeededAtMost(s.use.held[d], |s.tree[d].bytes|, ENTRY); }
      NeededAtMost(0, |s.tree[d].bytes|, ENTRY);
    case Link(d, _, _, _) =>
      AlignedIn(s.tree, d);
      NeededAtMost(s.use.held[d], |s.tree[d].bytes|, ENTRY);
    case Unlink(_, _, _) =>
    case Write(i, pos, data) => NeededAtMost(s.use.held[i], pos, |data|);
  }

  lemma StepGrows(s: State, n: nat, call: Call, s': State, m: nat)
    requires n < WORD_LIMIT && StepTo(s, n, call, s') && DirsBelow(s.tree, m)
    ensures DirsBelow(s'.tree, m + ENTRY)
  {
    hide DirMap, TreeOk, Starves, UseAfter, LeastFree, Entries, Find, EntryBytes, Written, TreeUnlink;
    match call
    case Create(_, _, _, _) =>
    case Link(_, _, _, _) =>
    case Unlink(d, i, name) => UnlinkFacts(s.tree, n, d, name, i);
    case Write(_, _, _) =>
  }

  /** No call can fail while there is room for it. */
  lemma NoStarving(s: State, n: nat, call: Call, m: nat)
    requires n < WORD_LIMIT && TreeOk(s.tree, n) && Legal(s, n, call) && DirsBelow(s.tree, m)
    requires m + ENTRY <= BLOCK * MAX_BLOCKS && Demand(call) <= s.use.room
    requires call.Write? ==> call.pos + |call.data| <= BLOCK * MAX_BLOCKS
    ensures !Starves(s, n, call)
  {
    hide DirMap, Unlinkable, Needed, LeastFree, Astray;
    match call
    case Create(d, _, _, _) =>
      AlignedIn(s.tree, d);
      NeededAtMost(s.use.held[d], |s.tree[d].bytes|, ENTRY);
    case Link(d, _, _, _) =>
      AlignedIn(s.tree, d);
      NeededAtMost(s.use.held[d], |s.tree[d].bytes|, ENTRY);
    case Unlink(_, _, _) =>
    case Write(i, pos, data) => NeededAtMost(s.use.held[i], pos, |data|);
  }

  /** Over a run. */
  lemma {:induction false} RunTakes(s: State, n: nat, calls: seq<Call>, u: State, m: nat)
    requires n < WORD_LIMIT && TreeOk(s.tree, n) && Reaches(s, n, calls, u) && DirsBelow(s.tree, m)
    ensures u.use.room >= s.use.room - Total(calls) && DirsBelow(u.tree, m + ENTRY * |calls|)
    decreases calls
  {
    hide StepTo, TreeOk, DirsBelow, Demand;
    if calls != [] {
      var s' :| StepTo(s, n, calls[0], s') && Reaches(s', n, calls[1..], u);
      StepKeeps(s, n, calls[0], s');
      StepTakes(s, n, calls[0], s');
      StepGrows(s, n, calls[0], s', m);
      RunTakes(s', n, calls[1..], u, m + ENTRY);
    }
  }

  lemma {:induction false} TotalAt(calls: seq<Call>, k: nat)
    requires k < |calls|
    ensures Total(calls[..k]) + Demand(calls[k]) <= Total(calls)
  {
    hide Demand;
    if k > 0 {
      TotalAt(calls[1..], k - 1);
      assert calls[..k][1..] == calls[1..][..k - 1];
    }
  }

  lemma MkDirs(junk: seq<byte>)
    requires |junk| == 2
    ensures DirsBelow(MkTree(junk), 2 * ENTRY)
  {
    hide RootBytes;
  }

  /** After mkfs no call of an ample run can fail, wherever the calls before have led. */
  lemma AmpleNeverStarves(geo: Geometry, junk: seq<byte>, calls: seq<Call>, k: nat, u: State)
    requires 3 <= geo.files < WORD_LIMIT && |junk| == 2 && Ample(geo, calls) && k < |calls|
    requires Reaches(MkState(geo, junk), geo.files, calls[..k], u) && Legal(u, geo.files, calls[k])
    ensures !Starves(u, geo.files, calls[k])
  {
    hide Reaches, TreeOk, Legal, Starves, DirsBelow, Demand, MkTree;
    ImageTreeOk(geo.files, junk);
    MkDirs(junk);
    RunKeeps(MkState(geo, junk), geo.files, calls[..k], u);
    RunTakes(MkState(geo, junk), geo.files, calls[..k], u, 2 * ENTRY);
    TotalAt(calls, k);
    NoStarving(u, geo.files, calls[k], 2 * ENTRY + ENTRY * k);
  }
}
