/** Whole runs of the file system: whatever VFS asks for, in whatever order, the tree
    stays well formed and directories act as finite maps. */
module FfsRuns {
  import opened Bytes
  import opened FfsFormat
  import opened FfsContents
  import opened FfsTree
  import opened FfsDirs
  import opened FfsLinks
  import opened FfsNames
  import opened FfsMkfs
  import opened FfsImage

  /** The files, and how many blocks each of them takes. */
  datatype State = State(tree: Tree, use: Use)

  /** A call of VFS, with the file that it found under the name. */
  datatype Call =
    | Create(d: nat, kind: nat, name: Name, junk: seq<byte>)
    | Link(d: nat, i: nat, name: Name, junk: seq<byte>)
    | Unlink(d: nat, i: nat, name: Name)
    | Write(i: nat, pos: nat, data: seq<byte>)

  /** What VFS makes sure of: a new name is not there yet, a removed one is, only empty
      directories go, only files are written and linked. And what users have to make sure
      of: no write leaves out blocks. */
  ghost predicate Legal(s: State, n: nat, call: Call)
  {
    match call
    case Create(d, kind, name, junk) =>
      && IsDir(s.tree, d) && d in s.use.held && kind <= SLINK
      && NameOk(name) && |name| + 5 + |junk| == ENTRY && name !in DirMap(s.tree, d)
    case Link(d, i, name, junk) =>
      && IsDir(s.tree, d) && d in s.use.held && i in s.tree && s.tree[i].kind != DIR
      && Addable(i + 1, name, junk) && name !in DirMap(s.tree, d)
    case Unlink(d, i, name) => Unlinkable(s.tree, n, d, name, i)
    case Write(i, pos, data) =>
      && i in s.tree && s.tree[i].kind != DIR && i in s.use.held
      && pos < WORD_LIMIT && !Astray(s.use.held[i], pos, |data|)
  }

  /** The descriptor that a new file gets; there is none at n or above. */
  function NewIndex(t: Tree, n: nat): nat
  {
    LeastFree(t.Keys, n, 0)
  }

  /** The call wants more blocks than there are, or than a file can have. */
  ghost predicate Starves(s: State, n: nat, call: Call)
    requires Legal(s, n, call)
  {
    match call
    case Create(d, _, _, _) =>
      NewIndex(s.tree, n) < n && CreateStarves(s.use.room, s.use.held[d], |s.tree[d].bytes|)
    case Link(d, _, _, _) => Starved(s.use.room, s.use.held[d], |s.tree[d].bytes|, ENTRY)
    case Unlink(_, _, _) => false
    case Write(i, pos, data) => Starved(s.use.room, s.use.held[i], pos, |data|)
  }

  /** Bytes between the end of a file of size bytes and position pos. */
  predicate HoleAt(hole: seq<byte>, size: nat, pos: nat)
  {
    |hole| == if pos > size then pos - size else 0
  }

  /** What the call does to the files. A write behind the end of a file shows whatever its
      blocks hold there. */
  ghost predicate TreeTo(t: Tree, n: nat, call: Call, t': Tree)
    requires n < WORD_LIMIT
  {
    match call
    case Create(d, kind, name, junk) =>
      if NewIndex(t, n) < n && d in t && Addable(NewIndex(t, n) + 1, name, junk)
      then t' == TreeCreate(t, d, NewIndex(t, n), kind, name, junk) else t' == t
    case Link(d, i, name, junk) =>
      d in t && i in t && Addable(i + 1, name, junk) && t' == TreeLink(t, d, i, name, junk)
    case Unlink(d, i, name) => d in t && t' == TreeUnlink(t, d, name, i)
    case Write(i, pos, data) =>
      && i in t
      && exists hole ::
           HoleAt(hole, |t[i].bytes|, pos) && t' == TreeWritten(TreePadded(t, i, hole), i, pos, data)
  }

  /** What it does to the blocks. */
  ghost function UseAfter(s: State, n: nat, call: Call): Use
  {
    match call
    case Create(d, _, _, _) =>
      if NewIndex(s.tree, n) < n && d in s.tree then UseCreated(s.use, d, NewIndex(s.tree, n), |s.tree[d].bytes|)
      else s.use
    case Link(d, _, _, _) => if d in s.tree then UseWritten(s.use, d, |s.tree[d].bytes|, ENTRY) else s.use
    case Unlink(d, i, _) => if i in s.tree && s.tree[i].links == 1 then UseRemoved(s.use, i) else s.use
    case Write(i, pos, data) => UseWritten(s.use, i, pos, |data|)
  }

  ghost predicate StepTo(s: State, n: nat, call: Call, s': State)
    requires n < WORD_LIMIT
  {
    Legal(s, n, call) && !Starves(s, n, call) && TreeTo(s.tree, n, call, s'.tree) && s'.use == UseAfter(s, n, call)
  }

  /** What the call should do to directory e. */
  ghost function Intended(t: Tree, n: nat, call: Call, e: nat): map<Name, nat>
  {
    match call
    case Create(d, _, name, _) =>
      if e == d && NewIndex(t, n) < n then DirMap(t, e)[name := NewIndex(t, n) + 1] else DirMap(t, e)
    case Link(d, i, name, _) => if e == d then DirMap(t, e)[name := i + 1] else DirMap(t, e)
    case Unlink(d, i, name) => if e == d then DirMap(t, e) - {name} else DirMap(t, e)
    case Write(_, _, _) => DirMap(t, e)
  }

  /** File i has size bytes, or more if the data end behind them: the data at pos, the old
      bytes elsewhere as far as they go. */
  ghost predicate Overwrites(t: Tree, t': Tree, i: nat, pos: nat, data: seq<byte>)
  {
    && i in t && i in t' && t'[i].kind == t[i].kind && t'[i].links == t[i].links
    && var was, now := t[i].bytes, t'[i].bytes;
       && |now| == Max(|was|, pos + |data|)
       && (forall k :: pos <= k < pos + |data| ==> now[k] == data[k - pos])
       && (forall k :: 0 <= k < |was| && !(pos <= k < pos + |data|) ==> now[k] == was[k])
  }

  /** What the call should do to the files themselves. */
  ghost predicate FilesTo(t: Tree, n: nat, call: Call, t': Tree)
  {
    match call
    case Create(d, kind, _, _) =>
      var i := NewIndex(t, n);
      if i >= n then t' == t
      else
        && i !in t && i in t' && t'[i].kind == kind && t'[i].links == 1 && t'[i].bytes == []
        && (kind == DIR ==> IsDir(t', i) && DirMap(t', i) == map[])
        && Longer(t, t', d) && OthersSame(t, t', i, d)
    case Link(d, i, _, _) => i in t && Longer(t, t', d) && Renamed(t, t', i, t[i].links + 1) && OthersSame(t, t', i, d)
    case Unlink(d, i, _) =>
      && i in t && i != d && Shorter(t, t', d) && OthersSame(t, t', i, d)
      && if t[i].links == 1 then i !in t' else t[i].links > 1 && Renamed(t, t', i, t[i].links - 1)
    case Write(i, pos, data) => Overwrites(t, t', i, pos, data) && OthersSame(t, t', i, i)
  }

  lemma WriteMakes(t: Tree, t': Tree, i: nat, pos: nat, data: seq<byte>, hole: seq<byte>)
    requires i in t && HoleAt(hole, |t[i].bytes|, pos)
    requires t' == TreeWritten(TreePadded(t, i, hole), i, pos, data)
    ensures Overwrites(t, t', i, pos, data) && OthersSame(t, t', i, i)
  {
  }

  /** Writing a file, or filling it up, changes no directory and no link count. */
  lemma WriteKeeps(t: Tree, t': Tree, n: nat, i: nat)
    requires TreeOk(t, n) && i in t && t[i].kind != DIR && i in t'
    requires t' == t[i := t[i].(bytes := t'[i].bytes)]
    ensures TreeOk(t', n) && forall e: nat :: DirEntries(t', e) == DirEntries(t, e)
  {
    hide Entries, Distinct, NamesIn, Refs;
    assert t'.Keys == t.Keys;
    forall e: nat ensures DirEntries(t', e) == DirEntries(t, e) {}
    forall e: nat ensures DirOk(t', e) { assert DirOk(t, e); }
    forall k: nat ensures LinkOk(t', n, k) {
      assert LinkOk(t, n, k);
      RefsUpdate(t, t', k, n, n);
    }
  }

  lemma StepFiles(s: State, n: nat, call: Call, s': State)
    requires TreeOk(s.tree, n) && n < WORD_LIMIT && StepTo(s, n, call, s')
    ensures FilesTo(s.tree, n, call, s'.tree)
  {
    hide DirMap, Unlinkable, TreeUnlink, TreeLink, TreeCreate, Starves, UseAfter, Entries, TreeWritten, TreePadded;
    hide Overwrites, Longer, Shorter, Renamed, SameItem, DirOk, LinkOk;
    var t := s.tree;
    match call
    case Create(d, kind, name, junk) =>
      AlignedIn(t, d);
      if NewIndex(t, n) < n { CreateMakes(t, d, NewIndex(t, n), kind, name, junk); }
    case Link(d, i, name, junk) =>
      AlignedIn(t, d);
      LinkMakes(t, d, i, name, junk);
    case Unlink(d, i, name) => UnlinkMakes(t, n, d, name, i);
    case Write(i, pos, data) =>
      var hole :| HoleAt(hole, |t[i].bytes|, pos) && s'.tree == TreeWritten(TreePadded(t, i, hole), i, pos, data);
      WriteMakes(t, s'.tree, i, pos, data, hole);
  }

  /** Every call keeps the tree well formed, and does to every directory, as a map, what
      it should and nothing else, and so to the kinds, links and bytes of all files. */
  lemma StepKeeps(s: State, n: nat, call: Call, s': State)
    requires TreeOk(s.tree, n) && n < WORD_LIMIT && StepTo(s, n, call, s')
    ensures TreeOk(s'.tree, n)
    ensures forall e: nat :: DirMap(s'.tree, e) == Intended(s.tree, n, call, e)
    ensures FilesTo(s.tree, n, call, s'.tree)
  {
    hide TreeOk, DirMap, Unlinkable, TreeUnlink, TreeLink, TreeCreate, LeastFree, Starves, UseAfter;
    hide FilesTo;
    StepFiles(s, n, call, s');
    var t := s.tree;
    match call
    case Create(d, kind, name, junk) =>
      if NewIndex(t, n) < n { CreateKeeps(t, n, d, NewIndex(t, n), kind, name, junk); }
    case Link(d, i, name, junk) => LinkKeeps(t, n, d, i, name, junk);
    case Unlink(d, i, name) => UnlinkNameKeeps(t, n, d, name, i);
    case Write(i, pos, data) => WriteKeepsMaps(t, s'.tree, n, i);
  }

  lemma WriteKeepsMaps(t: Tree, t': Tree, n: nat, i: nat)
    requires TreeOk(t, n) && i in t && t[i].kind != DIR && i in t' && t' == t[i := t[i].(bytes := t'[i].bytes)]
    ensures TreeOk(t', n)
    ensures forall e: nat :: DirMap(t', e) == DirMap(t, e)
  {
    WriteKeeps(t, t', n, i);
  }

  // --- Runs ------------------------------------------------------------

  /** Every call is legal, whatever was shown before, as long as the calls can be met. */
  ghost predicate LegalRun(s: State, n: nat, calls: seq<Call>)
    requires n < WORD_LIMIT
    decreases calls
  {
    calls == []
    || (Legal(s, n, calls[0]) && forall s': State :: StepTo(s, n, calls[0], s') ==> LegalRun(s', n, calls[1..]))
  }

  /** The calls can be met and lead from s to u. */
  ghost predicate Reaches(s: State, n: nat, calls: seq<Call>, u: State)
    requires n < WORD_LIMIT
    decreases calls
  {
    if calls == [] then u == s
    else exists s': State :: StepTo(s, n, calls[0], s') && Reaches(s', n, calls[1..], u)
  }

  lemma ReachesNone(s: State, n: nat)
    requires n < WORD_LIMIT
    ensures Reaches(s, n, [], s)
  {
  }

  /** One call further. */
  lemma {:induction false} ReachesMore(s: State, n: nat, calls: seq<Call>, k: nat, u: State, u': State)
    requires n < WORD_LIMIT && k < |calls| && Reaches(s, n, calls[..k], u) && StepTo(u, n, calls[k], u')
    ensures Reaches(s, n, calls[..k + 1], u')
    decreases calls
  {
    hide StepTo;
    if k == 0 {
      assert calls[..1][1..] == [] && calls[..1][0] == calls[0];
      ReachesNone(u', n);
    } else {
      var s' :| StepTo(s, n, calls[..k][0], s') && Reaches(s', n, calls[..k][1..], u);
      assert calls[..k][1..] == calls[1..][..k - 1] && calls[..k + 1][1..] == calls[1..][..k];
      ReachesMore(s', n, calls[1..], k - 1, u, u');
    }
  }

  lemma {:induction false} LegalAt(s: State, n: nat, calls: seq<Call>, k: nat, u: State)
    requires n < WORD_LIMIT && k < |calls| && LegalRun(s, n, calls) && Reaches(s, n, calls[..k], u)
    ensures Legal(u, n, calls[k])
    decreases calls
  {
    hide StepTo, Legal;
    if k > 0 {
      var s' :| StepTo(s, n, calls[..k][0], s') && Reaches(s', n, calls[..k][1..], u);
      assert calls[..k][1..] == calls[1..][..k - 1];
      LegalAt(s', n, calls[1..], k - 1, u);
    }
  }

  lemma {:induction false} RunKeeps(s: State, n: nat, calls: seq<Call>, u: State)
    requires n < WORD_LIMIT && TreeOk(s.tree, n) && Reaches(s, n, calls, u)
    ensures TreeOk(u.tree, n)
    decreases calls
  {
    hide StepTo, TreeOk;
    if calls != [] {
      var s' :| StepTo(s, n, calls[0], s') && Reaches(s', n, calls[1..], u);
      StepKeeps(s, n, calls[0], s');
      RunKeeps(s', n, calls[1..], u);
    }
  }

  /** The state that mkfs leaves behind. */
  function MkState(geo: Geometry, junk: seq<byte>): State
    requires |junk| == 2
  {
    State(MkTree(junk), Use(map[0 := 1, 1 := 1, 2 := 1], geo.blocks - geo.Service() - 6))
  }

  /** From a fresh file system on, link counts are entry counts, no name dangles and
      every lookup is an application of the directory's map. */
  lemma EveryRunWellFormed(geo: Geometry, junk: seq<byte>, calls: seq<Call>, u: State, d: nat, name: Name)
    requires 3 <= geo.files < WORD_LIMIT && |junk| == 2
    requires Reaches(MkState(geo, junk), geo.files, calls, u) && IsDir(u.tree, d)
    ensures TreeOk(u.tree, geo.files)
    ensures name !in DirMap(u.tree, d) ==> TreeLookup(u.tree, d, name) == Negative
    ensures name in DirMap(u.tree, d) ==>
      TreeLookup(u.tree, d, name).Found? && TreeLookup(u.tree, d, name).i + 1 == DirMap(u.tree, d)[name]
  {
    hide TreeOk, TreeLookup, Reaches;
    ImageTreeOk(geo.files, junk);
    RunKeeps(MkState(geo, junk), geo.files, calls, u);
    LookupIsMap(u.tree, geo.files, d, name);
  }

  // --- Holes do not matter to blocks -----------------------------------

  /** The same but for the bytes of files that are no directories. */
  predicate ItemsAlike(t: Tree, t': Tree, i: nat)
  {
    && (i in t <==> i in t')
    && (i in t && i in t' ==>
          && t[i].kind == t'[i].kind && t[i].links == t'[i].links && |t[i].bytes| == |t'[i].bytes|
          && (t[i].kind == DIR ==> t[i].bytes == t'[i].bytes))
  }

  ghost predicate Alike(s: State, s': State)
  {
    s.use == s'.use && forall i: nat :: ItemsAlike(s.tree, s'.tree, i)
  }

  lemma KeysAlike(s: State, s': State)
    requires Alike(s, s')
    ensures s.tree.Keys == s'.tree.Keys
  {
    forall i: nat ensures i in s.tree <==> i in s'.tree { assert ItemsAlike(s.tree, s'.tree, i); }
  }

  lemma StarvesAlike(s: State, s': State, n: nat, call: Call)
    requires Alike(s, s') && Legal(s, n, call) && Legal(s', n, call)
    ensures Starves(s, n, call) <==> Starves(s', n, call)
  {
    hide DirMap, Unlinkable, Starved, CreateStarves, Astray, LeastFree;
    KeysAlike(s, s');
    match call
    case Create(d, _, _, _) => assert ItemsAlike(s.tree, s'.tree, d);
    case Link(d, _, _, _) => assert ItemsAlike(s.tree, s'.tree, d);
    case Unlink(_, _, _) =>
    case Write(_, _, _) =>
  }

  lemma CreateAlike(s: State, s': State, n: nat, call: Call, u: State, u': State)
    requires n < WORD_LIMIT && Alike(s, s') && StepTo(s, n, call, u) && StepTo(s', n, call, u') && call.Create?
    ensures Alike(u, u')
  {
    hide DirMap, Starves, Unlinkable, Astray, LeastFree, Entries, EntryBytes, Written, UseCreated;
    hide UseWritten, UseRemoved;
    KeysAlike(s, s');
    assert ItemsAlike(s.tree, s'.tree, call.d);
    forall k: nat ensures ItemsAlike(u.tree, u'.tree, k) { assert ItemsAlike(s.tree, s'.tree, k); }
  }

  lemma LinkAlike(s: State, s': State, n: nat, call: Call, u: State, u': State)
    requires n < WORD_LIMIT && Alike(s, s') && StepTo(s, n, call, u) && StepTo(s', n, call, u') && call.Link?
    ensures Alike(u, u')
  {
    hide DirMap, Starves, Unlinkable, Astray, LeastFree, Entries, EntryBytes, Written, UseCreated;
    hide UseWritten, UseRemoved;
    KeysAlike(s, s');
    assert ItemsAlike(s.tree, s'.tree, call.d);
    assert ItemsAlike(s.tree, s'.tree, call.i);
    forall k: nat ensures ItemsAlike(u.tree, u'.tree, k) { assert ItemsAlike(s.tree, s'.tree, k); }
  }

  lemma UnlinkAlike(s: State, s': State, n: nat, call: Call, u: State, u': State)
    requires n < WORD_LIMIT && Alike(s, s') && StepTo(s, n, call, u) && StepTo(s', n, call, u') && call.Unlink?
    ensures Alike(u, u')
  {
    hide DirMap, TreeOk, Entries, Find, Cut, TreeUnlink, UseRemoved;
    var d, i, name := call.d, call.i, call.name;
    assert ItemsAlike(s.tree, s'.tree, d) && ItemsAlike(s.tree, s'.tree, i);
    UnlinkFacts(s.tree, n, d, name, i);
    UnlinkFacts(s'.tree, n, d, name, i);
    forall k: nat ensures ItemsAlike(u.tree, u'.tree, k) { assert ItemsAlike(s.tree, s'.tree, k); }
  }

  lemma WriteAlike(s: State, s': State, n: nat, call: Call, u: State, u': State)
    requires n < WORD_LIMIT && Alike(s, s') && StepTo(s, n, call, u) && StepTo(s', n, call, u') && call.Write?
    ensures Alike(u, u')
  {
    hide DirMap, Starves, Unlinkable, Astray, LeastFree, Entries, EntryBytes, Written, UseCreated;
    hide UseWritten, UseRemoved;
    KeysAlike(s, s');
    assert ItemsAlike(s.tree, s'.tree, call.i);
    forall k: nat ensures ItemsAlike(u.tree, u'.tree, k) { assert ItemsAlike(s.tree, s'.tree, k); }
  }

  lemma StepAlike(s: State, s': State, n: nat, call: Call, u: State, u': State)
    requires n < WORD_LIMIT && Alike(s, s') && StepTo(s, n, call, u) && StepTo(s', n, call, u')
    ensures Alike(u, u')
  {
    hide Alike, StepTo;
    match call
    case Create(_, _, _, _) => CreateAlike(s, s', n, call, u, u');
    case Link(_, _, _, _) => LinkAlike(s, s', n, call, u, u');
    case Unlink(_, _, _) => UnlinkAlike(s, s', n, call, u, u');
    case Write(_, _, _) => WriteAlike(s, s', n, call, u, u');
  }

  /** The same calls lead to states that are alike. */
  lemma {:induction false} RunsAlike(s: State, s': State, n: nat, calls: seq<Call>, u: State, u': State)
    requires n < WORD_LIMIT && Alike(s, s') && Reaches(s, n, calls, u) && Reaches(s', n, calls, u')
    ensures Alike(u, u')
    decreases calls
  {
    hide StepTo, Alike;
    if calls != [] {
      var s1 :| StepTo(s, n, calls[0], s1) && Reaches(s1, n, calls[1..], u);
      var s2 :| StepTo(s', n, calls[0], s2) && Reaches(s2, n, calls[1..], u');
      StepAlike(s, s', n, calls[0], s1, s2);
      RunsAlike(s1, s2, n, calls[1..], u, u');
    }
  }
}
