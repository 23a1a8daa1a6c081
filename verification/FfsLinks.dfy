/** The directory tree: names, link counts, and the operations on both. */
module FfsLinks {
  import opened Bytes
  import opened FfsFormat
  import opened FfsTree
  import opened FfsDirs

  function DirEntries(t: Tree, d: nat): seq<Entry>
  {
    if d in t && t[d].kind == DIR then Entries(t[d].bytes) else []
  }

  /** How many entries of a directory name file number fd. */
  function Count(es: seq<Entry>, fd: nat): nat
  {
    if es == [] then 0 else Count(es[..|es| - 1], fd) + if es[|es| - 1].fd == fd then 1 else 0
  }

  lemma {:induction false} CountConcat(a: seq<Entry>, b: seq<Entry>, fd: nat)
    ensures Count(a + b, fd) == Count(a, fd) + Count(b, fd)
  {
    if b == [] {
      assert a + b == a;
    } else {
      CountConcat(a, b[..|b| - 1], fd);
      assert (a + b)[..|a + b| - 1] == a + b[..|b| - 1];
    }
  }

  lemma CountOne(e: Entry, fd: nat)
    ensures Count([e], fd) == if e.fd == fd then 1 else 0
  {
    assert [e][..0] == [];
  }

  lemma CountCut(es: seq<Entry>, k: nat, fd: nat)
    requires k < |es|
    ensures Count(es, fd) == Count(es[..k] + es[k + 1..], fd) + if es[k].fd == fd then 1 else 0
  {
    assert es == es[..k] + ([es[k]] + es[k + 1..]);
    CountConcat(es[..k], [es[k]] + es[k + 1..], fd);
    CountConcat([es[k]], es[k + 1..], fd);
    CountOne(es[k], fd);
    CountConcat(es[..k], es[k + 1..], fd);
  }

  lemma {:induction false} CountNone(es: seq<Entry>, fd: nat)
    ensures Count(es, fd) == 0 <==> forall j :: 0 <= j < |es| ==> es[j].fd != fd
  {
    if es != [] {
      CountNone(es[..|es| - 1], fd);
      assert forall j :: 0 <= j < |es| - 1 ==> es[j] == es[..|es| - 1][j];
    }
  }

  /** Entries that name file i, over all directories below n. */
  function Refs(t: Tree, i: nat, n: nat): nat
  {
    if n == 0 then 0 else Refs(t, i, n - 1) + Count(DirEntries(t, n - 1), i + 1)
  }

  lemma {:induction false} RefsUpdate(t: Tree, t': Tree, i: nat, n: nat, d: nat)
    requires forall e: nat :: e != d ==> Count(DirEntries(t', e), i + 1) == Count(DirEntries(t, e), i + 1)
    ensures d < n ==>
      Refs(t', i, n) + Count(DirEntries(t, d), i + 1) == Refs(t, i, n) + Count(DirEntries(t', d), i + 1)
    ensures d >= n ==> Refs(t', i, n) == Refs(t, i, n)
  {
    hide Count, DirEntries;
    if n > 0 { RefsUpdate(t, t', i, n - 1, d); }
  }

  lemma {:induction false} RefsAtLeast(t: Tree, i: nat, n: nat, d: nat)
    requires d < n
    ensures Refs(t, i, n) >= Count(DirEntries(t, d), i + 1)
  {
    hide Count, DirEntries;
    if d < n - 1 { RefsAtLeast(t, i, n - 1, d); }
  }

  // --- Invariant -------------------------------------------------------

  /** Every entry names one of these files. */
  predicate NamesIn(es: seq<Entry>, files: set<nat>)
  {
    forall j :: 0 <= j < |es| ==> es[j].fd >= 1 && es[j].fd - 1 in files
  }

  predicate Aligned(t: Tree, d: nat)
  {
    d in t && t[d].kind == DIR ==> |t[d].bytes| % ENTRY == 0
  }

  /** Names in a directory are distinct, and every entry names a file. */
  ghost predicate DirOk(t: Tree, d: nat)
  {
    Aligned(t, d) && Distinct(DirEntries(t, d)) && NamesIn(DirEntries(t, d), t.Keys)
  }

  lemma SameDir(t: Tree, t': Tree, d: nat)
    requires (d in t' <==> d in t) && (d in t ==> t'[d].kind == t[d].kind && t'[d].bytes == t[d].bytes)
    ensures DirEntries(t', d) == DirEntries(t, d) && (Aligned(t, d) <==> Aligned(t', d))
  {
  }

  lemma NamesInAppend(es: seq<Entry>, e: Entry, files: set<nat>)
    requires NamesIn(es, files) && e.fd >= 1 && e.fd - 1 in files
    ensures NamesIn(es + [e], files)
  {
  }

  lemma NamesInCut(es: seq<Entry>, k: nat, files: set<nat>)
    requires NamesIn(es, files) && k < |es|
    ensures NamesIn(es[..k] + es[k + 1..], files)
  {
  }

  lemma NamesInMore(es: seq<Entry>, files: set<nat>, files': set<nat>)
    requires NamesIn(es, files) && files <= files'
    ensures NamesIn(es, files')
  {
  }

  /** A file's link count is the number of entries that name it; the root, which no
      entry names, counts one. A directory has one link. */
  ghost predicate LinkOk(t: Tree, n: nat, i: nat)
  {
    i in t ==>
      && i < n && t[i].links >= 1 && t[i].links == Refs(t, i, n) + (if i == 0 then 1 else 0)
      && (t[i].kind == DIR ==> t[i].links == 1)
  }

  ghost predicate TreeOk(t: Tree, n: nat)
  {
    && 0 in t && t[0].kind == DIR
    && (forall d: nat :: DirOk(t, d)) && (forall i: nat :: LinkOk(t, n, i))
  }

  /** A directory as a finite map from names to file numbers. */
  ghost function DirMap(t: Tree, d: nat): map<Name, nat>
  {
    MapOf(DirEntries(t, d))
  }

  // --- Operations ------------------------------------------------------

  predicate IsDir(t: Tree, d: nat) { d in t && t[d].kind == DIR }

  /** What the callers hand to add_to_dir: a name that fits, and stack contents. */
  predicate Addable(fd: nat, name: Name, junk: seq<byte>)
  {
    fd < WORD_LIMIT && NameOk(name) && |name| + 5 + |junk| == ENTRY
  }

  /** add_to_dir */
  function TreeAdd(t: Tree, d: nat, fd: nat, name: Name, junk: seq<byte>): Tree
    requires d in t && Addable(fd, name, junk)
  {
    TreeWritten(t, d, |t[d].bytes|, EntryBytes(fd, name, junk))
  }

  /** create_entry */
  function TreeCreate(t: Tree, d: nat, i: nat, kind: nat, name: Name, junk: seq<byte>): Tree
    requires d in t && Addable(i + 1, name, junk)
  {
    TreeAdd(t[i := Item(kind, 1, [])], d, i + 1, name, junk)
  }

  function WithLinks(t: Tree, i: nat, links: nat): Tree
    requires i in t
  {
    t[i := t[i].(links := links)]
  }

  /** ffs_link */
  function TreeLink(t: Tree, d: nat, i: nat, name: Name, junk: seq<byte>): Tree
    requires d in t && i in t && Addable(i + 1, name, junk)
  {
    var t1 := TreeAdd(t, d, i + 1, name, junk);
    WithLinks(t1, i, t[i].links + 1)
  }

  /** remove_from_dir, for the entry at position k */
  function TreeCut(t: Tree, d: nat, k: nat): Tree
    requires d in t && ENTRY * k + ENTRY <= |t[d].bytes|
  {
    t[d := t[d].(bytes := Cut(t[d].bytes, k))]
  }

  /** A file loses a link, and goes with its last one. */
  function TreeDrop(t: Tree, i: nat): Tree
    requires i in t && t[i].links >= 1
  {
    if t[i].links == 1 then t - {i} else WithLinks(t, i, t[i].links - 1)
  }

  lemma AddEntries(t: Tree, d: nat, fd: nat, name: Name, junk: seq<byte>)
    requires IsDir(t, d) && Addable(fd, name, junk) && |t[d].bytes| % ENTRY == 0
    ensures var t' := TreeAdd(t, d, fd, name, junk);
      && DirEntries(t', d) == DirEntries(t, d) + [Entry(fd, name)]
      && t' == t[d := t[d].(bytes := t[d].bytes + EntryBytes(fd, name, junk))]
  {
    var e := EntryBytes(fd, name, junk);
    assert t[d].bytes[..|t[d].bytes|] + e + [] == t[d].bytes + e;
    EntriesAppend(t[d].bytes, fd, name, junk);
  }

  /** A new entry changes the directory only. */
  lemma AddSpares(t: Tree, d: nat, i: nat, name: Name, junk: seq<byte>)
    requires d in t && i in t && i != d && Addable(i + 1, name, junk)
    ensures i in TreeAdd(t, d, i + 1, name, junk) && TreeAdd(t, d, i + 1, name, junk)[i] == t[i]
  {
  }

  lemma AddRefs(t: Tree, d: nat, fd: nat, name: Name, junk: seq<byte>, i: nat, n: nat)
    requires IsDir(t, d) && d < n && Addable(fd, name, junk) && |t[d].bytes| % ENTRY == 0
    ensures Refs(TreeAdd(t, d, fd, name, junk), i, n) == Refs(t, i, n) + if fd == i + 1 then 1 else 0
  {
    hide Count, Entries, EntryBytes, TreeAdd, Refs;
    AddEntries(t, d, fd, name, junk);
    var t' := TreeAdd(t, d, fd, name, junk);
    CountConcat(DirEntries(t, d), [Entry(fd, name)], i + 1);
    CountOne(Entry(fd, name), i + 1);
    RefsUpdate(t, t', i, n, d);
  }

  /** Adding an entry for a file that is there, under a name that is not. */
  lemma AddDirs(t: Tree, d: nat, fd: nat, name: Name, junk: seq<byte>)
    requires (forall e: nat :: DirOk(t, e)) && IsDir(t, d) && Addable(fd, name, junk)
    requires name !in DirMap(t, d) && fd >= 1 && fd - 1 in t
    ensures var t' := TreeAdd(t, d, fd, name, junk);
      && t'.Keys == t.Keys && (forall e: nat :: DirOk(t', e))
      && DirMap(t', d) == DirMap(t, d)[name := fd] && forall e: nat :: e != d ==> DirEntries(t', e) == DirEntries(t, e)
  {
    hide Entries, EntryBytes, TreeAdd, Distinct, MapOf, NamesIn, DirEntries;
    assert DirOk(t, d);
    AddEntries(t, d, fd, name, junk);
    MapAppend(DirEntries(t, d), Entry(fd, name));
    NamesInAppend(DirEntries(t, d), Entry(fd, name), t.Keys);
    var t' := TreeAdd(t, d, fd, name, junk);
    assert t'.Keys == t.Keys;
    forall e: nat ensures DirOk(t', e) && (e != d ==> DirEntries(t', e) == DirEntries(t, e)) {
      assert DirOk(t, e);
      if e != d { SameDir(t, t', e); }
    }
  }

  /** A new file has no entries and no links. */
  lemma FreshDirs(t: Tree, i: nat, kind: nat)
    requires (forall e: nat :: DirOk(t, e)) && i !in t
    ensures var t' := t[i := Item(kind, 1, [])];
      && (forall e: nat :: DirOk(t', e)) && (forall e: nat :: DirEntries(t', e) == DirEntries(t, e))
  {
    hide Distinct, NamesIn;
    var t' := t[i := Item(kind, 1, [])];
    forall e: nat ensures DirOk(t', e) && DirEntries(t', e) == DirEntries(t, e) {
      assert DirOk(t, e);
      NamesInMore(DirEntries(t, e), t.Keys, t'.Keys);
    }
  }

  // --- What happens to the files themselves ----------------------------

  /** Item k is there before and after, or neither, and is the same. */
  predicate SameItem(t: Tree, t': Tree, k: nat)
  {
    (k in t <==> k in t') && (k in t && k in t' ==> t'[k] == t[k])
  }

  /** All files but a and b stay as they are. */
  ghost predicate OthersSame(t: Tree, t': Tree, a: nat, b: nat)
  {
    forall k: nat :: k == a || k == b || SameItem(t, t', k)
  }

  /** Directory d has one entry more at its end, and is otherwise the same. */
  predicate Longer(t: Tree, t': Tree, d: nat)
  {
    && d in t && d in t' && t'[d].kind == t[d].kind && t'[d].links == t[d].links
    && |t'[d].bytes| == |t[d].bytes| + ENTRY && t[d].bytes <= t'[d].bytes
  }

  /** One entry less. */
  predicate Shorter(t: Tree, t': Tree, d: nat)
  {
    && d in t && d in t' && t'[d].kind == t[d].kind && t'[d].links == t[d].links
    && |t'[d].bytes| == |t[d].bytes| - ENTRY
  }

  /** File i has links names now. Its bytes are the same. */
  predicate Renamed(t: Tree, t': Tree, i: nat, links: nat)
  {
    i in t && i in t' && t'[i].kind == t[i].kind && t'[i].bytes == t[i].bytes && t'[i].links == links
  }

  /** A new file is of the kind that was asked for, empty, with one name; a new directory
      has no names in it. */
  lemma CreateMakes(t: Tree, d: nat, i: nat, kind: nat, name: Name, junk: seq<byte>)
    requires IsDir(t, d) && |t[d].bytes| % ENTRY == 0 && i !in t && Addable(i + 1, name, junk)
    ensures var t' := TreeCreate(t, d, i, kind, name, junk);
      && i in t' && t'[i].kind == kind && t'[i].links == 1 && t'[i].bytes == []
      && (kind == DIR ==> IsDir(t', i) && DirMap(t', i) == map[])
      && Longer(t, t', d) && OthersSame(t, t', i, d)
  {
    hide EntryBytes, TreeAdd, MapOf;
    var t1 := t[i := Item(kind, 1, [])];
    AddEntries(t1, d, i + 1, name, junk);
    NoNames();
  }

  lemma NoNames()
    ensures MapOf([]) == map[]
  {
  }

  lemma LinkMakes(t: Tree, d: nat, i: nat, name: Name, junk: seq<byte>)
    requires IsDir(t, d) && |t[d].bytes| % ENTRY == 0 && i in t && i != d && Addable(i + 1, name, junk)
    ensures var t' := TreeLink(t, d, i, name, junk);
      Longer(t, t', d) && Renamed(t, t', i, t[i].links + 1) && OthersSame(t, t', i, d)
  {
    hide EntryBytes, TreeAdd;
    AddEntries(t, d, i + 1, name, junk);
  }

  /** Creating a file: the directory gains one name, nothing else changes. */
  lemma CreateKeeps(t: Tree, n: nat, d: nat, i: nat, kind: nat, name: Name, junk: seq<byte>)
    requires TreeOk(t, n) && IsDir(t, d) && i < n && i !in t && Addable(i + 1, name, junk) && name !in DirMap(t, d)
    ensures var t' := TreeCreate(t, d, i, kind, name, junk);
      && TreeOk(t', n) && DirMap(t', d) == DirMap(t, d)[name := i + 1]
      && forall e: nat :: e != d ==> DirMap(t', e) == DirMap(t, e)
  {
    hide EntryBytes, TreeAdd, DirOk, MapOf, Refs, DirEntries, Addable, LinkOk;
    var t1 := t[i := Item(kind, 1, [])];
    FreshDirs(t, i, kind);
    AddDirs(t1, d, i + 1, name, junk);
    var t2 := TreeAdd(t1, d, i + 1, name, junk);
    forall k: nat ensures LinkOk(t2, n, k) { CreateLinks(t, n, d, i, kind, name, junk, k); }
    RootStays(t1, d, i + 1, name, junk);
  }

  lemma RootStays(t: Tree, d: nat, fd: nat, name: Name, junk: seq<byte>)
    requires d in t && Addable(fd, name, junk) && IsDir(t, 0)
    ensures IsDir(TreeAdd(t, d, fd, name, junk), 0)
  {
  }

  lemma CreateLinks(t: Tree, n: nat, d: nat, i: nat, kind: nat, name: Name, junk: seq<byte>, k: nat)
    requires TreeOk(t, n) && IsDir(t, d) && i < n && i !in t && Addable(i + 1, name, junk)
    ensures LinkOk(TreeCreate(t, d, i, kind, name, junk), n, k)
  {
    hide EntryBytes, TreeAdd, DirOk, Refs, DirEntries;
    var t1 := t[i := Item(kind, 1, [])];
    assert LinkOk(t, n, k) && LinkOk(t, n, d);
    AlignedIn(t, d);
    Unnamed(t, n, i);
    FreshDirs(t, i, kind);
    RefsUpdate(t, t1, k, n, n);
    AddRefs(t1, d, i + 1, name, junk, k, n);
    AddEntries(t1, d, i + 1, name, junk);
  }

  lemma AlignedIn(t: Tree, d: nat)
    requires forall e: nat :: DirOk(t, e)
    ensures IsDir(t, d) ==> |t[d].bytes| % ENTRY == 0
  {
    assert DirOk(t, d);
  }

  /** No entry names a file that does not exist. */
  lemma {:induction false} Unnamed(t: Tree, n: nat, i: nat)
    requires (forall d: nat :: DirOk(t, d)) && i !in t
    ensures Refs(t, i, n) == 0
  {
    hide DirEntries, Count, Distinct, Aligned;
    if n > 0 {
      Unnamed(t, n - 1, i);
      assert DirOk(t, n - 1);
      CountNone(DirEntries(t, n - 1), i + 1);
    }
  }

  lemma LinkKeeps(t: Tree, n: nat, d: nat, i: nat, name: Name, junk: seq<byte>)
    requires TreeOk(t, n) && IsDir(t, d) && i in t && t[i].kind != DIR
    requires Addable(i + 1, name, junk) && name !in DirMap(t, d)
    ensures var t' := TreeLink(t, d, i, name, junk);
      && TreeOk(t', n) && DirMap(t', d) == DirMap(t, d)[name := i + 1]
      && forall e: nat :: e != d ==> DirMap(t', e) == DirMap(t, e)
  {
    hide EntryBytes, TreeAdd, DirOk, MapOf, Refs, DirEntries, Addable, LinkOk;
    AddDirs(t, d, i + 1, name, junk);
    RootStays(t, d, i + 1, name, junk);
    RelinkDirs(TreeAdd(t, d, i + 1, name, junk), i, t[i].links + 1);
    forall k: nat ensures LinkOk(TreeLink(t, d, i, name, junk), n, k) { LinkLinks(t, n, d, i, name, junk, k); }
  }

  lemma LinkLinks(t: Tree, n: nat, d: nat, i: nat, name: Name, junk: seq<byte>, k: nat)
    requires TreeOk(t, n) && IsDir(t, d) && i in t && t[i].kind != DIR && Addable(i + 1, name, junk)
    ensures LinkOk(TreeLink(t, d, i, name, junk), n, k)
  {
    hide EntryBytes, TreeAdd, DirOk, Refs, DirEntries;
    var t1 := TreeAdd(t, d, i + 1, name, junk);
    assert LinkOk(t, n, k) && LinkOk(t, n, d);
    AlignedIn(t, d);
    AddEntries(t, d, i + 1, name, junk);
    AddRefs(t, d, i + 1, name, junk, k, n);
    RelinkDirs(t1, i, t[i].links + 1);
    RefsUpdate(t1, WithLinks(t1, i, t[i].links + 1), k, n, n);
  }

  /** A link count is no part of any directory. */
  lemma RelinkDirs(t: Tree, i: nat, links: nat)
    requires i in t
    ensures forall e: nat :: DirEntries(WithLinks(t, i, links), e) == DirEntries(t, e)
    ensures (forall e: nat :: DirOk(t, e)) ==> forall e: nat :: DirOk(WithLinks(t, i, links), e)
    ensures WithLinks(t, i, links).Keys == t.Keys
  {
    hide Distinct, NamesIn, DirEntries;
    var t' := WithLinks(t, i, links);
    assert t'.Keys == t.Keys;
    forall e: nat ensures DirEntries(t', e) == DirEntries(t, e) && (DirOk(t, e) ==> DirOk(t', e)) { SameDir(t, t', e); }
    if forall e: nat :: DirOk(t, e) { forall e: nat ensures DirOk(t', e) { assert DirOk(t, e); } }
  }

  lemma CutEntries(t: Tree, d: nat, k: nat)
    requires IsDir(t, d) && |t[d].bytes| % ENTRY == 0 && k < |DirEntries(t, d)|
    ensures ENTRY * k + ENTRY <= |t[d].bytes|
    ensures DirEntries(TreeCut(t, d, k), d) == DirEntries(t, d)[..k] + DirEntries(t, d)[k + 1..]
  {
    EntriesCut(t[d].bytes, k);
  }

  lemma CutRefs(t: Tree, d: nat, k: nat, i: nat, n: nat)
    requires IsDir(t, d) && d < n && |t[d].bytes| % ENTRY == 0 && k < |DirEntries(t, d)|
    ensures ENTRY * k + ENTRY <= |t[d].bytes|
    ensures Refs(t, i, n) == Refs(TreeCut(t, d, k), i, n) + if DirEntries(t, d)[k].fd == i + 1 then 1 else 0
  {
    hide Count, Entries, Cut, Refs;
    CutEntries(t, d, k);
    CountCut(DirEntries(t, d), k, i + 1);
    RefsUpdate(t, TreeCut(t, d, k), i, n, d);
  }

  lemma CutDirs(t: Tree, d: nat, k: nat)
    requires (forall e: nat :: DirOk(t, e)) && IsDir(t, d) && k < |DirEntries(t, d)|
    ensures ENTRY * k + ENTRY <= |t[d].bytes|
    ensures var t' := TreeCut(t, d, k);
      && t'.Keys == t.Keys && (forall e: nat :: DirOk(t', e))
      && DirMap(t', d) == DirMap(t, d) - {DirEntries(t, d)[k].name}
      && forall e: nat :: e != d ==> DirEntries(t', e) == DirEntries(t, e)
  {
    hide Entries, Cut, Distinct, MapOf, NamesIn, DirEntries;
    assert DirOk(t, d);
    CutEntries(t, d, k);
    MapRemove(DirEntries(t, d), k);
    NamesInCut(DirEntries(t, d), k, t.Keys);
    var t' := TreeCut(t, d, k);
    assert t'.Keys == t.Keys;
    forall e: nat ensures DirOk(t', e) && (e != d ==> DirEntries(t', e) == DirEntries(t, e)) {
      assert DirOk(t, e);
      if e != d { SameDir(t, t', e); }
    }
  }

  /** A file that no entry names may go; if it is a directory, it is empty. */
  lemma DropDirs(t: Tree, n: nat, i: nat)
    requires (forall e: nat :: DirOk(t, e)) && (forall e: nat :: e in t ==> e < n)
    requires i in t && Refs(t, i, n) == 0 && DirEntries(t, i) == []
    ensures forall e: nat :: DirOk(t - {i}, e) && DirEntries(t - {i}, e) == DirEntries(t, e)
  {
    hide Distinct, NamesIn, Refs, Count;
    forall e: nat ensures DirOk(t - {i}, e) && DirEntries(t - {i}, e) == DirEntries(t, e) {
      assert DirOk(t, e);
      if e in t {
        RefsAtLeast(t, i, n, e);
        NamesInLess(DirEntries(t, e), t.Keys, i);
      } else {
        NoEntries(t.Keys - {i});
      }
      assert (t - {i}).Keys == t.Keys - {i};
    }
  }

  lemma NoEntries(files: set<nat>)
    ensures NamesIn([], files) && Distinct([])
  {
  }

  lemma NamesInLess(es: seq<Entry>, files: set<nat>, i: nat)
    requires NamesIn(es, files) && Count(es, i + 1) == 0
    ensures NamesIn(es, files - {i})
  {
    CountNone(es, i + 1);
  }

  /** Removing a name: the directory loses it, the file loses a link, and it goes
      exactly when that was its last one. */
  lemma UnlinkKeeps(t: Tree, n: nat, d: nat, k: nat, i: nat)
    requires TreeOk(t, n) && IsDir(t, d) && k < |DirEntries(t, d)| && DirEntries(t, d)[k].fd == i + 1
    requires i in t && i != 0 && (t[i].kind != DIR || t[i].bytes == [])
    ensures ENTRY * k + ENTRY <= |t[d].bytes| && i in TreeCut(t, d, k) && TreeCut(t, d, k)[i].links == t[i].links >= 1
    ensures var t' := TreeDrop(TreeCut(t, d, k), i);
      && TreeOk(t', n) && DirMap(t', d) == DirMap(t, d) - {DirEntries(t, d)[k].name}
      && (forall e: nat :: e != d ==> DirMap(t', e) == DirMap(t, e))
      && (i in t' <==> Refs(t', i, n) > 0)
  {
    hide DirOk, MapOf, Refs, DirEntries, Cut;
    assert LinkOk(t, n, i) && LinkOk(t, n, d);
    AlignedIn(t, d);
    CutDirs(t, d, k);
    CutRefs(t, d, k, i, n);
    var t1 := TreeCut(t, d, k);
    var t' := TreeDrop(t1, i);
    DropEntries(t, t1, n, d, k, i);
    forall e: nat ensures LinkOk(t', n, e) {
      assert LinkOk(t, n, e);
      CutRefs(t, d, k, e, n);
      RefsUpdate(t1, t', e, n, n);
    }
    RefsUpdate(t1, t', i, n, n);
  }

  lemma DropEntries(t: Tree, t1: Tree, n: nat, d: nat, k: nat, i: nat)
    requires TreeOk(t, n) && IsDir(t, d) && k < |DirEntries(t, d)| && DirEntries(t, d)[k].fd == i + 1
    requires i in t && i != 0 && t[i].links >= 1 && (t[i].kind != DIR || t[i].bytes == [])
    requires ENTRY * k + ENTRY <= |t[d].bytes| && t1 == TreeCut(t, d, k) && i in t1 && t1[i].links == t[i].links
    requires (forall e: nat :: DirOk(t1, e)) && t1.Keys == t.Keys
    ensures forall e: nat :: DirOk(TreeDrop(t1, i), e) && DirEntries(TreeDrop(t1, i), e) == DirEntries(t1, e)
  {
    hide DirOk, Refs, Cut;
    assert LinkOk(t, n, i) && LinkOk(t, n, d);
    AlignedIn(t, d);
    CutRefs(t, d, k, i, n);
    if t1[i].links == 1 {
      forall e: nat | e in t1 ensures e < n { assert LinkOk(t, n, e); }
      DropDirs(t1, n, i);
    } else {
      RelinkDirs(t1, i, t1[i].links - 1);
    }
  }
}
