/** The operations of fs/ffs.c on names, as the program carries them out on the bytes
    of a directory, and what they mean for its map. */
module FfsNames {
  import opened Options
  import opened Bytes
  import opened FfsFormat
  import opened FfsTree
  import opened FfsDirs
  import opened FfsLinks

  /** What ffs_lookup comes to: an error, a negative entry, or a file. */
  datatype Lookup = NotDirectory | Negative | Found(i: nat)

  predicate Stands(e: Entry, name: Name, files: set<nat>)
  {
    e.name == name && e.fd >= 1 && e.fd - 1 in files
  }

  /** The first entry from position k on that has this name and an inode. */
  function Seek(es: seq<Entry>, name: Name, files: set<nat>, k: nat): (r: Option<nat>)
    requires k <= |es|
    ensures r.Some? ==> k <= r.value < |es| && Stands(es[r.value], name, files)
    ensures forall j :: k <= j < (if r.Some? then r.value else |es|) ==> !Stands(es[j], name, files)
    decreases |es| - k
  {
    if k == |es| then None
    else if Stands(es[k], name, files) then Some(k)
    else Seek(es, name, files, k + 1)
  }

  /** ffs_lookup on the tree. */
  function TreeLookup(t: Tree, d: nat, name: Name): (r: Lookup)
    requires d in t
    ensures r.Found? ==> r.i in t
    ensures r == NotDirectory <==> !IsDir(t, d)
  {
    if t[d].kind != DIR then NotDirectory
    else
      var es := Entries(t[d].bytes);
      match Seek(es, name, t.Keys, 0)
      case None => Negative
      case Some(k) => Found(es[k].fd - 1)
  }

  lemma SeekStep(content: seq<byte>, name: Name, files: set<nat>, k: nat)
    requires k < |content| / ENTRY
    ensures ENTRY * k + ENTRY <= |content|
    ensures Seek(Entries(content), name, files, k) ==
      if EntryAt(content, k).name == name && EntryAt(content, k).fd >= 1 && EntryAt(content, k).fd - 1 in files
      then Some(k)
      else Seek(Entries(content), name, files, k + 1)
    ensures Entries(content)[k] == EntryAt(content, k)
  {
  }

  lemma SeekEnd(content: seq<byte>, name: Name, files: set<nat>)
    ensures Seek(Entries(content), name, files, |content| / ENTRY) == None
  {
  }

  /** When every entry names a file, the first one with the name is it. */
  lemma {:induction false} SeekIsFind(es: seq<Entry>, name: Name, files: set<nat>, k: nat)
    requires k <= |es| && NamesIn(es, files) && forall j :: 0 <= j < k ==> es[j].name != name
    ensures Seek(es, name, files, k) == Find(es, name)
    decreases |es| - k
  {
    if k < |es| {
      if es[k].name == name { FindIs(es, name, k); } else { SeekIsFind(es, name, files, k + 1); }
    }
  }

  lemma FindIs(es: seq<Entry>, name: Name, k: nat)
    requires k < |es| && es[k].name == name && forall j :: 0 <= j < k ==> es[j].name != name
    ensures Find(es, name) == Some(k)
  {
  }

  /** In a well-formed tree a lookup is an application of the directory's map. */
  lemma LookupIsMap(t: Tree, n: nat, d: nat, name: Name)
    requires TreeOk(t, n) && IsDir(t, d)
    ensures name !in DirMap(t, d) ==> TreeLookup(t, d, name) == Negative
    ensures name in DirMap(t, d) ==> TreeLookup(t, d, name).Found? && TreeLookup(t, d, name).i + 1 == DirMap(t, d)[name]
  {
    hide Entries, Distinct, LinkOk, NamesIn, Aligned, Find, Seek;
    assert DirOk(t, d);
    var es := DirEntries(t, d);
    SeekIsFind(es, name, t.Keys, 0);
  }

  /** remove_from_dir on the tree. */
  function TreeCutName(t: Tree, d: nat, name: Name): Tree
    requires d in t
  {
    match Find(Entries(t[d].bytes), name)
    case None => t
    case Some(k) => TreeCut(t, d, k)
  }

  lemma ShiftedDown(t: Tree, d: nat, k: nat, links: nat)
    requires d in t && ENTRY * k + ENTRY <= |t[d].bytes| && links == t[d].links
    ensures TreeSet(TreeWritten(t, d, ENTRY * k, t[d].bytes[ENTRY * k + ENTRY..]), d, |t[d].bytes| - ENTRY, links) ==
      TreeCut(t, d, k)
  {
    CutIsShiftDown(t[d].bytes, k);
  }

  lemma CutNameIs(t: Tree, d: nat, name: Name, k: nat)
    requires d in t && k < |t[d].bytes| / ENTRY && EntryAt(t[d].bytes, k).name == name
    requires forall j :: 0 <= j < k ==> EntryAt(t[d].bytes, j).name != name
    ensures TreeCutName(t, d, name) == TreeCut(t, d, k)
  {
  }

  lemma CutNameNone(t: Tree, d: nat, name: Name)
    requires d in t && forall j :: 0 <= j < |t[d].bytes| / ENTRY ==> EntryAt(t[d].bytes, j).name != name
    ensures TreeCutName(t, d, name) == t
  {
  }

  lemma SetLinks(t: Tree, i: nat, links: nat)
    requires i in t
    ensures TreeSet(t, i, |t[i].bytes|, links) == WithLinks(t, i, links)
  {
    assert t[i].bytes[..|t[i].bytes|] == t[i].bytes;
  }

  /** What VFS makes sure of before ffs_unlink or ffs_rmdir: the name is there and
      stands for file i, which is no directory or an empty one. */
  ghost predicate Unlinkable(t: Tree, n: nat, d: nat, name: Name, i: nat)
  {
    && TreeOk(t, n) && IsDir(t, d) && name in DirMap(t, d) && DirMap(t, d)[name] == i + 1
    && i != 0 && i in t && (t[i].kind != DIR || t[i].bytes == [])
  }

  /** ffs_unlink on the tree. */
  function TreeUnlink(t: Tree, d: nat, name: Name, i: nat): Tree
    requires d in t
  {
    var t1 := TreeCutName(t, d, name);
    if i in t1 && t1[i].links >= 1 then TreeDrop(t1, i) else t1
  }

  lemma UnlinkFacts(t: Tree, n: nat, d: nat, name: Name, i: nat)
    requires Unlinkable(t, n, d, name, i)
    ensures d in t && i in t && i in TreeCutName(t, d, name) && i != d
    ensures TreeCutName(t, d, name)[i].links == t[i].links >= 1
    ensures TreeUnlink(t, d, name, i) == TreeDrop(TreeCutName(t, d, name), i)
  {
    hide Entries, Find, Distinct, NamesIn, Refs, Cut;
    assert LinkOk(t, n, i) && DirOk(t, d);
    EmptyHasNone(t, d);
  }

  lemma CutMakes(t: Tree, d: nat, name: Name)
    requires IsDir(t, d) && name in DirMap(t, d)
    ensures Shorter(t, TreeCutName(t, d, name), d) && OthersSame(t, TreeCutName(t, d, name), d, d)
  {
    hide MapOf, Find, Entries, Cut;
    var k := Find(DirEntries(t, d), name).value;
    assert TreeCutName(t, d, name) == TreeCut(t, d, k);
  }

  lemma DropMakes(t: Tree, t1: Tree, d: nat, i: nat)
    requires Shorter(t, t1, d) && OthersSame(t, t1, d, d) && i in t && i in t1 && i != d && t[i].links >= 1
    ensures t1[i].links >= 1
    ensures var t' := TreeDrop(t1, i);
      && Shorter(t, t', d) && OthersSame(t, t', i, d)
      && if t[i].links == 1 then i !in t' else Renamed(t, t', i, t[i].links - 1)
  {
    assert SameItem(t, t1, i);
    forall k: nat ensures k == i || k == d || SameItem(t, TreeDrop(t1, i), k) { assert k == d || SameItem(t, t1, k); }
  }

  /** The file's bytes do not change while it has names. */
  lemma UnlinkMakes(t: Tree, n: nat, d: nat, name: Name, i: nat)
    requires Unlinkable(t, n, d, name, i)
    ensures d in t && i in t && i != d && t[i].links >= 1
    ensures var t' := TreeUnlink(t, d, name, i);
      && Shorter(t, t', d) && OthersSame(t, t', i, d)
      && if t[i].links == 1 then i !in t' else Renamed(t, t', i, t[i].links - 1)
  {
    hide TreeOk, TreeCutName, TreeDrop, TreeUnlink, DirMap, Shorter, OthersSame, Renamed;
    UnlinkFacts(t, n, d, name, i);
    CutMakes(t, d, name);
    DropMakes(t, TreeCutName(t, d, name), d, i);
  }

  lemma EmptyHasNone(t: Tree, d: nat)
    ensures d in t && t[d].bytes == [] ==> DirMap(t, d) == map[]
  {
  }

  lemma DropIs(t: Tree, i: nat)
    requires i in t && t[i].links >= 1
    ensures TreeDrop(t, i) == if t[i].links == 1 then t - {i} else TreeSet(t, i, |t[i].bytes|, t[i].links - 1)
  {
    SetLinks(t, i, t[i].links - 1);
  }

  /** ffs_unlink and ffs_rmdir: the name goes from its directory and from no other, the
      tree stays well formed, and the file goes exactly when no entry names it any more. */
  lemma UnlinkNameKeeps(t: Tree, n: nat, d: nat, name: Name, i: nat)
    requires Unlinkable(t, n, d, name, i)
    ensures d in t
    ensures var t' := TreeUnlink(t, d, name, i);
      && TreeOk(t', n) && DirMap(t', d) == DirMap(t, d) - {name}
      && (forall e: nat :: e != d ==> DirMap(t', e) == DirMap(t, e))
      && (i in t' <==> Refs(t', i, n) > 0)
  {
    hide Entries, Distinct, NamesIn, Refs, Cut, Aligned;
    var k := Find(DirEntries(t, d), name).value;
    assert DirOk(t, d);
    UnlinkFacts(t, n, d, name, i);
    UnlinkKeeps(t, n, d, k, i);
  }
}
