/** Directories are files of 16-byte entries; here they are finite maps from names to
    files, and link counts are counts of entries. */
module FfsDirs {
  import opened Options
  import opened Bytes
  import opened FfsFormat
  import opened FfsContents

  const ENTRY: nat := 16

  /** Room for a name and its terminating NUL. */
  const NAME: nat := 10

  /** An entry: the number of a file (from 1) and its name. */
  datatype Entry = Entry(fd: nat, name: seq<byte>)

  type Name = seq<byte>

  /** A C string as far as its NUL. */
  function CString(b: seq<byte>): (r: Name)
    ensures |r| <= |b| && forall k :: 0 <= k < |r| ==> r[k] == b[k] != 0
    ensures |r| < |b| ==> b[|r|] == 0
  {
    if b == [] || b[0] == 0 then [] else [b[0]] + CString(b[1..])
  }

  lemma {:induction false} CStringIs(b: seq<byte>, s: Name)
    requires |s| < |b| && b[|s|] == 0 && forall k :: 0 <= k < |s| ==> s[k] == b[k] != 0
    ensures CString(b) == s
  {
    if s != [] {
      CStringIs(b[1..], s[1..]);
      assert s == [s[0]] + s[1..];
    }
  }

  /** A name that fits its field. */
  predicate NameOk(name: Name)
  {
    |name| < NAME && forall k :: 0 <= k < |name| ==> name[k] != 0
  }

  /** The entry that add_to_dir writes. Bytes behind the NUL are whatever was on the
      stack. */
  function EntryBytes(fd: nat, name: Name, junk: seq<byte>): (r: seq<byte>)
    requires fd < WORD_LIMIT && |name| + 5 + |junk| == ENTRY
    ensures |r| == ENTRY
  {
    WordBytes(fd) + name + [0] + junk
  }

  function EntryAt(bytes: seq<byte>, k: nat): Entry
    requires ENTRY * k + ENTRY <= |bytes|
  {
    Entry(Word(bytes, ENTRY * k), CString(bytes[ENTRY * k + 4..ENTRY * k + 4 + NAME]))
  }

  function Entries(bytes: seq<byte>): (es: seq<Entry>)
    ensures |es| == |bytes| / ENTRY
    ensures forall k :: 0 <= k < |es| ==> es[k] == EntryAt(bytes, k)
  {
    seq(|bytes| / ENTRY, k requires 0 <= k < |bytes| / ENTRY => EntryAt(bytes, k))
  }

  lemma EntryEncoded(fd: nat, name: Name, junk: seq<byte>)
    requires fd < WORD_LIMIT && |name| + 5 + |junk| == ENTRY && NameOk(name)
    ensures EntryAt(EntryBytes(fd, name, junk), 0) == Entry(fd, name)
  {
    var e := EntryBytes(fd, name, junk);
    WordIn(e, WordBytes(fd), 0);
    CStringIs(e[4..4 + NAME], name);
  }

  lemma EntryMoved(bytes: seq<byte>, bytes': seq<byte>, k: nat, k': nat)
    requires ENTRY * k + ENTRY <= |bytes| && ENTRY * k' + ENTRY <= |bytes'|
    requires bytes[ENTRY * k..ENTRY * k + ENTRY] == bytes'[ENTRY * k'..ENTRY * k' + ENTRY]
    ensures EntryAt(bytes, k) == EntryAt(bytes', k')
  {
    Window(bytes, ENTRY * k);
    Window(bytes', ENTRY * k');
  }

  lemma Window(bytes: seq<byte>, a: nat)
    requires a + ENTRY <= |bytes|
    ensures bytes[a + 4..a + 4 + NAME] == bytes[a..a + ENTRY][4..4 + NAME]
    ensures Word(bytes, a) == Word(bytes[a..a + ENTRY], 0)
  {
    var l, r := bytes[a + 4..a + 4 + NAME], bytes[a..a + ENTRY][4..4 + NAME];
    assert |l| == |r| && forall j :: 0 <= j < |l| ==> l[j] == bytes[a + 4 + j] == r[j];
  }

  /** Appending an encoded entry appends the entry. */
  lemma EntriesAppend(bytes: seq<byte>, fd: nat, name: Name, junk: seq<byte>)
    requires |bytes| % ENTRY == 0 && fd < WORD_LIMIT && |name| + 5 + |junk| == ENTRY && NameOk(name)
    ensures Entries(bytes + EntryBytes(fd, name, junk)) == Entries(bytes) + [Entry(fd, name)]
  {
    var e := EntryBytes(fd, name, junk);
    var bytes', n := bytes + e, |bytes| / ENTRY;
    forall k: nat | k < n ensures EntryAt(bytes', k) == EntryAt(bytes, k) {
      assert bytes'[ENTRY * k..ENTRY * k + ENTRY] == bytes[ENTRY * k..ENTRY * k + ENTRY];
      EntryMoved(bytes', bytes, k, k);
    }
    assert bytes'[ENTRY * n..ENTRY * n + ENTRY] == e[ENTRY * 0..ENTRY * 0 + ENTRY];
    EntryMoved(bytes', e, n, 0);
    EntryEncoded(fd, name, junk);
  }

  /** The bytes without entry k: what shifting the rest down and cutting the size
      leaves. */
  function Cut(bytes: seq<byte>, k: nat): (r: seq<byte>)
    requires ENTRY * k + ENTRY <= |bytes|
    ensures |r| == |bytes| - ENTRY
  {
    bytes[..ENTRY * k] + bytes[ENTRY * k + ENTRY..]
  }

  lemma CutIsShiftDown(bytes: seq<byte>, k: nat)
    requires ENTRY * k + ENTRY <= |bytes|
    ensures Written(bytes, ENTRY * k, bytes[ENTRY * k + ENTRY..])[..|bytes| - ENTRY] == Cut(bytes, k)
  {
  }

  lemma EntriesCut(bytes: seq<byte>, k: nat)
    requires |bytes| % ENTRY == 0 && k < |bytes| / ENTRY
    ensures Entries(Cut(bytes, k)) == Entries(bytes)[..k] + Entries(bytes)[k + 1..]
  {
    var c := Cut(bytes, k);
    forall j: nat | j < |bytes| / ENTRY - 1 ensures EntryAt(c, j) == EntryAt(bytes, if j < k then j else j + 1) {
      var j' := if j < k then j else j + 1;
      assert c[ENTRY * j..ENTRY * j + ENTRY] == bytes[ENTRY * j'..ENTRY * j' + ENTRY];
      EntryMoved(c, bytes, j, j');
    }
  }

  // --- Finite maps -----------------------------------------------------

  /** Position of the first entry with this name. */
  function Find(es: seq<Entry>, name: Name): (r: Option<nat>)
    ensures r.Some? ==>
      r.value < |es| && es[r.value].name == name && forall j :: 0 <= j < r.value ==> es[j].name != name
    ensures r.None? ==> forall j :: 0 <= j < |es| ==> es[j].name != name
  {
    if es == [] then None
    else if es[0].name == name then Some(0)
    else match Find(es[1..], name) case None => None case Some(k) => Some(k + 1)
  }

  predicate Distinct(es: seq<Entry>)
  {
    forall i, j :: 0 <= i < j < |es| ==> es[i].name != es[j].name
  }

  ghost function Names(es: seq<Entry>): set<Name>
  {
    set e | e in es :: e.name
  }

  /** The directory as a finite map from names to file numbers. */
  ghost function MapOf(es: seq<Entry>): (m: map<Name, nat>)
    ensures forall name :: name in m <==> Find(es, name).Some?
    ensures forall name :: name in m ==> m[name] == es[Find(es, name).value].fd
  {
    assert forall name :: name in Names(es) <==> Find(es, name).Some?;
    map name | name in Names(es) :: es[Find(es, name).value].fd
  }

  lemma FindAt(es: seq<Entry>, j: nat)
    requires Distinct(es) && j < |es|
    ensures Find(es, es[j].name) == Some(j)
  {
  }

  /** Appending an entry under a new name adds that name and changes no other. */
  lemma MapAppend(es: seq<Entry>, e: Entry)
    requires Distinct(es) && Find(es, e.name).None?
    ensures Distinct(es + [e]) && MapOf(es + [e]) == MapOf(es)[e.name := e.fd]
  {
    hide Find, MapOf;
    var es' := es + [e];
    forall name ensures Find(es', name) == if name == e.name then Some(|es|) else Find(es, name) {
      var r := Find(es, name);
      if r.Some? { FindAt(es', r.value); }
      else if name == e.name { FindAt(es', |es|); }
      else { assert forall j :: 0 <= j < |es'| ==> es'[j].name != name; }
    }
  }

  /** Removing the entry of a name removes that name and changes no other. */
  lemma MapRemove(es: seq<Entry>, k: nat)
    requires Distinct(es) && k < |es|
    ensures Distinct(es[..k] + es[k + 1..]) && MapOf(es[..k] + es[k + 1..]) == MapOf(es) - {es[k].name}
  {
    hide Find, MapOf;
    var es' := es[..k] + es[k + 1..];
    forall name ensures Find(es', name).Some? <==> Find(es, name).Some? && name != es[k].name
      ensures Find(es', name).Some? ==> es'[Find(es', name).value] == es[Find(es, name).value]
    {
      var r := Find(es, name);
      if r.Some? && r.value != k {
        var j := if r.value < k then r.value else r.value - 1;
        assert es'[j] == es[r.value];
        FindAt(es', j);
      } else {
        assert forall j :: 0 <= j < |es'| ==> es'[j] == es[if j < k then j else j + 1];
        assert forall j :: 0 <= j < |es'| ==> es'[j].name != name;
      }
    }
  }
}
