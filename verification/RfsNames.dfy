/**
 A directory is a sequence of entries on disk (module RfsDir) and a map from names to inodes in the VFS model (module
 VfsState).  Here the two are one: what rfs_add_direntry, rfs_unlink and the search do to the sequences is what the
 steps of the VFS model do to the map.
 */
module RfsNames {
  import opened RfsDir
  import opened VfsState
  import opened VfsSteps

  /** All directories of a volume by inode number, entries in disk order. */
  type Dirs = map<nat, seq<Entry>>

  predicate HasName(es: seq<Entry>, name: string) {
    exists i :: 0 <= i < |es| && es[i].name == name
  }

  /** No name twice, and inode numbers are numbers. */
  predicate Proper(es: seq<Entry>) {
    && (forall i, j :: 0 <= i < j < |es| ==> es[i].name != es[j].name)
    && (forall i :: 0 <= i < |es| ==> es[i].inum >= 0)
  }

  ghost predicate AllProper(dirs: Dirs) {
    forall d :: d in dirs ==> Proper(dirs[d])
  }

  /** The inode number of the first entry with the name. */
  function InumOf(es: seq<Entry>, name: string): nat
    requires Proper(es) && HasName(es, name)
  {
    var i :| 0 <= i < |es| && es[i].name == name;
    es[i].inum
  }

  lemma InumAt(es: seq<Entry>, i: nat)
    requires Proper(es) && i < |es|
    ensures HasName(es, es[i].name) && InumOf(es, es[i].name) == es[i].inum
  {
    forall j | 0 <= j < |es| && es[j].name == es[i].name
      ensures j == i
    {
    }
  }

  ghost function Keys(dirs: Dirs): set<EKey> {
    set d, i | d in dirs && 0 <= i < |dirs[d]| :: EKey(d, dirs[d][i].name)
  }

  /** The entries of all directories as the VFS model has them. */
  ghost function EntryMap(dirs: Dirs): (m: map<EKey, nat>)
    requires AllProper(dirs)
    ensures forall k :: k in m <==> k.dir in dirs && HasName(dirs[k.dir], k.name)
    ensures forall k :: k in m ==> m[k] == InumOf(dirs[k.dir], k.name)
  {
    map k | k in Keys(dirs) :: InumOf(dirs[k.dir], k.name)
  }

  // ---------------------------------------------------------------- one directory

  lemma AddedNames(es: seq<Entry>, e: Entry, name: string)
    requires Proper(es) && !HasName(es, e.name) && e.inum >= 0
    ensures Proper(es + [e]) && (HasName(es + [e], name) <==> name == e.name || HasName(es, name))
    ensures HasName(es, name) ==> InumOf(es + [e], name) == InumOf(es, name)
    ensures HasName(es + [e], e.name) && InumOf(es + [e], e.name) == e.inum
  {
    var fs := es + [e];
    InumAt(fs, |es|);
    if HasName(es, name) {
      var i :| 0 <= i < |es| && es[i].name == name;
      InumAt(es, i);
      InumAt(fs, i);
    }
    if HasName(fs, name) {
      var i :| 0 <= i < |fs| && fs[i].name == name;
      assert i < |es| ==> es[i].name == name;
    }
  }

  lemma RemovedProper(es: seq<Entry>, k: nat)
    requires Proper(es) && k < |es|
    ensures Proper(Removed(es, k))
    ensures forall i :: 0 <= i < |es| - 1 ==> Removed(es, k)[i] == es[if i < k then i else i + 1]
  {
  }

  lemma RemovedNames(es: seq<Entry>, k: nat, name: string)
    requires Proper(es) && k < |es|
    ensures Proper(Removed(es, k)) && (HasName(Removed(es, k), name) <==> name != es[k].name && HasName(es, name))
    ensures HasName(Removed(es, k), name) ==> InumOf(Removed(es, k), name) == InumOf(es, name)
  {
    RemovedProper(es, k);
    var fs := Removed(es, k);
    if HasName(fs, name) {
      var i :| 0 <= i < |fs| && fs[i].name == name;
      StillThere(es, k, i);
    }
    if HasName(es, name) && name != es[k].name {
      NameKept(es, k, name);
    }
  }

  lemma NameKept(es: seq<Entry>, k: nat, name: string)
    requires k < |es| && HasName(es, name) && name != es[k].name
    ensures HasName(Removed(es, k), name)
  {
    var i :| 0 <= i < |es| && es[i].name == name;
    assert Removed(es, k)[if i < k then i else i - 1].name == name;
  }

  lemma StillThere(es: seq<Entry>, k: nat, i: nat)
    requires Proper(es) && k < |es| && i < |es| - 1 && Proper(Removed(es, k))
    ensures var name := Removed(es, k)[i].name;
      && name != es[k].name && HasName(es, name) && HasName(Removed(es, k), name)
      && InumOf(Removed(es, k), name) == InumOf(es, name)
  {
    RemovedProper(es, k);
    InumAt(Removed(es, k), i);
    InumAt(es, if i < k then i else i + 1);
  }

  // ---------------------------------------------------------------- the whole volume

  /** rfs_add_direntry of a new name adds exactly that key. */
  lemma AddIsMapAdd(dirs: Dirs, d: nat, e: Entry)
    requires AllProper(dirs) && d in dirs && !HasName(dirs[d], e.name) && e.inum >= 0
    ensures AllProper(dirs[d := dirs[d] + [e]])
    ensures EntryMap(dirs[d := dirs[d] + [e]]) == EntryMap(dirs)[EKey(d, e.name) := e.inum]
  {
    var after := dirs[d := dirs[d] + [e]];
    AddedNames(dirs[d], e, e.name);
    var a, b, added := EntryMap(after), EntryMap(dirs), EKey(d, e.name);
    forall k: EKey
      ensures k in a <==> k in b || k == added
      ensures k in a ==> a[k] == if k == added then e.inum else b[k]
    {
      if k.dir == d {
        AddedNames(dirs[d], e, k.name);
      }
    }
    MapWith(b, added, e.inum, a);
  }

  lemma MapWith(m: map<EKey, nat>, k: EKey, x: nat, n: map<EKey, nat>)
    requires (forall l :: l in n <==> l in m || l == k) && forall l :: l in n ==> n[l] == if l == k then x else m[l]
    ensures n == m[k := x]
  {
  }

  /** The shifting of rfs_unlink takes away exactly the key of the entry removed. */
  lemma RemoveIsMapRemove(dirs: Dirs, d: nat, i: nat)
    requires AllProper(dirs) && d in dirs && i < |dirs[d]|
    ensures AllProper(dirs[d := Removed(dirs[d], i)])
    ensures EntryMap(dirs[d := Removed(dirs[d], i)]) == EntryMap(dirs) - {EKey(d, dirs[d][i].name)}
  {
    var after := dirs[d := Removed(dirs[d], i)];
    RemovedNames(dirs[d], i, "");
    var a, b, gone := EntryMap(after), EntryMap(dirs), EKey(d, dirs[d][i].name);
    InumAt(dirs[d], i);
    forall k: EKey
      ensures k in a <==> k in b && k != gone
      ensures k in a ==> a[k] == b[k]
    {
      if k.dir == d {
        RemovedNames(dirs[d], i, k.name);
      }
    }
    MapWithout(b, gone, a);
  }

  lemma MapWithout(m: map<EKey, nat>, k: EKey, n: map<EKey, nat>)
    requires (forall l :: l in n <==> l in m && l != k) && forall l :: l in n ==> n[l] == m[l]
    ensures n == m - {k}
  {
  }

  /** The search stops at an entry exactly when the map has the key, and the entry has the map's inode number. */
  lemma SearchIsMapLookup(dirs: Dirs, d: nat, name: string, i: nat)
    requires AllProper(dirs) && d in dirs && i <= |dirs[d]| && forall j :: 0 <= j < i ==> dirs[d][j].name != name
    requires i < |dirs[d]| ==> dirs[d][i].name == name
    ensures i < |dirs[d]| <==> EKey(d, name) in EntryMap(dirs)
    ensures i < |dirs[d]| ==> EntryMap(dirs)[EKey(d, name)] == dirs[d][i].inum
  {
    if i < |dirs[d]| {
      InumAt(dirs[d], i);
    }
  }

  /** create, mkdir and link append the entry that NewNode and LinkNode add; unlink shifts out what UnlinkNode drops. */
  lemma StepsAgree(s: State, dirs: Dirs, d: nat, name: string, x: nat, kind: Kind)
    requires AllProper(dirs) && s.entries == EntryMap(dirs) && d in dirs && EKey(d, name) !in s.entries
    ensures AllProper(dirs[d := dirs[d] + [Entry(x, name)]])
    ensures NewNode(s, x, kind, EKey(d, name)).entries == EntryMap(dirs[d := dirs[d] + [Entry(x, name)]])
    ensures forall v :: v in s.vinodes && s.vinodes[v].inum == x && x in s.nodes ==>
      LinkNode(s, v, EKey(d, name)).entries == EntryMap(dirs[d := dirs[d] + [Entry(x, name)]])
  {
    AddIsMapAdd(dirs, d, Entry(x, name));
  }

  lemma UnlinkAgrees(s: State, dirs: Dirs, d: nat, i: nat)
    requires AllProper(dirs) && s.entries == EntryMap(dirs) && d in dirs && i < |dirs[d]|
    requires var k := EKey(d, dirs[d][i].name);
      && k in s.entries && s.entries[k] in s.nodes
      && (s.entries[k] in s.vhash ==> s.vhash[s.entries[k]] in s.vinodes)
    ensures AllProper(dirs[d := Removed(dirs[d], i)])
    ensures UnlinkNode(s, EKey(d, dirs[d][i].name)).entries == EntryMap(dirs[d := Removed(dirs[d], i)])
  {
    RemoveIsMapRemove(dirs, d, i);
  }
}
