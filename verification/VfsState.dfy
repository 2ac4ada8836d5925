/**
 The directory tree on an RFS volume and the dentry/vinode cache of kernel/vfs.c in front of it, as
 values, with what every operation keeps true about them.
 */
module VfsState {
  const ROOT: nat := 0       // the root dentry
  const ROOT_INUM: nat := 0

  /** OTHER is what an inode that is not in use reads as. */
  datatype Kind = FILE | DIR | OTHER

  /** A disk inode. */
  datatype Node = Node(kind: Kind, nlinks: int)

  /** An entry's place: the directory's inode number and the name. */
  datatype EKey = EKey(dir: nat, name: string)

  /** A key of the dentry hash table: the parent dentry and the name. */
  datatype HKey = HKey(parent: nat, name: string)

  datatype Dentry = Dentry(parent: nat, name: string, inode: nat, dref: nat)

  datatype Vinode = Vinode(inum: nat, kind: Kind, nlinks: int, ref: nat)

  /** Dentries and vinodes are numbered by where they live; the hash tables hold those numbers. */
  datatype State = State(
    nodes: map<nat, Node>,
    entries: map<EKey, nat>,
    dents: map<nat, Dentry>,
    dhash: map<HKey, nat>,
    vinodes: map<nat, Vinode>,
    vhash: map<nat, nat>,
    files: map<nat, nat>)

  // ---------------------------------------------------------------- invariant

  ghost function Links(entries: map<EKey, nat>, x: nat): set<EKey> {
    set k | k in entries && entries[k] == x
  }

  ghost function Holders(dents: map<nat, Dentry>, v: nat): set<nat> {
    set d | d in dents && dents[d].inode == v
  }

  ghost function Opens(files: map<nat, nat>, d: nat): set<nat> {
    set f | f in files && files[f] == d
  }

  ghost predicate EntryOk(nodes: map<nat, Node>, entries: map<EKey, nat>, k: EKey)
    requires k in entries
  {
    k.dir in nodes && nodes[k.dir].kind == DIR && entries[k] in nodes && entries[k] != ROOT_INUM
  }

  /** The link count is the number of entries, and a directory has exactly one. */
  ghost predicate NodeOk(nodes: map<nat, Node>, entries: map<EKey, nat>, x: nat)
    requires x in nodes
  {
    x != ROOT_INUM ==> nodes[x].nlinks == |Links(entries, x)| && (nodes[x].kind == DIR ==> nodes[x].nlinks == 1)
  }

  ghost predicate TreeOk(nodes: map<nat, Node>, entries: map<EKey, nat>) {
    && ROOT_INUM in nodes && nodes[ROOT_INUM].kind == DIR
    && (forall k {:trigger EntryOk(nodes, entries, k)} :: k in entries ==> EntryOk(nodes, entries, k))
    && (forall x {:trigger NodeOk(nodes, entries, x)} :: x in nodes ==> NodeOk(nodes, entries, x))
  }

  predicate LiveDir(nodes: map<nat, Node>, x: nat) {
    x in nodes && nodes[x].kind == DIR
  }

  /** A vinode is the one its inode number hashes to and agrees with the disk inode. */
  ghost predicate VinodeOk(nodes: map<nat, Node>, vinodes: map<nat, Vinode>, vhash: map<nat, nat>, v: nat)
    requires v in vinodes
  {
    var i := vinodes[v];
    i.inum in vhash && vhash[i.inum] == v && i.inum in nodes && nodes[i.inum] == Node(i.kind, i.nlinks)
  }

  ghost predicate VhashOk(vinodes: map<nat, Vinode>, vhash: map<nat, nat>, x: nat)
    requires x in vhash
  {
    vhash[x] in vinodes && vinodes[vhash[x]].inum == x
  }

  ghost predicate VinodesOk(nodes: map<nat, Node>, vinodes: map<nat, Vinode>, vhash: map<nat, nat>) {
    && (forall v {:trigger VinodeOk(nodes, vinodes, vhash, v)} :: v in vinodes ==> VinodeOk(nodes, vinodes, vhash, v))
    && (forall x {:trigger VhashOk(vinodes, vhash, x)} :: x in vhash ==> VhashOk(vinodes, vhash, x))
  }

  predicate Cached(dents: map<nat, Dentry>, vinodes: map<nat, Vinode>, d: nat) {
    d in dents && dents[d].inode in vinodes
  }

  function InodeOf(dents: map<nat, Dentry>, vinodes: map<nat, Vinode>, d: nat): Vinode
    requires Cached(dents, vinodes, d)
  {
    vinodes[dents[d].inode]
  }

  /** A dentry is hashed under its parent and name and stands for an entry of its parent's directory. */
  ghost predicate DentryOk(entries: map<EKey, nat>, dents: map<nat, Dentry>, dhash: map<HKey, nat>,
                           vinodes: map<nat, Vinode>, d: nat)
    requires d in dents
  {
    && dents[d].inode in vinodes
    && if d == ROOT then vinodes[dents[d].inode].inum == ROOT_INUM else
       && var e := dents[d];
       && HKey(e.parent, e.name) in dhash && dhash[HKey(e.parent, e.name)] == d
       && Cached(dents, vinodes, e.parent) && InodeOf(dents, vinodes, e.parent).kind == DIR
       && var k := EKey(InodeOf(dents, vinodes, e.parent).inum, e.name);
       && k in entries && entries[k] == vinodes[e.inode].inum
  }

  ghost predicate DhashOk(dents: map<nat, Dentry>, dhash: map<HKey, nat>, k: HKey)
    requires k in dhash
  {
    dhash[k] != ROOT && dhash[k] in dents && dents[dhash[k]].parent == k.parent && dents[dhash[k]].name == k.name
  }

  ghost predicate DentsOk(entries: map<EKey, nat>, dents: map<nat, Dentry>, dhash: map<HKey, nat>,
                          vinodes: map<nat, Vinode>) {
    && ROOT in dents
    && (forall d {:trigger DentryOk(entries, dents, dhash, vinodes, d)} ::
          d in dents ==> DentryOk(entries, dents, dhash, vinodes, d))
    && (forall k {:trigger DhashOk(dents, dhash, k)} :: k in dhash ==> DhashOk(dents, dhash, k))
  }

  /** One dentry per directory. */
  ghost predicate DirsUnique(dents: map<nat, Dentry>, vinodes: map<nat, Vinode>) {
    forall c, d {:trigger Cached(dents, vinodes, c), Cached(dents, vinodes, d)} ::
      Cached(dents, vinodes, c) && Cached(dents, vinodes, d) && InodeOf(dents, vinodes, c).kind == DIR &&
      dents[c].inode == dents[d].inode ==>
        c == d
  }

  ghost predicate RefsOk(dents: map<nat, Dentry>, vinodes: map<nat, Vinode>) {
    forall v {:trigger Holders(dents, v)} :: v in vinodes ==> vinodes[v].ref == |Holders(dents, v)|
  }

  ghost predicate FilesOk(dents: map<nat, Dentry>, files: map<nat, nat>) {
    && (forall f :: f in files ==> files[f] in dents)
    && (forall d {:trigger Opens(files, d)} :: d in dents ==> dents[d].dref == |Opens(files, d)|)
  }

  ghost predicate Inv(s: State) {
    && TreeOk(s.nodes, s.entries)
    && VinodesOk(s.nodes, s.vinodes, s.vhash)
    && DentsOk(s.entries, s.dents, s.dhash, s.vinodes)
    && DirsUnique(s.dents, s.vinodes)
    && RefsOk(s.dents, s.vinodes)
    && FilesOk(s.dents, s.files)
  }

  // ---------------------------------------------------------------- what the invariant gives

  /** The entry a cached dentry stands for. */
  function Backing(s: State, d: nat): EKey
    requires Cached(s.dents, s.vinodes, d) && Cached(s.dents, s.vinodes, s.dents[d].parent)
  {
    EKey(InodeOf(s.dents, s.vinodes, s.dents[d].parent).inum, s.dents[d].name)
  }

  /** Different dentries stand for different entries. */
  lemma BackingDistinct(s: State, c: nat, d: nat)
    requires Inv(s) && c in s.dents && d in s.dents && c != ROOT && d != ROOT && c != d
    ensures Cached(s.dents, s.vinodes, c) && Cached(s.dents, s.vinodes, s.dents[c].parent)
    ensures Cached(s.dents, s.vinodes, d) && Cached(s.dents, s.vinodes, s.dents[d].parent)
    ensures Backing(s, c) != Backing(s, d)
  {
    assert DentryOk(s.entries, s.dents, s.dhash, s.vinodes, c) && DentryOk(s.entries, s.dents, s.dhash, s.vinodes, d);
    var p, q := s.dents[c].parent, s.dents[d].parent;
    assert VinodeOk(s.nodes, s.vinodes, s.vhash, s.dents[p].inode) &&
      VinodeOk(s.nodes, s.vinodes, s.vhash, s.dents[q].inode);
  }

  /** Hard links to one inode share one vinode: dentries of the same inode number point at the same one. */
  lemma LinksShareVinode(s: State, c: nat, d: nat)
    requires Inv(s) && c in s.dents && d in s.dents
    ensures Cached(s.dents, s.vinodes, c) && Cached(s.dents, s.vinodes, d)
    ensures InodeOf(s.dents, s.vinodes, c).inum == InodeOf(s.dents, s.vinodes, d).inum <==>
      s.dents[c].inode == s.dents[d].inode
  {
    assert DentryOk(s.entries, s.dents, s.dhash, s.vinodes, c) && DentryOk(s.entries, s.dents, s.dhash, s.vinodes, d);
    assert VinodeOk(s.nodes, s.vinodes, s.vhash, s.dents[c].inode) &&
      VinodeOk(s.nodes, s.vinodes, s.vhash, s.dents[d].inode);
  }

  lemma {:induction false} Injected(f: map<nat, EKey>, ks: set<EKey>)
    requires forall d :: d in f ==> f[d] in ks
    requires forall c, d :: c in f && d in f && c != d ==> f[c] != f[d]
    ensures |f.Keys| <= |ks|
    decreases f.Keys
  {
    if d :| d in f {
      var g := f - {d};
      assert g.Keys == f.Keys - {d};
      Injected(g, ks - {f[d]});
    }
  }

  /** A file's vinode never has more references than the inode has links. */
  lemma RefAtMostLinks(s: State, v: nat)
    requires Inv(s) && v in s.vinodes && s.vinodes[v].inum != ROOT_INUM
    ensures s.vinodes[v].inum in s.nodes && s.vinodes[v].ref <= s.vinodes[v].nlinks
    ensures s.vinodes[v].nlinks == s.nodes[s.vinodes[v].inum].nlinks == |Links(s.entries, s.vinodes[v].inum)|
  {
    var x := s.vinodes[v].inum;
    assert VinodeOk(s.nodes, s.vinodes, s.vhash, v) && NodeOk(s.nodes, s.entries, x);
    forall d | d in Holders(s.dents, v)
      ensures d != ROOT && Cached(s.dents, s.vinodes, d) && Cached(s.dents, s.vinodes, s.dents[d].parent) &&
        Backing(s, d) in Links(s.entries, x)
    {
      assert DentryOk(s.entries, s.dents, s.dhash, s.vinodes, d);
    }
    var f := map d | d in Holders(s.dents, v) :: Backing(s, d);
    forall c, d | c in f && d in f && c != d
      ensures f[c] != f[d]
    {
      BackingDistinct(s, c, d);
    }
    Injected(f, Links(s.entries, x));
    assert f.Keys == Holders(s.dents, v);
  }

  // ---------------------------------------------------------------- how it breaks

  /** A cached dentry whose parent is no directory: nothing on disk stands behind it. */
  ghost predicate Stray(s: State, d: nat) {
    && d in s.dents && d != ROOT && Cached(s.dents, s.vinodes, s.dents[d].parent)
    && InodeOf(s.dents, s.vinodes, s.dents[d].parent).kind != DIR
  }

  lemma StrayBreaks(s: State, d: nat)
    requires Stray(s, d)
    ensures !Inv(s)
  {
    assert Inv(s) ==> DentryOk(s.entries, s.dents, s.dhash, s.vinodes, d);
  }

  /** An inode that no entry names, with the link count of one it was born with. */
  lemma OrphanBreaks(s: State, x: nat, kind: Kind, t: State)
    requires Inv(s) && x !in s.nodes && t.nodes == s.nodes[x := Node(kind, 1)] && t.entries == s.entries
    ensures !Inv(t)
  {
    forall k | k in s.entries
      ensures s.entries[k] != x
    {
      assert EntryOk(s.nodes, s.entries, k);
    }
    assert Links(t.entries, x) == {};
    assert Inv(t) ==> NodeOk(t.nodes, t.entries, x);
  }

  /** A link count raised without an entry. */
  lemma OvercountBreaks(s: State, x: nat, t: State)
    requires Inv(s) && x in s.nodes && s.nodes[x].kind == FILE && t.entries == s.entries
    requires t.nodes == s.nodes[x := Node(FILE, s.nodes[x].nlinks + 1)]
    ensures !Inv(t)
  {
    assert NodeOk(s.nodes, s.entries, x);
    assert Inv(t) ==> NodeOk(t.nodes, t.entries, x);
  }

  /** A link count raised in the vinode only. */
  lemma DisagreementBreaks(s: State, v: nat)
    requires v in s.vinodes && s.vinodes[v].inum in s.nodes && s.nodes[s.vinodes[v].inum].nlinks != s.vinodes[v].nlinks
    ensures !Inv(s)
  {
    assert Inv(s) ==> VinodeOk(s.nodes, s.vinodes, s.vhash, v);
  }

  // ---------------------------------------------------------------- counting

  lemma SetAdd<T>(a: set<T>, b: set<T>, x: T)
    requires x !in a && b == a + {x}
    ensures |b| == |a| + 1
  {
  }

  lemma {:induction false} FreshId(a: set<nat>) returns (n: nat)
    ensures forall m :: m in a ==> m < n
  {
    if a == {} {
      n := 0;
    } else {
      var x :| x in a;
      n := FreshId(a - {x});
      n := if n <= x then x + 1 else n;
      assert a == a - {x} + {x};
    }
  }
}
