/** The small steps the operations of kernel/vfs.c are made of; each keeps the invariant. */
module VfsSteps {
  import opened VfsState

  // ---------------------------------------------------------------- reference counts

  /** Two vinode tables that differ in reference counts only. */
  ghost predicate SameFaces(a: map<nat, Vinode>, b: map<nat, Vinode>) {
    a.Keys == b.Keys && forall v :: v in a ==> b[v] == a[v].(ref := b[v].ref)
  }

  /** Two vinode tables with the same inodes behind the same numbers. */
  ghost predicate SameIds(a: map<nat, Vinode>, b: map<nat, Vinode>) {
    a.Keys == b.Keys && forall v :: v in a ==> b[v].inum == a[v].inum && b[v].kind == a[v].kind
  }

  lemma FacesKeep(nodes: map<nat, Node>, entries: map<EKey, nat>, dents: map<nat, Dentry>, dhash: map<HKey, nat>,
                  vinodes: map<nat, Vinode>, vhash: map<nat, nat>, vinodes': map<nat, Vinode>)
    requires VinodesOk(nodes, vinodes, vhash) && DentsOk(entries, dents, dhash, vinodes) &&
      DirsUnique(dents, vinodes) && SameFaces(vinodes, vinodes')
    ensures VinodesOk(nodes, vinodes', vhash) && DentsOk(entries, dents, dhash, vinodes') && DirsUnique(dents, vinodes')
  {
    VinodesFaces(nodes, vinodes, vhash, vinodes');
    IdsKeep(entries, dents, dhash, vinodes, vinodes');
  }

  lemma IdsKeep(entries: map<EKey, nat>, dents: map<nat, Dentry>, dhash: map<HKey, nat>, vinodes: map<nat, Vinode>,
                vinodes': map<nat, Vinode>)
    requires DentsOk(entries, dents, dhash, vinodes) && DirsUnique(dents, vinodes) && SameIds(vinodes, vinodes')
    ensures DentsOk(entries, dents, dhash, vinodes') && DirsUnique(dents, vinodes')
  {
    forall d | d in dents
      ensures DentryOk(entries, dents, dhash, vinodes', d)
    {
      assert DentryOk(entries, dents, dhash, vinodes, d);
    }
    DirsFaces(dents, vinodes, vinodes');
  }

  lemma VinodesFaces(nodes: map<nat, Node>, vinodes: map<nat, Vinode>, vhash: map<nat, nat>, vinodes': map<nat, Vinode>)
    requires VinodesOk(nodes, vinodes, vhash) && SameFaces(vinodes, vinodes')
    ensures VinodesOk(nodes, vinodes', vhash)
  {
    forall v | v in vinodes'
      ensures VinodeOk(nodes, vinodes', vhash, v)
    {
      assert VinodeOk(nodes, vinodes, vhash, v);
    }
    forall x | x in vhash
      ensures VhashOk(vinodes', vhash, x)
    {
      assert VhashOk(vinodes, vhash, x);
    }
  }

  lemma DirsFaces(dents: map<nat, Dentry>, vinodes: map<nat, Vinode>, vinodes': map<nat, Vinode>)
    requires DirsUnique(dents, vinodes) && SameIds(vinodes, vinodes')
    ensures DirsUnique(dents, vinodes')
  {
    forall c, d | Cached(dents, vinodes', c) && Cached(dents, vinodes', d) && dents[c].inode == dents[d].inode &&
      InodeOf(dents, vinodes', c).kind == DIR
      ensures c == d
    {
      assert Cached(dents, vinodes, c) && Cached(dents, vinodes, d);
    }
  }

  // ---------------------------------------------------------------- dentries

  /** alloc_vfs_dentry and hash_put_dentry for a vinode that is in the table. */
  function AddDentry(s: State, id: nat, p: nat, name: string, v: nat): State
    requires v in s.vinodes
  {
    s.(dents := s.dents[id := Dentry(p, name, v, 0)], dhash := s.dhash[HKey(p, name) := id],
       vinodes := s.vinodes[v := s.vinodes[v].(ref := s.vinodes[v].ref + 1)])
  }

  ghost predicate CanAddDentry(s: State, id: nat, p: nat, name: string, v: nat) {
    && id !in s.dents && Cached(s.dents, s.vinodes, p) && v in s.vinodes && HKey(p, name) !in s.dhash
    && InodeOf(s.dents, s.vinodes, p).kind == DIR
    && var k := EKey(InodeOf(s.dents, s.vinodes, p).inum, name);
    && k in s.entries && s.entries[k] == s.vinodes[v].inum
  }

  lemma AddDentryKeeps(s: State, id: nat, p: nat, name: string, v: nat)
    requires Inv(s) && CanAddDentry(s, id, p, name, v)
    ensures Inv(AddDentry(s, id, p, name, v))
  {
    var s' := AddDentry(s, id, p, name, v);
    AddedDentsOk(s, id, p, name, v);
    AddedDirsUnique(s, id, p, name, v);
    FacesKeep(s.nodes, s.entries, s'.dents, s'.dhash, s.vinodes, s.vhash, s'.vinodes);
    MoreRefs(s.dents, s.vinodes, id, s'.dents[id]);
    AddedFilesOk(s.dents, s.files, id, s'.dents[id]);
  }

  lemma MoreRefs(dents: map<nat, Dentry>, vinodes: map<nat, Vinode>, id: nat, e: Dentry)
    requires RefsOk(dents, vinodes) && id !in dents && e.inode in vinodes
    ensures RefsOk(dents[id := e], vinodes[e.inode := vinodes[e.inode].(ref := vinodes[e.inode].ref + 1)])
  {
    var vinodes' := vinodes[e.inode := vinodes[e.inode].(ref := vinodes[e.inode].ref + 1)];
    forall u | u in vinodes'
      ensures vinodes'[u].ref == |Holders(dents[id := e], u)|
    {
      assert vinodes[u].ref == |Holders(dents, u)|;
      OneMoreHolder(dents, id, e, u);
    }
  }

  lemma OneMoreHolder(dents: map<nat, Dentry>, id: nat, e: Dentry, u: nat)
    requires id !in dents
    ensures |Holders(dents[id := e], u)| == |Holders(dents, u)| + if e.inode == u then 1 else 0
  {
    assert Holders(dents[id := e], u) == Holders(dents, u) + if e.inode == u then {id} else {};
  }

  lemma AddedFilesOk(dents: map<nat, Dentry>, files: map<nat, nat>, id: nat, e: Dentry)
    requires FilesOk(dents, files) && id !in dents && e.dref == 0
    ensures FilesOk(dents[id := e], files)
  {
    assert Opens(files, id) == {};
  }

  lemma AddedDentsOk(s: State, id: nat, p: nat, name: string, v: nat)
    requires Inv(s) && CanAddDentry(s, id, p, name, v)
    ensures var s' := AddDentry(s, id, p, name, v); DentsOk(s.entries, s'.dents, s'.dhash, s.vinodes)
  {
    var s' := AddDentry(s, id, p, name, v);
    forall d | d in s'.dents
      ensures DentryOk(s.entries, s'.dents, s'.dhash, s.vinodes, d)
    {
      if d != id {
        assert DentryOk(s.entries, s.dents, s.dhash, s.vinodes, d);
      }
    }
    forall k | k in s'.dhash
      ensures DhashOk(s'.dents, s'.dhash, k)
    {
      if k in s.dhash {
        assert DhashOk(s.dents, s.dhash, k);
      }
    }
  }

  lemma AddedDirsUnique(s: State, id: nat, p: nat, name: string, v: nat)
    requires Inv(s) && CanAddDentry(s, id, p, name, v)
    ensures DirsUnique(s.dents[id := Dentry(p, name, v, 0)], s.vinodes)
  {
    var x := s.vinodes[v].inum;
    forall d | Cached(s.dents, s.vinodes, d) && s.dents[d].inode == v
      ensures s.vinodes[v].kind != DIR
    {
      assert VinodeOk(s.nodes, s.vinodes, s.vhash, v) &&
        EntryOk(s.nodes, s.entries, EKey(InodeOf(s.dents, s.vinodes, p).inum, name));
      assert DentryOk(s.entries, s.dents, s.dhash, s.vinodes, d);
      if s.vinodes[v].kind == DIR {
        SecondLink(s, d, p, name);
      }
    }
    var dents' := s.dents[id := Dentry(p, name, v, 0)];
    forall c, d | Cached(dents', s.vinodes, c) && Cached(dents', s.vinodes, d) && dents'[c].inode == dents'[d].inode &&
      InodeOf(dents', s.vinodes, c).kind == DIR
      ensures c == d
    {
      assert c != id ==> Cached(s.dents, s.vinodes, c);
      assert d != id ==> Cached(s.dents, s.vinodes, d);
    }
  }

  /** Two places for one directory would be one place, and its dentry would have been found there. */
  lemma SecondLink(s: State, d: nat, p: nat, name: string)
    requires Inv(s) && Cached(s.dents, s.vinodes, d) && d != ROOT && Cached(s.dents, s.vinodes, p) &&
      InodeOf(s.dents, s.vinodes, p).kind == DIR
    requires InodeOf(s.dents, s.vinodes, d).kind == DIR
    requires var k := EKey(InodeOf(s.dents, s.vinodes, p).inum, name);
      k in s.entries && s.entries[k] == InodeOf(s.dents, s.vinodes, d).inum
    ensures HKey(p, name) in s.dhash
  {
    assert DentryOk(s.entries, s.dents, s.dhash, s.vinodes, d);
    var x, q := InodeOf(s.dents, s.vinodes, d).inum, s.dents[d].parent;
    assert VinodeOk(s.nodes, s.vinodes, s.vhash, s.dents[d].inode) && NodeOk(s.nodes, s.entries, x);
    var k, l := EKey(InodeOf(s.dents, s.vinodes, p).inum, name), Backing(s, d);
    assert EntryOk(s.nodes, s.entries, k);
    OneLink(Links(s.entries, x), k, l);
    LinksShareVinode(s, p, q);
  }

  lemma OneLink<T>(a: set<T>, k: T, l: T)
    requires |a| == 1 && k in a && l in a
    ensures k == l
  {
    var b := a - {k};
    assert |b| == 0;
  }

  /** hash_erase_dentry, free_vfs_dentry and the vinode's ref--. */
  function DropDentry(s: State, d: nat): State
    requires Cached(s.dents, s.vinodes, d) && InodeOf(s.dents, s.vinodes, d).ref > 0
  {
    var v := s.dents[d].inode;
    s.(dents := s.dents - {d}, dhash := s.dhash - {HKey(s.dents[d].parent, s.dents[d].name)},
       vinodes := s.vinodes[v := s.vinodes[v].(ref := s.vinodes[v].ref - 1)])
  }

  ghost predicate CanDropDentry(s: State, d: nat) {
    d != ROOT && Cached(s.dents, s.vinodes, d) && InodeOf(s.dents, s.vinodes, d).kind == FILE && s.dents[d].dref == 0
  }

  lemma DropDentryKeeps(s: State, d: nat)
    requires Inv(s) && CanDropDentry(s, d)
    ensures InodeOf(s.dents, s.vinodes, d).ref > 0 && Inv(DropDentry(s, d))
  {
    var v := s.dents[d].inode;
    var a, b := Holders(s.dents, v), Holders(s.dents - {d}, v);
    SetAdd(b, a, d);
    var s' := DropDentry(s, d);
    DroppedDentsOk(s, d);
    FacesKeep(s.nodes, s.entries, s'.dents, s'.dhash, s.vinodes, s.vhash, s'.vinodes);
    forall u | u in s'.vinodes
      ensures s'.vinodes[u].ref == |Holders(s'.dents, u)|
    {
      assert s.vinodes[u].ref == |Holders(s.dents, u)|;
      if u != v {
        assert Holders(s'.dents, u) == Holders(s.dents, u);
      }
    }
    assert Opens(s.files, d) == {};
    forall f | f in s.files
      ensures s.files[f] in s'.dents
    {
      assert f !in Opens(s.files, d);
    }
  }

  lemma DroppedDentsOk(s: State, d: nat)
    requires Inv(s) && CanDropDentry(s, d)
    ensures var dents', dhash' := s.dents - {d}, s.dhash - {HKey(s.dents[d].parent, s.dents[d].name)};
      DentsOk(s.entries, dents', dhash', s.vinodes) && DirsUnique(dents', s.vinodes)
  {
    var dents', dhash' := s.dents - {d}, s.dhash - {HKey(s.dents[d].parent, s.dents[d].name)};
    assert DentryOk(s.entries, s.dents, s.dhash, s.vinodes, d);
    forall c | c in dents'
      ensures DentryOk(s.entries, dents', dhash', s.vinodes, c)
    {
      assert DentryOk(s.entries, s.dents, s.dhash, s.vinodes, c);
    }
    forall k | k in dhash'
      ensures DhashOk(dents', dhash', k)
    {
      assert DhashOk(s.dents, s.dhash, k);
    }
    forall c, e | Cached(dents', s.vinodes, c) && Cached(dents', s.vinodes, e) && dents'[c].inode == dents'[e].inode &&
      InodeOf(dents', s.vinodes, c).kind == DIR
      ensures c == e
    {
      assert Cached(s.dents, s.vinodes, c) && Cached(s.dents, s.vinodes, e);
    }
  }

  // ---------------------------------------------------------------- vinodes

  /** rfs_update_vinode and hash_put_vinode: a vinode built from the disk, not yet referred to. */
  function AddVinode(s: State, v: nat, x: nat): State
    requires x in s.nodes
  {
    s.(vinodes := s.vinodes[v := Vinode(x, s.nodes[x].kind, s.nodes[x].nlinks, 0)], vhash := s.vhash[x := v])
  }

  lemma AddVinodeKeeps(s: State, v: nat, x: nat)
    requires Inv(s) && v !in s.vinodes && x in s.nodes && x !in s.vhash
    ensures Inv(AddVinode(s, v, x))
  {
    var s' := AddVinode(s, v, x);
    forall u | u in s'.vinodes
      ensures VinodeOk(s.nodes, s'.vinodes, s'.vhash, u)
    {
      if u != v {
        assert VinodeOk(s.nodes, s.vinodes, s.vhash, u);
      }
    }
    forall y | y in s'.vhash
      ensures VhashOk(s'.vinodes, s'.vhash, y)
    {
      if y != x {
        assert VhashOk(s.vinodes, s.vhash, y);
      }
    }
    WiderDents(s, v, s'.vinodes);
  }

  lemma WiderDents(s: State, v: nat, vinodes': map<nat, Vinode>)
    requires Inv(s) && v !in s.vinodes && v in vinodes' && vinodes'[v].ref == 0 && s.vinodes == vinodes' - {v}
    ensures DentsOk(s.entries, s.dents, s.dhash, vinodes') && DirsUnique(s.dents, vinodes') && RefsOk(s.dents, vinodes')
  {
    forall d | d in s.dents
      ensures DentryOk(s.entries, s.dents, s.dhash, vinodes', d) && s.dents[d].inode != v
    {
      assert DentryOk(s.entries, s.dents, s.dhash, s.vinodes, d);
    }
    WiderRest(s.dents, s.vinodes, v, vinodes');
  }

  lemma WiderRest(dents: map<nat, Dentry>, vinodes: map<nat, Vinode>, v: nat, vinodes': map<nat, Vinode>)
    requires DirsUnique(dents, vinodes) && RefsOk(dents, vinodes) && v !in vinodes && v in vinodes' &&
      vinodes'[v].ref == 0 && vinodes == vinodes' - {v}
    requires forall d :: d in dents ==> dents[d].inode != v
    ensures DirsUnique(dents, vinodes') && RefsOk(dents, vinodes')
  {
    assert Holders(dents, v) == {};
    forall u | u in vinodes'
      ensures vinodes'[u].ref == |Holders(dents, u)|
    {
      if u != v {
        assert vinodes'[u] == vinodes[u];
      }
    }
    forall c, d | Cached(dents, vinodes', c) && Cached(dents, vinodes', d) && dents[c].inode == dents[d].inode &&
      InodeOf(dents, vinodes', c).kind == DIR
      ensures c == d
    {
      assert Cached(dents, vinodes, c) && Cached(dents, vinodes, d);
    }
  }

  /** hash_erase_vinode and free_page. */
  function DropVinode(s: State, v: nat): State
    requires v in s.vinodes
  {
    s.(vinodes := s.vinodes - {v}, vhash := s.vhash - {s.vinodes[v].inum})
  }

  lemma DropVinodeKeeps(s: State, v: nat)
    requires Inv(s) && v in s.vinodes && s.vinodes[v].ref == 0
    ensures Inv(DropVinode(s, v))
  {
    var s' := DropVinode(s, v);
    assert VinodeOk(s.nodes, s.vinodes, s.vhash, v) && Holders(s.dents, v) == {};
    forall u | u in s'.vinodes
      ensures VinodeOk(s.nodes, s'.vinodes, s'.vhash, u)
    {
      assert VinodeOk(s.nodes, s.vinodes, s.vhash, u);
    }
    forall y | y in s'.vhash
      ensures VhashOk(s'.vinodes, s'.vhash, y)
    {
      assert VhashOk(s.vinodes, s.vhash, y);
    }
    forall d | d in s.dents
      ensures DentryOk(s.entries, s.dents, s.dhash, s'.vinodes, d)
    {
      assert DentryOk(s.entries, s.dents, s.dhash, s.vinodes, d) && d !in Holders(s.dents, v);
      if d != ROOT {
        assert s.dents[d].parent !in Holders(s.dents, v);
      }
    }
    forall c, e | Cached(s.dents, s'.vinodes, c) && Cached(s.dents, s'.vinodes, e) &&
      s.dents[c].inode == s.dents[e].inode && InodeOf(s.dents, s'.vinodes, c).kind == DIR
      ensures c == e
    {
      assert Cached(s.dents, s.vinodes, c) && Cached(s.dents, s.vinodes, e);
    }
  }

  // ---------------------------------------------------------------- open files

  function OpenFile(s: State, f: nat, d: nat): State
    requires d in s.dents
  {
    s.(dents := s.dents[d := s.dents[d].(dref := s.dents[d].dref + 1)], files := s.files[f := d])
  }

  function CloseFile(s: State, f: nat): State
    requires f in s.files && s.files[f] in s.dents && s.dents[s.files[f]].dref > 0
  {
    var d := s.files[f];
    s.(dents := s.dents[d := s.dents[d].(dref := s.dents[d].dref - 1)], files := s.files - {f})
  }

  /** Open counts play no part in the tables. */
  lemma DrefKeeps(s: State, d: nat, n: nat)
    requires Inv(s) && d in s.dents
    ensures var dents' := s.dents[d := s.dents[d].(dref := n)];
      DentsOk(s.entries, dents', s.dhash, s.vinodes) && DirsUnique(dents', s.vinodes) && RefsOk(dents', s.vinodes)
  {
    var dents' := s.dents[d := s.dents[d].(dref := n)];
    forall c | c in dents'
      ensures DentryOk(s.entries, dents', s.dhash, s.vinodes, c)
    {
      assert DentryOk(s.entries, s.dents, s.dhash, s.vinodes, c);
    }
    forall k | k in s.dhash
      ensures DhashOk(dents', s.dhash, k)
    {
      assert DhashOk(s.dents, s.dhash, k);
    }
    forall c, e | Cached(dents', s.vinodes, c) && Cached(dents', s.vinodes, e) && dents'[c].inode == dents'[e].inode &&
      InodeOf(dents', s.vinodes, c).kind == DIR
      ensures c == e
    {
      assert Cached(s.dents, s.vinodes, c) && Cached(s.dents, s.vinodes, e);
    }
    forall v | v in s.vinodes
      ensures s.vinodes[v].ref == |Holders(dents', v)|
    {
      assert Holders(dents', v) == Holders(s.dents, v);
    }
  }

  lemma OpenFileKeeps(s: State, f: nat, d: nat)
    requires Inv(s) && d in s.dents && f !in s.files
    ensures Inv(OpenFile(s, f, d))
  {
    DrefKeeps(s, d, s.dents[d].dref + 1);
    OpenedFilesOk(s.dents, s.files, f, d);
  }

  lemma OpenedFilesOk(dents: map<nat, Dentry>, files: map<nat, nat>, f: nat, d: nat)
    requires FilesOk(dents, files) && d in dents && f !in files
    ensures FilesOk(dents[d := dents[d].(dref := dents[d].dref + 1)], files[f := d])
  {
    var files' := files[f := d];
    forall c | c in dents
      ensures |Opens(files', c)| == dents[c].dref + if c == d then 1 else 0
    {
      OneMoreOpen(files, f, d, c);
    }
  }

  lemma OneMoreOpen(files: map<nat, nat>, f: nat, d: nat, c: nat)
    requires f !in files
    ensures |Opens(files[f := d], c)| == |Opens(files, c)| + if c == d then 1 else 0
  {
    if c == d {
      SetAdd(Opens(files, d), Opens(files[f := d], d), f);
    } else {
      assert Opens(files[f := d], c) == Opens(files, c);
    }
  }

  lemma CloseFileKeeps(s: State, f: nat)
    requires Inv(s) && f in s.files
    ensures s.files[f] in s.dents && s.dents[s.files[f]].dref > 0 && Inv(CloseFile(s, f))
  {
    ClosedFilesOk(s.dents, s.files, f);
    DrefKeeps(s, s.files[f], s.dents[s.files[f]].dref - 1);
  }

  lemma ClosedFilesOk(dents: map<nat, Dentry>, files: map<nat, nat>, f: nat)
    requires FilesOk(dents, files) && f in files
    ensures var d := files[f];
      dents[d].dref > 0 && FilesOk(dents[d := dents[d].(dref := dents[d].dref - 1)], files - {f})
  {
    var d, files' := files[f], files - {f};
    assert files == files'[f := d];
    forall c | c in dents
      ensures dents[c].dref == |Opens(files', c)| + if c == d then 1 else 0
    {
      OneMoreOpen(files', f, d, c);
    }
  }

  // ---------------------------------------------------------------- the tree on disk

  /** rfs_create and rfs_mkdir: a new inode and the entry that names it. */
  function NewNode(s: State, x: nat, kind: Kind, k: EKey): State {
    s.(nodes := s.nodes[x := Node(kind, 1)], entries := s.entries[k := x])
  }

  lemma NewNodeKeeps(s: State, x: nat, kind: Kind, k: EKey)
    requires Inv(s) && x !in s.nodes && k !in s.entries && k.dir in s.nodes && s.nodes[k.dir].kind == DIR
    ensures Inv(NewNode(s, x, kind, k)) && x !in s.vhash
  {
    var s' := NewNode(s, x, kind, k);
    NewTreeOk(s.nodes, s.entries, x, kind, k);
    forall v | v in s.vinodes
      ensures VinodeOk(s'.nodes, s.vinodes, s.vhash, v)
    {
      assert VinodeOk(s.nodes, s.vinodes, s.vhash, v);
    }
    forall d | d in s.dents
      ensures DentryOk(s'.entries, s.dents, s.dhash, s.vinodes, d)
    {
      assert DentryOk(s.entries, s.dents, s.dhash, s.vinodes, d);
    }
    forall y | y in s.vhash
      ensures y in s.nodes
    {
      assert VhashOk(s.vinodes, s.vhash, y) && VinodeOk(s.nodes, s.vinodes, s.vhash, s.vhash[y]);
    }
  }

  lemma NewTreeOk(nodes: map<nat, Node>, entries: map<EKey, nat>, x: nat, kind: Kind, k: EKey)
    requires TreeOk(nodes, entries) && x !in nodes && k !in entries && k.dir in nodes && nodes[k.dir].kind == DIR
    ensures TreeOk(nodes[x := Node(kind, 1)], entries[k := x])
  {
    var nodes', entries' := nodes[x := Node(kind, 1)], entries[k := x];
    forall l | l in entries'
      ensures EntryOk(nodes', entries', l)
    {
      if l != k {
        assert EntryOk(nodes, entries, l);
      }
    }
    forall l | l in entries
      ensures entries[l] != x
    {
      assert EntryOk(nodes, entries, l);
    }
    forall y | y in nodes'
      ensures NodeOk(nodes', entries', y)
    {
      if y == x {
        assert Links(entries', x) == {k};
      } else {
        assert NodeOk(nodes, entries, y) && Links(entries', y) == Links(entries, y);
      }
    }
  }

  /** rfs_link: one more entry for a file, counted in the vinode and written back. */
  function LinkNode(s: State, v: nat, k: EKey): State
    requires v in s.vinodes && s.vinodes[v].inum in s.nodes
  {
    var i := s.vinodes[v];
    s.(nodes := s.nodes[i.inum := Node(i.kind, i.nlinks + 1)], entries := s.entries[k := i.inum],
       vinodes := s.vinodes[v := i.(nlinks := i.nlinks + 1)])
  }

  lemma LinkNodeKeeps(s: State, v: nat, k: EKey)
    requires Inv(s) && v in s.vinodes && s.vinodes[v].kind == FILE && k !in s.entries && k.dir in s.nodes &&
      s.nodes[k.dir].kind == DIR
    ensures s.vinodes[v].inum in s.nodes && Inv(LinkNode(s, v, k))
  {
    assert VinodeOk(s.nodes, s.vinodes, s.vhash, v);
    var s', i := LinkNode(s, v, k), s.vinodes[v];
    LinkedTreeOk(s.nodes, s.entries, i.inum, k);
    RecountedVinodes(s, v, i.nlinks + 1);
    forall d | d in s.dents
      ensures DentryOk(s'.entries, s.dents, s.dhash, s.vinodes, d)
    {
      assert DentryOk(s.entries, s.dents, s.dhash, s.vinodes, d);
    }
    IdsKeep(s'.entries, s.dents, s.dhash, s.vinodes, s'.vinodes);
  }

  lemma LinkedTreeOk(nodes: map<nat, Node>, entries: map<EKey, nat>, x: nat, k: EKey)
    requires TreeOk(nodes, entries) && x in nodes && nodes[x].kind == FILE && k !in entries && k.dir in nodes &&
      nodes[k.dir].kind == DIR
    ensures TreeOk(nodes[x := Node(FILE, nodes[x].nlinks + 1)], entries[k := x])
  {
    var nodes', entries' := nodes[x := Node(FILE, nodes[x].nlinks + 1)], entries[k := x];
    forall l | l in entries'
      ensures EntryOk(nodes', entries', l)
    {
      if l != k {
        assert EntryOk(nodes, entries, l);
      }
    }
    forall y | y in nodes'
      ensures NodeOk(nodes', entries', y)
    {
      assert NodeOk(nodes, entries, y);
      if y == x {
        SetAdd(Links(entries, x), Links(entries', x), k);
      } else {
        assert Links(entries', y) == Links(entries, y);
      }
    }
  }

  /** A link count changed in the vinode and on disk together. */
  lemma RecountedVinodes(s: State, v: nat, n: int)
    requires Inv(s) && v in s.vinodes && s.vinodes[v].inum in s.nodes
    ensures var i := s.vinodes[v]; var vinodes' := s.vinodes[v := i.(nlinks := n)];
      VinodesOk(s.nodes[i.inum := Node(i.kind, n)], vinodes', s.vhash) && RefsOk(s.dents, vinodes')
  {
    var i := s.vinodes[v];
    var vinodes', nodes' := s.vinodes[v := i.(nlinks := n)], s.nodes[i.inum := Node(i.kind, n)];
    assert VinodeOk(s.nodes, s.vinodes, s.vhash, v);
    forall u | u in vinodes'
      ensures VinodeOk(nodes', vinodes', s.vhash, u)
    {
      assert VinodeOk(s.nodes, s.vinodes, s.vhash, u);
    }
    forall x | x in s.vhash
      ensures VhashOk(vinodes', s.vhash, x)
    {
      assert VhashOk(s.vinodes, s.vhash, x);
    }
  }

  /** What rfs_unlink leaves on disk: without the entry, and without the inode if that was the last one. */
  function NodesAfter(nodes: map<nat, Node>, x: nat): map<nat, Node>
    requires x in nodes
  {
    if nodes[x].nlinks == 1 then nodes - {x} else nodes[x := Node(nodes[x].kind, nodes[x].nlinks - 1)]
  }

  lemma UnlinkedTreeOk(nodes: map<nat, Node>, entries: map<EKey, nat>, k: EKey)
    requires TreeOk(nodes, entries) && k in entries && entries[k] in nodes && nodes[entries[k]].kind == FILE
    ensures TreeOk(NodesAfter(nodes, entries[k]), entries - {k})
  {
    var x, entries' := entries[k], entries - {k};
    assert EntryOk(nodes, entries, k) && NodeOk(nodes, entries, x);
    SetAdd(Links(entries', x), Links(entries, x), k);
    var nodes' := NodesAfter(nodes, x);
    forall l | l in entries'
      ensures EntryOk(nodes', entries', l)
    {
      assert EntryOk(nodes, entries, l) && (entries[l] == x ==> l in Links(entries', x));
    }
    forall y | y in nodes'
      ensures NodeOk(nodes', entries', y)
    {
      assert NodeOk(nodes, entries, y);
      if y != x {
        assert Links(entries', y) == Links(entries, y);
      }
    }
  }

  /** The entry k goes; no dentry stands for it, and if its inode dies no vinode does either. */
  function UnlinkNode(s: State, k: EKey): State
    requires k in s.entries && s.entries[k] in s.nodes
    requires s.entries[k] in s.vhash ==> s.vhash[s.entries[k]] in s.vinodes
  {
    var x := s.entries[k];
    var vinodes' := if x in s.vhash then var v := s.vhash[x];
      s.vinodes[v := s.vinodes[v].(nlinks := s.vinodes[v].nlinks - 1)] else s.vinodes;
    s.(nodes := NodesAfter(s.nodes, x), entries := s.entries - {k}, vinodes := vinodes')
  }

  ghost predicate NotBacked(s: State, k: EKey) {
    forall d ::
      d in s.dents && d != ROOT && Cached(s.dents, s.vinodes, d) && Cached(s.dents, s.vinodes, s.dents[d].parent) ==>
      Backing(s, d) != k
  }

  lemma UnlinkNodeKeeps(s: State, k: EKey)
    requires Inv(s) && k in s.entries && s.entries[k] in s.nodes && s.nodes[s.entries[k]].kind == FILE &&
      NotBacked(s, k)
    requires s.nodes[s.entries[k]].nlinks == 1 ==> s.entries[k] !in s.vhash
    ensures s.entries[k] in s.vhash ==> s.vhash[s.entries[k]] in s.vinodes
    ensures Inv(UnlinkNode(s, k))
  {
    var x, entries' := s.entries[k], s.entries - {k};
    UnlinkedTreeOk(s.nodes, s.entries, k);
    UnbackedDents(s, k);
    if x in s.vhash {
      var v := s.vhash[x];
      assert VhashOk(s.vinodes, s.vhash, x) && VinodeOk(s.nodes, s.vinodes, s.vhash, v);
      RecountedVinodes(s, v, s.vinodes[v].nlinks - 1);
      IdsKeep(entries', s.dents, s.dhash, s.vinodes, UnlinkNode(s, k).vinodes);
    } else {
      UncachedVinodes(s, x, NodesAfter(s.nodes, x));
    }
  }

  lemma UnbackedDents(s: State, k: EKey)
    requires Inv(s) && NotBacked(s, k)
    ensures DentsOk(s.entries - {k}, s.dents, s.dhash, s.vinodes)
  {
    var entries' := s.entries - {k};
    forall d | d in s.dents
      ensures DentryOk(entries', s.dents, s.dhash, s.vinodes, d)
    {
      assert DentryOk(s.entries, s.dents, s.dhash, s.vinodes, d);
    }
  }

  lemma UncachedVinodes(s: State, x: nat, nodes': map<nat, Node>)
    requires Inv(s) && x !in s.vhash && forall y :: y in s.nodes && y != x ==> y in nodes' && nodes'[y] == s.nodes[y]
    ensures VinodesOk(nodes', s.vinodes, s.vhash)
  {
    forall v | v in s.vinodes
      ensures VinodeOk(nodes', s.vinodes, s.vhash, v)
    {
      assert VinodeOk(s.nodes, s.vinodes, s.vhash, v);
    }
  }

  // ---------------------------------------------------------------- unlink as a whole

  /** What vfs_unlink of dentry d leaves, whatever stands behind it, if its assertion holds. */
  function Unlinked(s: State, d: nat): State
    requires Cached(s.dents, s.vinodes, d) && Cached(s.dents, s.vinodes, s.dents[d].parent)
    requires InodeOf(s.dents, s.vinodes, d).ref > 0
  {
    var v, i := s.dents[d].inode, InodeOf(s.dents, s.vinodes, d);
    State(if i.inum in s.nodes then NodesAfter(s.nodes, i.inum) else s.nodes, s.entries - {Backing(s, d)},
          s.dents - {d},
          s.dhash - {HKey(s.dents[d].parent, s.dents[d].name)},
      if i.nlinks == 1 then s.vinodes - {v} else s.vinodes[v := i.(nlinks := i.nlinks - 1, ref := i.ref - 1)],
      if i.nlinks == 1 then s.vhash - {i.inum} else s.vhash, s.files)
  }

  /** The two assertions on the way hold: link counts agree, and a dead inode has no reference left. */
  lemma UnlinkReady(s: State, d: nat)
    requires Inv(s) && CanDropDentry(s, d)
    ensures Cached(s.dents, s.vinodes, s.dents[d].parent)
    ensures var i := InodeOf(s.dents, s.vinodes, d);
      i.inum in s.nodes && i.nlinks == s.nodes[i.inum].nlinks && 0 < i.ref <= i.nlinks && i.inum != ROOT_INUM
    ensures Backing(s, d) in s.entries && s.entries[Backing(s, d)] == InodeOf(s.dents, s.vinodes, d).inum
  {
    var v := s.dents[d].inode;
    assert DentryOk(s.entries, s.dents, s.dhash, s.vinodes, d) && VinodeOk(s.nodes, s.vinodes, s.vhash, v);
    assert EntryOk(s.nodes, s.entries, Backing(s, d));
    RefAtMostLinks(s, v);
    assert d in Holders(s.dents, v);
  }

  lemma UnlinkKeeps(s: State, d: nat)
    requires Inv(s) && CanDropDentry(s, d) && Cached(s.dents, s.vinodes, s.dents[d].parent)
    requires var i := InodeOf(s.dents, s.vinodes, d);
      i.inum in s.nodes && i.nlinks == s.nodes[i.inum].nlinks && 0 < i.ref <= i.nlinks
    ensures Inv(Unlinked(s, d))
  {
    UnlinkReady(s, d);
    var v, i, k := s.dents[d].inode, InodeOf(s.dents, s.vinodes, d), Backing(s, d);
    DropDentryKeeps(s, d);
    var s1 := DropDentry(s, d);
    DroppedNotBacked(s, d);
    assert VinodeOk(s.nodes, s.vinodes, s.vhash, v);
    if i.nlinks == 1 {
      DropVinodeKeeps(s1, v);
      var s2 := DropVinode(s1, v);
      assert NotBacked(s2, k) by {
        forall c | c in s2.dents && c != ROOT && Cached(s2.dents, s2.vinodes, c) &&
          Cached(s2.dents, s2.vinodes, s2.dents[c].parent)
          ensures Backing(s2, c) != k
        {
          assert Backing(s1, c) == Backing(s2, c);
        }
      }
      UnlinkNodeKeeps(s2, k);
      assert s2.vinodes == s.vinodes - {v};
      assert UnlinkNode(s2, k) == Unlinked(s, d);
    } else {
      UnlinkNodeKeeps(s1, k);
      assert UnlinkNode(s1, k) == Unlinked(s, d);
    }
  }

  lemma DroppedNotBacked(s: State, d: nat)
    requires Inv(s) && CanDropDentry(s, d) && InodeOf(s.dents, s.vinodes, d).ref > 0 &&
      Cached(s.dents, s.vinodes, s.dents[d].parent)
    ensures NotBacked(DropDentry(s, d), Backing(s, d))
  {
    var s1 := DropDentry(s, d);
    forall c | c in s1.dents && c != ROOT && Cached(s1.dents, s1.vinodes, c) &&
      Cached(s1.dents, s1.vinodes, s1.dents[c].parent)
      ensures Backing(s1, c) != Backing(s, d)
    {
      BackingDistinct(s, c, d);
    }
  }
}
