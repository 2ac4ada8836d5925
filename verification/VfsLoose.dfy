/**
 What the caches of kernel/vfs.c still keep when a path has been led through the bytes of a file: every table leads
 somewhere, reference counts are exact, and a dentry stands for whatever a search under its parent finds.
 */
module VfsLoose {
  import opened VfsState
  import opened VfsSteps
  import opened VfsWalk

  /** A dentry is hashed under its parent and name and stands for what a search there finds. */
  ghost predicate LinkOk(disk: Disk, dents: map<nat, Dentry>, dhash: map<HKey, nat>, vinodes: map<nat, Vinode>, d: nat)
    requires d in dents
  {
    && dents[d].inode in vinodes
    && if d == ROOT then vinodes[dents[d].inode].inum == ROOT_INUM else
       && var e := dents[d];
       && HKey(e.parent, e.name) in dhash && dhash[HKey(e.parent, e.name)] == d
       && Cached(dents, vinodes, e.parent)
       && Child(disk, InodeOf(dents, vinodes, e.parent).inum, e.name) == Goes(vinodes[e.inode].inum)
  }

  ghost predicate LinksOk(disk: Disk, dents: map<nat, Dentry>, dhash: map<HKey, nat>, vinodes: map<nat, Vinode>) {
    && ROOT in dents
    && (forall d {:trigger LinkOk(disk, dents, dhash, vinodes, d)} ::
          d in dents ==> LinkOk(disk, dents, dhash, vinodes, d))
    && (forall k {:trigger DhashOk(dents, dhash, k)} :: k in dhash ==> DhashOk(dents, dhash, k))
  }

  ghost predicate Loose(s: State, b: Bytes) {
    && TreeOk(s.nodes, s.entries)
    && VinodesOk(b.dead + s.nodes, s.vinodes, s.vhash)
    && LinksOk(On(s, b), s.dents, s.dhash, s.vinodes)
    && RefsOk(s.dents, s.vinodes)
    && FilesOk(s.dents, s.files)
  }

  lemma InvIsLoose(s: State, b: Bytes)
    requires Inv(s)
    ensures Loose(s, b)
  {
    forall v | v in s.vinodes
      ensures VinodeOk(b.dead + s.nodes, s.vinodes, s.vhash, v)
    {
      assert VinodeOk(s.nodes, s.vinodes, s.vhash, v);
    }
    forall d | d in s.dents
      ensures LinkOk(On(s, b), s.dents, s.dhash, s.vinodes, d)
    {
      assert DentryOk(s.entries, s.dents, s.dhash, s.vinodes, d);
      if d != ROOT {
        assert VinodeOk(s.nodes, s.vinodes, s.vhash, s.dents[s.dents[d].parent].inode);
      }
    }
  }

  // ---------------------------------------------------------------- what it gives

  lemma Present(s: State, b: Bytes, d: nat)
    requires Loose(s, b) && d in s.dents
    ensures Cached(s.dents, s.vinodes, d)
  {
    assert LinkOk(On(s, b), s.dents, s.dhash, s.vinodes, d);
  }

  lemma Faces(s: State, b: Bytes, v: nat)
    requires Loose(s, b) && v in s.vinodes
    ensures var i := s.vinodes[v];
      && Known(On(s, b), i.inum) && NodeAt(On(s, b), i.inum) == Node(i.kind, i.nlinks)
      && i.inum in s.vhash && s.vhash[i.inum] == v
  {
    assert VinodeOk(b.dead + s.nodes, s.vinodes, s.vhash, v);
  }

  lemma HashHit(s: State, b: Bytes, p: nat, name: string)
    requires Loose(s, b) && HKey(p, name) in s.dhash
    ensures var d := s.dhash[HKey(p, name)];
      && d != ROOT && Cached(s.dents, s.vinodes, d) && s.dents[d].parent == p && s.dents[d].name == name
      && Cached(s.dents, s.vinodes, p)
      && Child(On(s, b), InodeOf(s.dents, s.vinodes, p).inum, name) == Goes(InodeOf(s.dents, s.vinodes, d).inum)
  {
    assert DhashOk(s.dents, s.dhash, HKey(p, name));
    assert LinkOk(On(s, b), s.dents, s.dhash, s.vinodes, s.dhash[HKey(p, name)]);
  }

  lemma KnownChild(s: State, b: Bytes, x: nat, name: string)
    requires Loose(s, b)
    ensures var c := Child(On(s, b), x, name); c.Goes? ==> Known(On(s, b), c.inum)
  {
    if LiveDir(s.nodes, x) && EKey(x, name) in s.entries {
      assert EntryOk(s.nodes, s.entries, EKey(x, name));
    }
  }

  // ---------------------------------------------------------------- a name found

  /** A vinode with what reading inode y gave. */
  function ReadVinode(s: State, v: nat, y: nat, n: Node): State {
    s.(vinodes := s.vinodes[v := Vinode(y, n.kind, n.nlinks, 0)], vhash := s.vhash[y := v])
  }

  lemma ReadVinodeKeeps(s: State, b: Bytes, v: nat, y: nat)
    requires Loose(s, b) && v !in s.vinodes && y !in s.vhash && Known(On(s, b), y)
    ensures Loose(ReadVinode(s, v, y, NodeAt(On(s, b), y)), b)
  {
    var t := ReadVinode(s, v, y, NodeAt(On(s, b), y));
    forall u | u in t.vinodes
      ensures VinodeOk(b.dead + s.nodes, t.vinodes, t.vhash, u)
    {
      if u != v {
        assert VinodeOk(b.dead + s.nodes, s.vinodes, s.vhash, u);
      }
    }
    forall x | x in t.vhash
      ensures VhashOk(t.vinodes, t.vhash, x)
    {
      if x != y {
        assert VhashOk(s.vinodes, s.vhash, x);
      }
    }
    forall d | d in s.dents
      ensures LinkOk(On(t, b), t.dents, t.dhash, t.vinodes, d) && s.dents[d].inode != v
    {
      assert LinkOk(On(s, b), s.dents, s.dhash, s.vinodes, d);
    }
    NewRefs(s.dents, s.vinodes, v, t.vinodes);
  }

  lemma NewRefs(dents: map<nat, Dentry>, vinodes: map<nat, Vinode>, v: nat, vinodes': map<nat, Vinode>)
    requires RefsOk(dents, vinodes) && v in vinodes' && vinodes'[v].ref == 0 && vinodes - {v} == vinodes' - {v}
    requires forall d :: d in dents ==> dents[d].inode != v
    ensures RefsOk(dents, vinodes')
  {
    assert Holders(dents, v) == {};
    forall u | u in vinodes'
      ensures vinodes'[u].ref == |Holders(dents, u)|
    {
      if u != v {
        assert u in vinodes' - {v};
        assert vinodes'[u] == vinodes[u];
      }
    }
  }

  lemma AddDentryLoose(s: State, b: Bytes, id: nat, p: nat, name: string, v: nat)
    requires Loose(s, b) && id !in s.dents && Cached(s.dents, s.vinodes, p) && v in s.vinodes
    requires HKey(p, name) !in s.dhash
    requires Child(On(s, b), InodeOf(s.dents, s.vinodes, p).inum, name) == Goes(s.vinodes[v].inum)
    ensures Loose(AddDentry(s, id, p, name, v), b)
  {
    var t := AddDentry(s, id, p, name, v);
    VinodesFaces(b.dead + s.nodes, s.vinodes, s.vhash, t.vinodes);
    forall d | d in t.dents
      ensures LinkOk(On(t, b), t.dents, t.dhash, t.vinodes, d)
    {
      if d != id {
        assert LinkOk(On(s, b), s.dents, s.dhash, s.vinodes, d);
      }
    }
    forall k | k in t.dhash
      ensures DhashOk(t.dents, t.dhash, k)
    {
      if k in s.dhash {
        assert DhashOk(s.dents, s.dhash, k);
      }
    }
    MoreRefs(s.dents, s.vinodes, id, t.dents[id]);
    AddedFilesOk(s.dents, s.files, id, t.dents[id]);
  }

  /** The caches after a name that was not cached has been found: inode y, vinode v, dentry d under p. */
  function Attach(s: State, p: nat, name: string, y: nat, n: Node, v: nat, d: nat): State
    requires y in s.vhash ==> v in s.vinodes
  {
    AddDentry(if y in s.vhash then s else ReadVinode(s, v, y, n), d, p, name, v)
  }

  /** One round of the token loop that finds something: a hit in the hash table, or a new dentry d with vinode v. */
  ghost predicate Round(s: State, t: State, b: Bytes, p: nat, name: string, d: nat, v: nat) {
    && Cached(s.dents, s.vinodes, p)
    && var c := Child(On(s, b), InodeOf(s.dents, s.vinodes, p).inum, name);
    && c.Goes?
    && if HKey(p, name) in s.dhash then t == s && d == s.dhash[HKey(p, name)] else
       && d !in s.dents && Known(On(s, b), c.inum)
       && (if c.inum in s.vhash then v == s.vhash[c.inum] && v in s.vinodes else v !in s.vinodes)
       && t == Attach(s, p, name, c.inum, NodeAt(On(s, b), c.inum), v, d)
  }

  /** Everything cached before is still there, reference counts aside. */
  ghost predicate Kept(s: State, t: State) {
    && (forall d {:trigger t.dents[d]} {:trigger s.dents[d]} ::
          d in s.dents ==> d in t.dents && t.dents[d] == s.dents[d])
    && (forall v {:trigger t.vinodes[v]} {:trigger s.vinodes[v]} ::
          v in s.vinodes ==> v in t.vinodes && t.vinodes[v] == s.vinodes[v].(ref := t.vinodes[v].ref))
  }

  /** Lookup only adds to the caches. */
  ghost predicate Grown(s: State, t: State) {
    t.nodes == s.nodes && t.entries == s.entries && t.files == s.files && Kept(s, t)
  }

  lemma GrownTrans(s: State, t: State, u: State)
    requires Grown(s, t) && Grown(t, u)
    ensures Grown(s, u)
  {
    forall d | d in s.dents
      ensures d in u.dents && u.dents[d] == s.dents[d]
    {
      assert t.dents[d] == s.dents[d];
    }
    forall v | v in s.vinodes
      ensures v in u.vinodes && u.vinodes[v] == s.vinodes[v].(ref := u.vinodes[v].ref)
    {
      assert t.vinodes[v] == s.vinodes[v].(ref := t.vinodes[v].ref);
    }
  }

  lemma RoundLoose(s: State, t: State, b: Bytes, p: nat, name: string, d: nat, v: nat)
    requires Loose(s, b) && Round(s, t, b, p, name, d, v)
    ensures Loose(t, b) && Grown(s, t)
  {
    if HKey(p, name) !in s.dhash {
      var y := Child(On(s, b), InodeOf(s.dents, s.vinodes, p).inum, name).inum;
      if y in s.vhash {
        assert VhashOk(s.vinodes, s.vhash, y);
        AddDentryLoose(s, b, d, p, name, v);
      } else {
        ReadVinodeKeeps(s, b, v, y);
        AddDentryLoose(ReadVinode(s, v, y, NodeAt(On(s, b), y)), b, d, p, name, v);
      }
    }
  }

  lemma RoundFinds(s: State, t: State, b: Bytes, p: nat, name: string, d: nat, v: nat)
    requires Loose(s, b) && Round(s, t, b, p, name, d, v)
    ensures d != ROOT && Cached(t.dents, t.vinodes, d) && t.dents[d].parent == p && t.dents[d].name == name
    ensures Child(On(s, b), InodeOf(s.dents, s.vinodes, p).inum, name) == Goes(InodeOf(t.dents, t.vinodes, d).inum)
    ensures Cached(t.dents, t.vinodes, p) &&
      InodeOf(t.dents, t.vinodes, p).inum == InodeOf(s.dents, s.vinodes, p).inum
    ensures HKey(p, name) in t.dhash && t.dhash[HKey(p, name)] == d
    ensures forall c :: c in t.dents ==> c in s.dents || c == d
  {
    if HKey(p, name) in s.dhash {
      HashHit(s, b, p, name);
    } else {
      var y := Child(On(s, b), InodeOf(s.dents, s.vinodes, p).inum, name).inum;
      if y in s.vhash {
        assert VhashOk(s.vinodes, s.vhash, y);
      }
      assert ROOT in s.dents;
    }
  }

  /** In a valid state a round keeps the invariant exactly when it is a round in a directory; else d is stray. */
  lemma RoundValid(s: State, t: State, b: Bytes, p: nat, name: string, d: nat, v: nat)
    requires Inv(s) && Loose(s, b) && Round(s, t, b, p, name, d, v)
    ensures var x := InodeOf(s.dents, s.vinodes, p).inum;
      if LiveDir(s.nodes, x) then Inv(t) else Stray(t, d) && !Inv(t) && d !in s.dents && HKey(p, name) !in s.dhash
  {
    var i := InodeOf(s.dents, s.vinodes, p);
    assert VinodeOk(s.nodes, s.vinodes, s.vhash, s.dents[p].inode);
    if HKey(p, name) in s.dhash {
      assert DhashOk(s.dents, s.dhash, HKey(p, name));
      assert DentryOk(s.entries, s.dents, s.dhash, s.vinodes, s.dhash[HKey(p, name)]);
    } else if LiveDir(s.nodes, i.inum) {
      var k := EKey(i.inum, name);
      assert EntryOk(s.nodes, s.entries, k);
      var y := s.entries[k];
      if y in s.vhash {
        assert VhashOk(s.vinodes, s.vhash, y);
        AddDentryKeeps(s, d, p, name, v);
      } else {
        AddVinodeKeeps(s, v, y);
        AddDentryKeeps(AddVinode(s, v, y), d, p, name, v);
      }
    } else {
      RoundFinds(s, t, b, p, name, d, v);
      assert t.vinodes[s.dents[p].inode].kind == i.kind by { RoundLoose(s, t, b, p, name, d, v); }
      StrayBreaks(t, d);
    }
  }
}
