/**
 The operations of kernel/vfs.c on one mounted RFS volume: path lookup through the dentry and vinode
 caches, open, close, link, unlink and mkdir.
 */
module Vfs {
  import opened VfsState
  import opened VfsSteps
  import opened VfsWalk
  import opened VfsLoose
  import opened VfsLookup
  import opened VfsOps

  datatype One = Hit(d: nat) | Miss | Off

  class Vfs {
    var nodes: map<nat, Node>
    var entries: map<EKey, nat>
    var dents: map<nat, Dentry>
    var dhash: map<HKey, nat>
    var vinodes: map<nat, Vinode>
    var vhash: map<nat, nat>
    var files: map<nat, nat>

    ghost function S(): State
      reads this
    {
      State(nodes, entries, dents, dhash, vinodes, vhash, files)
    }

    ghost predicate Valid()
      reads this
    {
      Inv(S())
    }

    /** A freshly formatted volume mounted as root. */
    constructor ()
      ensures Valid() && nodes == map[ROOT_INUM := Node(DIR, 1)] && entries == map[] && files == map[] &&
        dents.Keys == {ROOT}
    {
      nodes, entries := map[ROOT_INUM := Node(DIR, 1)], map[];
      dents, dhash := map[ROOT := Dentry(ROOT, "/", 0, 0)], map[];
      vinodes, vhash := map[0 := Vinode(ROOT_INUM, DIR, 1, 1)], map[ROOT_INUM := 0];
      files := map[];
      new;
      InitInv(S());
    }

    // -------------------------------------------------------------- lookup

    /**
     One round of the token loop: hash table first, then the bytes on disk, then the vinode table.  rfs_lookup
     does not ask whether the parent is a directory: it searches the bytes of anything.
     */
    method LookupOne(p: nat, name: string, b: Bytes) returns (r: One, ghost v: nat)
      requires Loose(S(), b) && p in dents
      modifies this`dents, this`dhash, this`vinodes, this`vhash
      ensures Cached(old(dents), old(vinodes), p)
      ensures match Child(On(old(S()), b), old(InodeOf(dents, vinodes, p)).inum, name)
              case Goes(_) => r.Hit? && Round(old(S()), S(), b, p, name, r.d, v)
              case Lost => r.Miss? && S() == old(S()) && HKey(p, name) !in dhash
              case Unreadable => r.Off? && S() == old(S())
    {
      v := 0;
      Present(S(), b, p);
      if HKey(p, name) in dhash {
        HashHit(S(), b, p, name);
        return Hit(dhash[HKey(p, name)]), 0;
      }
      var disk := Disk(nodes, entries, b);
      match Child(disk, vinodes[dents[p].inode].inum, name) {
        case Lost =>
          return Miss, 0;
        case Unreadable =>
          return Off, 0;
        case Goes(y) =>
          KnownChild(S(), b, vinodes[dents[p].inode].inum, name);
          var u := GetVinode(y, NodeAt(disk, y), b);
          var d := HashDentry(p, name, u);
          return Hit(d), u;
      }
    }

    /** hash_get_vinode; a vinode that is not cached is read from disk and put in the table. */
    method GetVinode(y: nat, n: Node, ghost b: Bytes) returns (v: nat)
      requires Loose(S(), b)
      modifies this`vinodes, this`vhash
      ensures if y in old(vhash) then S() == old(S()) && v == vhash[y] && v in vinodes
              else v !in old(vinodes) && S() == ReadVinode(old(S()), v, y, n)
    {
      if y in vhash {
        assert VhashOk(vinodes, vhash, y);
        return vhash[y];
      }
      v := Fresh(vinodes.Keys);
      vinodes := vinodes[v := Vinode(y, n.kind, n.nlinks, 0)];
      vhash := vhash[y := v];
    }

    /** alloc_vfs_dentry, the vinode's ref++ and hash_put_dentry, whatever stands behind the name. */
    method HashDentry(p: nat, name: string, v: nat) returns (d: nat)
      requires v in vinodes
      modifies this`dents, this`dhash, this`vinodes
      ensures d !in old(dents) && S() == AddDentry(old(S()), d, p, name, v)
    {
      d := Fresh(dents.Keys);
      dents := dents[d := Dentry(p, name, v, 0)];
      vinodes := vinodes[v := vinodes[v].(ref := vinodes[v].ref + 1)];
      dhash := dhash[HKey(p, name) := d];
    }

    /** An address nothing lives at. */
    method Fresh(used: set<nat>) returns (n: nat)
      ensures n !in used
    {
      ghost var m := FreshId(used);
      assert m !in used;
      n :| n !in used;
    }

    /** The token loop, up to the end of the path or the first name that is not found. */
    method Follow(start: nat, tokens: seq<string>, b: Bytes) returns (d: nat, i: nat, ghost t: Track)
      requires Loose(S(), b) && Cached(dents, vinodes, start)
      modifies this`dents, this`dhash, this`vinodes, this`vhash
      ensures Followed(old(S()), S(), b, InumOf(old(S()), start), tokens, d, i, t)
      ensures if i == 0 then d == start && S() == old(S())
              else Came(old(S()), S(), b, InumOf(old(S()), start), tokens[..i], d, t)
    {
      ghost var s0 := S();
      ghost var x := InumOf(s0, start);
      t := Track(s0, start, 0, 0, 0);
      d, i := start, 0;
      FollowStart(s0, b, start, tokens);
      while i < |tokens|
        invariant 0 <= i <= |tokens| && Following(s0, S(), b, x, tokens, i, d, t)
        invariant if i == 0 then d == start && S() == s0 else Came(s0, S(), b, x, tokens[..i], d, t)
      {
        var hit, e, u := Advance(s0, x, tokens, i, d, t, b);
        if !hit {
          return;
        }
        d, i, t := e, i + 1, u;
      }
    }

    /** One iteration of it. */
    method Advance(ghost s0: State, ghost x: nat, tokens: seq<string>, i: nat, d: nat, ghost t: Track, b: Bytes)
      returns (hit: bool, e: nat, ghost u: Track)
      requires i < |tokens| && Following(s0, S(), b, x, tokens, i, d, t)
      modifies this`dents, this`dhash, this`vinodes, this`vhash
      ensures hit ==> Following(s0, S(), b, x, tokens, i + 1, e, u) && Came(s0, S(), b, x, tokens[..i + 1], e, u)
      ensures !hit ==> S() == old(S()) && Followed(s0, S(), b, x, tokens, d, i, t)
    {
      ghost var s := S();
      var one;
      ghost var v;
      one, v := LookupOne(d, tokens[i], b);
      if !one.Hit? {
        return false, d, t;
      }
      u := NextTrack(s0, s, S(), b, x, tokens, i, d, one.d, v, t);
      return true, one.d, u;
    }

    /**
     lookup_final_dentry: the cached lookup ends where the walk over the disk ends.  From a valid state it keeps the
     invariant exactly if the walk is not led astray.
     */
    method Lookup(start: nat, tokens: seq<string>, b: Bytes) returns (r: Look, ghost t: Track)
      requires Loose(S(), b) && start in dents
      modifies this`dents, this`dhash, this`vinodes, this`vhash
      ensures Resolved(old(S()), S(), b, start, tokens, r, t.stray)
      ensures r.Found? ==> if tokens == [] then r.d == start && S() == old(S())
                           else Came(old(S()), S(), b, InumOf(old(S()), start), tokens, r.d, t)
    {
      Present(S(), b, start);
      var d, i;
      d, i, t := Follow(start, tokens, b);
      if i == |tokens| {
        WholePath(tokens);
        r := Found(d);
      } else if Child(Disk(nodes, entries, b), vinodes[dents[d].inode].inum, tokens[i]).Lost? {
        r := Missing(d, i);
      } else {
        r := Dead;
      }
      FollowedResolves(old(S()), S(), b, start, tokens, d, i, t, r);
    }

    /** The same, with what all but unlink need to know. */
    method Resolve(start: nat, tokens: seq<string>, b: Bytes) returns (r: Look, ghost g: nat)
      requires Loose(S(), b) && start in dents
      modifies this`dents, this`dhash, this`vinodes, this`vhash
      ensures Resolved(old(S()), S(), b, start, tokens, r, g)
    {
      ghost var t;
      r, t := Lookup(start, tokens, b);
      g := t.stray;
    }

    // -------------------------------------------------------------- open, mkdir, opendir

    /**
     What vfs_open and vfs_mkdir do for a missing name: rfs_create or rfs_mkdir writes the inode, then asks for the
     entry, and only then are dentry and vinode cached.  `x` is the free inode number found, `space` whether a block
     is left.
     */
    method Make(p: nat, name: string, kind: Kind, x: nat, space: bool) returns (r: Made, ghost v: nat)
      requires Cached(dents, vinodes, p)
      modifies this`nodes, this`entries, this`dents, this`dhash, this`vinodes, this`vhash
      ensures Makes(old(S()), S(), p, name, kind, x, space, r, v)
    {
      v := 0;
      if !space {
        return NoSpace, 0;
      }
      var i := vinodes[dents[p].inode];
      var k := EKey(i.inum, name);
      var live := i.inum in nodes;
      nodes := nodes[x := Node(kind, 1)];
      if i.kind != DIR {
        return NotDirectory, 0;
      }
      if !live {
        return Wild, 0;
      }
      if |EntriesIn(entries, k.dir)| >= DIR_CAPACITY {
        return Full, 0;
      }
      entries := entries[k := x];
      var u := Fresh(vinodes.Keys);
      vinodes := vinodes[u := Vinode(x, kind, 1, 0)];
      vhash := if x in vhash then vhash else vhash[x := u];
      var d := HashDentry(p, name, u);
      return Created(d), u;
    }

    /** alloc_vfs_file */
    method NewFile(d: nat) returns (f: nat)
      requires d in dents
      modifies this`dents, this`files
      ensures f !in old(files) && S() == OpenFile(old(S()), f, d)
    {
      f := Fresh(files.Keys);
      dents := dents[d := dents[d].(dref := dents[d].dref + 1)];
      files := files[f := d];
    }

    /** vfs_open, with O_CREAT in `creat` and flags & MASK_FILEMODE in `mode`. */
    method Open(start: nat, tokens: seq<string>, b: Bytes, creat: bool, mode: int, x: nat, space: bool)
      returns (r: Reply)
      requires Valid() && start in dents && x !in nodes
      modifies this
      ensures OpenSpec(old(S()), S(), b, start, tokens, creat, mode, x, space, r)
    {
      ghost var s0 := S();
      InvIsLoose(s0, b);
      var look;
      ghost var g;
      look, g := Resolve(start, tokens, b);
      ghost var s := S();
      match look {
        case Dead =>
          OpenNothing(s0, s, b, start, tokens, creat, mode, x, space, look, g);
          return Killed;
        case Found(d) =>
          r := OpenDentry(d, mode);
          OpenFound(s0, s, S(), b, start, tokens, creat, mode, x, space, look, g, r);
        case Missing(p, i) =>
          if !creat || tokens[i] != tokens[|tokens| - 1] {
            OpenNothing(s0, s, b, start, tokens, creat, mode, x, space, look, g);
            return Refused;
          }
          var m;
          ghost var v;
          m, v := Make(p, tokens[i], FILE, x, space);
          ghost var t := S();
          MakesNode(s, t, b, p, tokens[i], FILE, x, space, m, v);
          if !m.Created? {
            OpenUnmade(s0, s, t, b, start, tokens, creat, mode, x, space, look, g, m, v);
            return if m.Full? then Overrun else if m.Wild? then Garbage else Killed;
          }
          r := OpenDentry(m.d, mode);
          OpenMade(s0, s, t, S(), b, start, tokens, creat, mode, x, space, look, g, m, v, r);
      }
    }

    /** The second half of vfs_open. */
    method OpenDentry(d: nat, mode: int) returns (r: Reply)
      requires Cached(dents, vinodes, d)
      modifies this`dents, this`files
      ensures OpensDentry(old(S()), S(), d, mode, r)
    {
      if vinodes[dents[d].inode].kind != FILE {
        return Refused;
      }
      if !(0 <= mode <= 2) {
        return Killed;
      }
      var f := NewFile(d);
      return Ok(f);
    }

    /** vfs_mkdir */
    method Mkdir(start: nat, tokens: seq<string>, b: Bytes, x: nat, space: bool) returns (r: Reply)
      requires Valid() && start in dents && x !in nodes
      modifies this
      ensures MkdirSpec(old(S()), S(), b, start, tokens, x, space, r)
    {
      ghost var s0 := S();
      InvIsLoose(s0, b);
      var look;
      ghost var g;
      look, g := Resolve(start, tokens, b);
      ghost var s := S();
      if !look.Missing? || tokens[look.index] != tokens[|tokens| - 1] {
        MkdirNothing(s0, s, b, start, tokens, x, space, look, g);
        return if look.Dead? then Killed else Refused;
      }
      var m;
      ghost var v;
      m, v := Make(look.parent, tokens[look.index], DIR, x, space);
      MkdirMade(s0, s, S(), b, start, tokens, x, space, look, g, m, v);
      return MkdirReply(m);
    }

    /** vfs_opendir */
    method OpenDir(start: nat, tokens: seq<string>, b: Bytes) returns (r: Reply)
      requires Valid() && start in dents
      modifies this`dents, this`dhash, this`vinodes, this`vhash, this`files
      ensures OpenDirSpec(old(S()), S(), b, start, tokens, r)
    {
      ghost var s0 := S();
      InvIsLoose(s0, b);
      var look;
      ghost var g;
      look, g := Resolve(start, tokens, b);
      ghost var s := S();
      match look {
        case Dead =>
          r := Killed;
        case Missing(_, _) =>
          r := Refused;
        case Found(d) =>
          if vinodes[dents[d].inode].kind != DIR {
            r := Refused;
          } else if vinodes[dents[d].inode].inum !in nodes {
            r := Garbage;
          } else {
            var f := NewFile(d);
            r := Ok(f);
          }
      }
      OpenDirAnswer(s0, s, S(), b, start, tokens, look, g, r);
    }

    // -------------------------------------------------------------- close

    /** vfs_close: the last close of a dentry drops it, the last dentry drops the vinode. */
    method Close(f: nat) returns (r: Reply)
      requires Valid() && f in files
      modifies this
      ensures Valid() && nodes == old(nodes) && entries == old(entries)
      ensures old(files[f] in dents && dents[files[f]].inode in vinodes)
      ensures var d := old(files)[f]; var i := old(vinodes)[old(dents)[d].inode];
        && (r.Refused? <==> i.kind != FILE) && (r.Ok? <==> i.kind == FILE)
        && (r.Refused? ==> S() == old(S()))
        && (r.Ok? ==> files == old(files) - {f})
        && (r.Ok? && old(dents)[d].dref > 1 ==>
              dents == old(dents)[d := old(dents)[d].(dref := old(dents)[d].dref - 1)] && vinodes == old(vinodes))
        && (r.Ok? && old(dents)[d].dref == 1 ==> dents == old(dents) - {d} && (i.inum in vhash <==> i.ref > 1))
    {
      var d := files[f];
      CloseFileKeeps(S(), f);
      PresentOk(S(), d);
      var v := dents[d].inode;
      if vinodes[v].kind != FILE {
        return Refused;
      }
      KindOnDisk(S(), d);
      VhashOfDentry(S(), d);
      RootIsDir(S());
      dents := dents[d := dents[d].(dref := dents[d].dref - 1)];
      files := files - {f};
      if dents[d].dref == 0 {
        Forget(d);
      }
      return Ok(f);
    }

    /** The end of a dentry that no file holds, and of its vinode if no other dentry holds that. */
    method Forget(d: nat)
      requires Valid() && CanDropDentry(S(), d)
      modifies this`nodes, this`dents, this`dhash, this`vinodes, this`vhash
      ensures Valid() && nodes == old(nodes) && dents == old(dents) - {d}
      ensures var i := old(InodeOf(dents, vinodes, d)); i.inum in vhash <==> i.ref > 1
    {
      var v := dents[d].inode;
      DropDentryKeeps(S(), d);
      KindOnDisk(S(), d);
      VhashOfDentry(S(), d);
      ghost var s := S();
      dhash := dhash - {HKey(dents[d].parent, dents[d].name)};
      dents := dents - {d};
      vinodes := vinodes[v := vinodes[v].(ref := vinodes[v].ref - 1)];
      assert S() == DropDentry(s, d);
      if vinodes[v].ref == 0 {
        ghost var t := S();
        DropVinodeKeeps(t, v);
        var i := vinodes[v];
        nodes := nodes[i.inum := Node(i.kind, i.nlinks)];
        assert nodes == t.nodes;
        vhash := vhash - {i.inum};
        vinodes := vinodes - {v};
        assert S() == DropVinode(t, v);
      }
    }

    /** vfs_closedir: a directory's dentry stays cached. */
    method CloseDir(f: nat) returns (r: Reply)
      requires Valid() && f in files
      modifies this`dents, this`files
      ensures Valid() && old(files[f] in dents && dents[files[f]].inode in vinodes)
      ensures var d := old(files)[f];
        if vinodes[old(dents)[d].inode].kind == DIR
        then r.Ok? && files == old(files) - {f} && old(dents)[d].dref > 0 &&
          dents == old(dents)[d := old(dents)[d].(dref := old(dents)[d].dref - 1)]
        else r.Refused? && S() == old(S())
    {
      var d := files[f];
      CloseFileKeeps(S(), f);
      PresentOk(S(), d);
      if vinodes[dents[d].inode].kind != DIR {
        return Refused;
      }
      dents := dents[d := dents[d].(dref := dents[d].dref - 1)];
      files := files - {f};
      return Ok(f);
    }

    // -------------------------------------------------------------- link, unlink

    /** vfs_link */
    method Link(start: nat, oldTokens: seq<string>, newTokens: seq<string>, b: Bytes) returns (r: Reply)
      requires Valid() && start in dents
      modifies this
      ensures LinkSpec(old(S()), S(), b, start, oldTokens, newTokens, r)
    {
      ghost var s0 := S();
      InvIsLoose(s0, b);
      var look;
      ghost var g;
      look, g := Resolve(start, oldTokens, b);
      ghost var s := S();
      if !look.Found? || vinodes[dents[look.d].inode].kind != FILE {
        LinkNothing(s0, s, b, start, oldTokens, newTokens, look, g);
        return if look.Dead? then Killed else Refused;
      }
      r := LinkTo(dents[look.d].inode, newTokens, b);
      LinkAnswer(s0, s, S(), b, start, oldTokens, newTokens, look, g, r);
    }

    /** The second half of vfs_link: the new name for vinode v. */
    method LinkTo(v: nat, tokens: seq<string>, b: Bytes) returns (r: Reply)
      requires Loose(S(), b) && v in vinodes && vinodes[v].kind == FILE
      modifies this`nodes, this`entries, this`dents, this`dhash, this`vinodes, this`vhash
      ensures LinksTo(old(S()), S(), b, v, tokens, r)
    {
      ghost var s := S();
      var dest;
      ghost var g;
      dest, g := Resolve(ROOT, tokens, b);
      ghost var t := S();
      if !dest.Missing? || tokens[dest.index] != tokens[|tokens| - 1] {
        LinksNothing(s, t, b, v, tokens, dest, g);
        return if dest.Dead? then Killed else Refused;
      }
      assert t.vinodes[v].inum == s.vinodes[v].inum;
      r := AddLink(dest.parent, tokens[dest.index], v);
      LinksAdded(s, t, S(), b, v, tokens, dest, g, r);
    }

    /** rfs_link and the new dentry: the link is counted first, and no entry made but in a directory. */
    method AddLink(p: nat, name: string, v: nat) returns (r: Reply)
      requires Cached(dents, vinodes, p) && v in vinodes
      modifies this`nodes, this`entries, this`dents, this`dhash, this`vinodes
      ensures Adds(old(S()), S(), p, name, v, r)
    {
      var q, i := vinodes[dents[p].inode], vinodes[v];
      vinodes := vinodes[v := i.(nlinks := i.nlinks + 1)];
      if q.kind == DIR {
        if q.inum !in nodes {
          return Garbage;
        }
        if |EntriesIn(entries, q.inum)| >= DIR_CAPACITY {
          return Overrun;
        }
        entries := entries[EKey(q.inum, name) := i.inum];
      }
      nodes := if i.inum in nodes then nodes[i.inum := Node(i.kind, i.nlinks + 1)] else nodes;
      var d := HashDentry(p, name, v);
      return Ok(d);
    }

    /** vfs_unlink */
    method Unlink(start: nat, tokens: seq<string>, b: Bytes) returns (r: Reply)
      requires Valid() && Cached(dents, vinodes, start) && InodeOf(dents, vinodes, start).kind == DIR
      modifies this
      ensures UnlinkSpec(old(S()), S(), b, start, tokens, r)
    {
      ghost var s0 := S();
      InvIsLoose(s0, b);
      var look;
      ghost var t;
      look, t := Lookup(start, tokens, b);
      ghost var s := S();
      if !look.Found? || vinodes[dents[look.d].inode].kind != FILE {
        UnlinkNothing(s0, s, b, start, tokens, look, t.stray);
        return if look.Dead? then Killed else Refused;
      }
      var d := look.d;
      LastStep(s0, s, b, start, tokens, d, t);
      if dents[d].dref > 0 {
        UnlinkBusy(s0, s, b, start, tokens, d, t.stray);
        return Refused;
      }
      Faces(s, b, dents[d].inode);
      r := RemoveLink(d);
      if Inv(s) {
        UnlinkStraight(s0, s, S(), b, start, tokens, d, t.stray);
      } else {
        UnlinkAstray(s0, s, S(), b, start, tokens, d, t);
      }
    }

    /** rfs_unlink, then the cache. */
    method RemoveLink(d: nat) returns (r: Reply)
      requires Cached(dents, vinodes, d) && Cached(dents, vinodes, dents[d].parent)
      requires var i := InodeOf(dents, vinodes, d);
        i.ref > 0 && (i.inum in nodes ==> nodes[i.inum] == Node(i.kind, i.nlinks))
      modifies this`nodes, this`entries, this`dents, this`dhash, this`vinodes, this`vhash
      ensures Left(old(S()), d, S()) && r == UnlinkReply(old(InodeOf(dents, vinodes, d)), d)
    {
      var v, e := dents[d].inode, dents[d];
      RfsUnlink(v, EKey(vinodes[dents[e.parent].inode].inum, e.name));
      r := CacheUnlink(d);
      UnlinkedVinodes(old(S()), d, vinodes);
    }

    /** rfs_unlink: link counts, the inode if it was the last link, and the entry.  Its assertion holds. */
    method RfsUnlink(v: nat, k: EKey)
      requires v in vinodes
      requires vinodes[v].inum in nodes ==> nodes[vinodes[v].inum] == Node(vinodes[v].kind, vinodes[v].nlinks)
      modifies this`nodes, this`entries, this`vinodes
      ensures var x := old(vinodes)[v].inum;
        nodes == if x in old(nodes) then NodesAfter(old(nodes), x) else old(nodes)
      ensures entries == old(entries) - {k}
      ensures vinodes == old(vinodes)[v := old(vinodes)[v].(nlinks := old(vinodes)[v].nlinks - 1)]
    {
      var x := vinodes[v].inum;
      assert x in nodes ==> vinodes[v].nlinks == nodes[x].nlinks;
      vinodes := vinodes[v := vinodes[v].(nlinks := vinodes[v].nlinks - 1)];
      if x in nodes {
        nodes := if vinodes[v].nlinks == 0 then nodes - {x} else nodes[x := Node(nodes[x].kind, vinodes[v].nlinks)];
      }
      entries := entries - {k};
    }

    /** The rest of vfs_unlink, with its assertion that a dead inode has no reference left. */
    method CacheUnlink(d: nat) returns (r: Reply)
      requires Cached(dents, vinodes, d) && InodeOf(dents, vinodes, d).ref > 0
      modifies this`dents, this`dhash, this`vinodes, this`vhash
      ensures dents == old(dents) - {d} && dhash == old(dhash) - {HKey(old(dents)[d].parent, old(dents)[d].name)}
      ensures var v := old(dents)[d].inode; var i := old(vinodes)[v];
        && r == (if i.nlinks == 0 && i.ref > 1 then Panic else Ok(d))
        && vinodes == (if i.nlinks == 0 && i.ref == 1 then old(vinodes) - {v}
                       else old(vinodes)[v := i.(ref := i.ref - 1)])
        && vhash == if i.nlinks == 0 && i.ref == 1 then old(vhash) - {i.inum} else old(vhash)
    {
      var v := dents[d].inode;
      dhash := dhash - {HKey(dents[d].parent, dents[d].name)};
      dents := dents - {d};
      vinodes := vinodes[v := vinodes[v].(ref := vinodes[v].ref - 1)];
      if vinodes[v].nlinks == 0 {
        if vinodes[v].ref != 0 {
          return Panic;
        }
        vhash := vhash - {vinodes[v].inum};
        vinodes := vinodes - {v};
      }
      return Ok(d);
    }
  }

  // ---------------------------------------------------------------- lemmas for the methods

  lemma WholePath(tokens: seq<string>)
    ensures tokens[..|tokens|] == tokens
  {
  }

  lemma InitInv(s: State)
    requires s == State(map[ROOT_INUM := Node(DIR, 1)], map[], map[ROOT := Dentry(ROOT, "/", 0, 0)], map[],
                        map[0 := Vinode(ROOT_INUM, DIR, 1, 1)], map[ROOT_INUM := 0], map[])
    ensures Inv(s)
  {
    assert Holders(s.dents, 0) == {ROOT};
    assert Opens(s.files, ROOT) == {};
  }

  lemma UnlinkedVinodes(s: State, d: nat, vinodes: map<nat, Vinode>)
    requires Cached(s.dents, s.vinodes, d) && Cached(s.dents, s.vinodes, s.dents[d].parent)
    requires InodeOf(s.dents, s.vinodes, d).ref > 0
    requires var v, i := s.dents[d].inode, InodeOf(s.dents, s.vinodes, d);
      var less := s.vinodes[v := i.(nlinks := i.nlinks - 1)];
      vinodes == if i.nlinks == 1 && i.ref == 1 then less - {v} else less[v := less[v].(ref := i.ref - 1)]
    ensures var v, i := s.dents[d].inode, InodeOf(s.dents, s.vinodes, d);
      vinodes == if i.nlinks == 1 && i.ref > 1 then s.vinodes[v := i.(nlinks := 0, ref := i.ref - 1)]
                 else Unlinked(s, d).vinodes
  {
    var v, i := s.dents[d].inode, InodeOf(s.dents, s.vinodes, d);
    assert s.vinodes[v := i.(nlinks := i.nlinks - 1)] - {v} == s.vinodes - {v};
  }

  lemma VhashOfDentry(s: State, d: nat)
    requires Inv(s) && Cached(s.dents, s.vinodes, d)
    ensures InodeOf(s.dents, s.vinodes, d).inum in s.vhash &&
      s.vhash[InodeOf(s.dents, s.vinodes, d).inum] == s.dents[d].inode
  {
    assert VinodeOk(s.nodes, s.vinodes, s.vhash, s.dents[d].inode);
  }

  lemma RootIsDir(s: State)
    requires Inv(s)
    ensures Cached(s.dents, s.vinodes, ROOT) && InodeOf(s.dents, s.vinodes, ROOT).kind == DIR
    ensures InodeOf(s.dents, s.vinodes, ROOT).inum == ROOT_INUM
  {
    PresentOk(s, ROOT);
    assert DentryOk(s.entries, s.dents, s.dhash, s.vinodes, ROOT);
    KindOnDisk(s, ROOT);
  }

  // ---------------------------------------------------------------- two paths led through a file

  /**
   Two files x and a, then link("/a", "/x/y"): the call succeeds, a has two links and one entry, and the name y is
   cached under x although the walk over the disk does not find it.
   */
  method LinkUnderFile() returns (vfs: Vfs, d: nat)
    ensures fresh(vfs) && !vfs.Valid()
    ensures 2 in vfs.nodes && vfs.nodes[2] == Node(FILE, 2) && Links(vfs.entries, 2) == {EKey(ROOT_INUM, "a")}
    ensures Stands(vfs.S(), d, "y", 2)
    ensures Walk(On(vfs.S(), NoBytes()), ROOT_INUM, ["x", "y"], 0) == Stops(1, 1)
  {
    vfs := TwoFiles();
    RootIsDir(vfs.S());
    TwoWalks(vfs.S(), NoBytes());
    var r := vfs.Link(ROOT, ["a"], ["x", "y"], NoBytes());
    d := r.id;
    TwoWalks(vfs.S(), NoBytes());
  }

  /**
   Two files x and a, both open; x holds the record of a name y for a's inode.  unlink("/x/y") frees that inode while
   the entry a still names it, and the kernel's assertion fails.
   */
  method UnlinkThroughFile() returns (vfs: Vfs, r: Reply)
    ensures fresh(vfs) && r == Panic && !vfs.Valid()
    ensures 2 !in vfs.nodes && EKey(ROOT_INUM, "a") in vfs.entries && vfs.entries[EKey(ROOT_INUM, "a")] == 2
  {
    vfs := TwoFiles();
    RootIsDir(vfs.S());
    TwoWalks(vfs.S(), Record());
    assert ["x", "y"][..1] == ["x"];
    r := vfs.Unlink(ROOT, ["x", "y"], Record());
  }

  /**
   The same with a record for an inode number that lies in a data block whose bytes read as a file with one link: the
   unlink succeeds, and tree and caches are valid again.
   */
  method UnlinkUnused() returns (vfs: Vfs, r: Reply)
    ensures fresh(vfs) && r.Ok? && vfs.Valid() && vfs.entries == TwoEntries()
    ensures vfs.nodes == map[ROOT_INUM := Node(DIR, 1), 1 := Node(FILE, 1), 2 := Node(FILE, 1)]
  {
    vfs := TwoFiles();
    var b := Bytes(map[EKey(1, "y") := 352], map[352 := Node(FILE, 1)]);
    RootIsDir(vfs.S());
    UnusedWalk(vfs.S(), b);
    ghost var nodes := vfs.nodes;
    r := vfs.Unlink(ROOT, ["x", "y"], b);
    NothingLess(TwoEntries(), EKey(1, "y"));
  }

  lemma NothingLess<K, V>(m: map<K, V>, k: K)
    requires k !in m
    ensures m - {k} == m
  {
  }

  lemma UnusedWalk(s: State, b: Bytes)
    requires Inv(s) && s.entries == TwoEntries() && b == Bytes(map[EKey(1, "y") := 352], map[352 := Node(FILE, 1)])
    requires s.nodes == map[ROOT_INUM := Node(DIR, 1), 1 := Node(FILE, 1), 2 := Node(FILE, 1)]
    ensures ["x", "y"][..1] == ["x"] && !Seen(s, 352) && 352 !in Trail(On(s, b), ROOT_INUM, ["x", "y"], 0)
    ensures Walk(On(s, b), ROOT_INUM, ["x"], 0) == At(1) && !Astray(On(s, b), ROOT_INUM, ["x"], 0)
    ensures Walk(On(s, b), ROOT_INUM, ["x", "y"], 0) == At(352) && Astray(On(s, b), ROOT_INUM, ["x", "y"], 0)
  {
    var disk := On(s, b);
    assert ["x", "y"][..1] == ["x"];
    assert Child(disk, ROOT_INUM, "x") == Goes(1) && Child(disk, 1, "y") == Goes(352);
    assert Walk(disk, 1, ["x", "y"], 1) == At(352) && Astray(disk, 1, ["x", "y"], 1);
    DeadIsNew(s, b, ROOT_INUM, ["x", "y"], 352);
  }

  function NoBytes(): Bytes {
    Bytes(map[], map[])
  }

  /** The 32 bytes {inum 2, name "y"} in the file with inode 1. */
  function Record(): Bytes {
    Bytes(map[EKey(1, "y") := 2], map[])
  }

  function TwoEntries(): map<EKey, nat> {
    map[EKey(ROOT_INUM, "x") := 1, EKey(ROOT_INUM, "a") := 2]
  }

  method TwoFiles() returns (vfs: Vfs)
    ensures fresh(vfs) && vfs.Valid() && vfs.entries == TwoEntries() && Seen(vfs.S(), 2)
    ensures vfs.nodes == map[ROOT_INUM := Node(DIR, 1), 1 := Node(FILE, 1), 2 := Node(FILE, 1)]
  {
    vfs := new Vfs();
    RootIsDir(vfs.S());
    assert EntriesIn(vfs.entries, ROOT_INUM) == {};
    var f := vfs.Open(ROOT, ["x"], NoBytes(), true, 0, 1, true);
    assert vfs.entries == map[EKey(ROOT_INUM, "x") := 1];
    RootIsDir(vfs.S());
    assert EntriesIn(vfs.entries, ROOT_INUM) == {EKey(ROOT_INUM, "x")};
    var g := vfs.Open(ROOT, ["a"], NoBytes(), true, 0, 2, true);
    assert Shows(vfs.S(), vfs.files[g.id], 2);
  }

  lemma TwoWalks(s: State, b: Bytes)
    requires s.entries == TwoEntries() && LiveDir(s.nodes, ROOT_INUM) && 2 in s.nodes
    requires 1 in s.nodes && s.nodes[1].kind == FILE && (b == NoBytes() || b == Record())
    ensures Walk(On(s, b), ROOT_INUM, ["a"], 0) == At(2) && !Astray(On(s, b), ROOT_INUM, ["a"], 0)
    ensures Walk(On(s, b), ROOT_INUM, ["x"], 0) == At(1) && !Astray(On(s, b), ROOT_INUM, ["x"], 0)
    ensures Walk(On(s, b), ROOT_INUM, ["x", "y"], 0) == if b == NoBytes() then Stops(1, 1) else At(2)
    ensures Astray(On(s, b), ROOT_INUM, ["x", "y"], 0) <==> b == Record()
    ensures Links(s.entries, 2) == {EKey(ROOT_INUM, "a")}
  {
    var disk := On(s, b);
    assert Child(disk, ROOT_INUM, "a") == Goes(2) && Child(disk, ROOT_INUM, "x") == Goes(1);
    assert Child(disk, 1, "y") == if b == NoBytes() then Lost else Goes(2);
    assert Walk(disk, 1, ["x", "y"], 1) == if b == NoBytes() then Stops(1, 1) else At(2);
    assert Astray(disk, 1, ["x", "y"], 1) <==> b == Record();
  }
}
