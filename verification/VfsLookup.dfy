/** What is known after each round of the token loop of lookup_final_dentry, and what an unlink then leaves. */
module VfsLookup {
  import opened VfsState
  import opened VfsSteps
  import opened VfsWalk
  import opened VfsLoose

  /** The dentry found hangs under the one its path's parent leads to. */
  ghost predicate ParentAgrees(s: State, d: nat, w: Walked, name: string) {
    && d != ROOT && Cached(s.dents, s.vinodes, d) && s.dents[d].name == name
    && Cached(s.dents, s.vinodes, s.dents[d].parent)
    && w == At(InodeOf(s.dents, s.vinodes, s.dents[d].parent).inum)
  }

  /** After i rounds from s0 the loop stands in state s at dentry d, where the walk over the disk is too. */
  ghost predicate Progress(s0: State, s: State, b: Bytes, x: nat, tokens: seq<string>, i: nat, d: nat) {
    && i <= |tokens| && Loose(s, b) && Grown(s0, s) && Cached(s.dents, s.vinodes, d)
    && Walk(On(s0, b), x, tokens[..i], 0) == At(InodeOf(s.dents, s.vinodes, d).inum)
    && (i > 0 ==> ParentAgrees(s, d, Walk(On(s0, b), x, tokens[..i - 1], 0), tokens[i - 1]))
  }

  ghost predicate Childless(dhash: map<HKey, nat>, d: nat) {
    forall name :: HKey(d, name) !in dhash
  }

  /** The invariant has survived exactly if the walk was not led astray; if it was, g is stray and d is new. */
  ghost predicate Wandered(s0: State, s: State, b: Bytes, x: nat, tokens: seq<string>, i: nat, d: nat, g: nat)
    requires i <= |tokens|
  {
    if Astray(On(s0, b), x, tokens[..i], 0)
    then Stray(s, g) && !Inv(s) && d !in s0.dents && Childless(s.dhash, d)
    else Inv(s)
  }

  ghost predicate Seen(s: State, x: nat) {
    exists d :: d in s.dents && Shows(s, d, x)
  }

  ghost predicate Shows(s: State, d: nat, x: nat) {
    Cached(s.dents, s.vinodes, d) && InodeOf(s.dents, s.vinodes, d).inum == x
  }

  /** The dentries that are new stand for inodes the walk has passed, and each of those has a dentry. */
  ghost predicate Traced(s0: State, s: State, xs: set<nat>) {
    && (forall c {:trigger s.dents[c]} :: c in s.dents && c !in s0.dents ==> exists x :: x in xs && Shows(s, c, x))
    && (forall x :: x in xs ==> Seen(s, x))
  }

  // ---------------------------------------------------------------- one round

  lemma ProgressRound(s0: State, s: State, t: State, b: Bytes, x: nat, tokens: seq<string>, i: nat, d: nat, e: nat,
                      v: nat)
    requires Progress(s0, s, b, x, tokens, i, d) && i < |tokens| && Round(s, t, b, d, tokens[i], e, v)
    ensures Progress(s0, t, b, x, tokens, i + 1, e)
  {
    RoundLoose(s, t, b, d, tokens[i], e, v);
    RoundFinds(s, t, b, d, tokens[i], e, v);
    GrownTrans(s0, s, t);
    WalkStep(On(s0, b), x, tokens, 0, i);
  }

  lemma WanderedRound(s0: State, s: State, t: State, b: Bytes, x: nat, tokens: seq<string>, i: nat, d: nat, e: nat,
                      v: nat, g: nat) returns (g': nat)
    requires Progress(s0, s, b, x, tokens, i, d) && i < |tokens| && Round(s, t, b, d, tokens[i], e, v)
    requires Wandered(s0, s, b, x, tokens, i, d, g)
    ensures Wandered(s0, t, b, x, tokens, i + 1, e, g')
    ensures Astray(On(s0, b), x, tokens[..i + 1], 0) ==> e !in s.dents
  {
    WalkStep(On(s0, b), x, tokens, 0, i);
    RoundLoose(s, t, b, d, tokens[i], e, v);
    if Inv(s) {
      RoundValid(s, t, b, d, tokens[i], e, v);
      g' := e;
    } else {
      StrayGrown(s, t, g);
      g' := g;
    }
    if Astray(On(s0, b), x, tokens[..i + 1], 0) {
      NewIsChildless(s, t, b, d, tokens[i], e, v);
    }
  }

  lemma NewIsChildless(s: State, t: State, b: Bytes, d: nat, name: string, e: nat, v: nat)
    requires Loose(s, b) && Round(s, t, b, d, name, e, v) && HKey(d, name) !in s.dhash
    ensures e !in s.dents && Childless(t.dhash, e)
  {
    forall n | HKey(e, n) in s.dhash
      ensures false
    {
      HashHit(s, b, e, n);
    }
    assert d in s.dents;
  }

  lemma StrayGrown(s: State, t: State, g: nat)
    requires Stray(s, g) && Grown(s, t)
    ensures Stray(t, g) && !Inv(t)
  {
    var p := s.dents[g].parent;
    assert t.dents[g] == s.dents[g] && t.dents[p] == s.dents[p];
    assert t.vinodes[s.dents[p].inode].kind == s.vinodes[s.dents[p].inode].kind;
    StrayBreaks(t, g);
  }

  lemma SeenGrown(s: State, t: State, x: nat)
    requires Seen(s, x) && Grown(s, t)
    ensures Seen(t, x)
  {
    var d :| d in s.dents && Shows(s, d, x);
    ShowsStill(s, t, d, x);
  }

  lemma TracedRound(s0: State, s: State, t: State, b: Bytes, d: nat, name: string, e: nat, v: nat, xs: set<nat>)
    requires Loose(s, b) && Round(s, t, b, d, name, e, v) && Traced(s0, s, xs)
    ensures Cached(t.dents, t.vinodes, e) && Traced(s0, t, xs + {InodeOf(t.dents, t.vinodes, e).inum})
  {
    RoundLoose(s, t, b, d, name, e, v);
    RoundFinds(s, t, b, d, name, e, v);
    TracedGrown(s0, s, t, e, xs, InodeOf(t.dents, t.vinodes, e).inum);
  }

  lemma TracedGrown(s0: State, s: State, t: State, e: nat, xs: set<nat>, y: nat)
    requires Grown(s, t) && Traced(s0, s, xs) && Shows(t, e, y)
    requires forall c :: c in t.dents ==> c in s.dents || c == e
    ensures Traced(s0, t, xs + {y})
  {
    forall c | c in t.dents && c !in s0.dents
      ensures exists x :: x in xs + {y} && Shows(t, c, x)
    {
      if c in s.dents {
        assert s.dents[c] == s.dents[c];
        var x :| x in xs && Shows(s, c, x);
        ShowsStill(s, t, c, x);
      }
    }
    forall x | x in xs
      ensures Seen(t, x)
    {
      SeenGrown(s, t, x);
    }
  }

  lemma ShowsStill(s: State, t: State, c: nat, x: nat)
    requires Grown(s, t) && Shows(s, c, x)
    ensures Shows(t, c, x)
  {
    assert t.dents[c] == s.dents[c] && t.vinodes[s.dents[c].inode].inum == s.vinodes[s.dents[c].inode].inum;
  }

  // ---------------------------------------------------------------- the whole loop

  /** How the last round came about: the state before it, where the loop stood then, the stray dentry then and now. */
  datatype Track = Track(before: State, parent: nat, vinode: nat, met: nat, stray: nat)

  ghost predicate Came(s0: State, s: State, b: Bytes, x: nat, tokens: seq<string>, d: nat, t: Track) {
    && tokens != [] && var n := |tokens| - 1;
    && Progress(s0, t.before, b, x, tokens, n, t.parent) && Round(t.before, s, b, t.parent, tokens[n], d, t.vinode)
    && Traced(s0, t.before, Trail(On(s0, b), x, tokens, 0))
    && (Inv(s0) ==> Wandered(s0, t.before, b, x, tokens, n, t.parent, t.met))
  }

  /** One round more. */
  lemma NextTrack(s0: State, s: State, u: State, b: Bytes, x: nat, tokens: seq<string>, i: nat, d: nat, e: nat, v: nat,
                  t: Track) returns (t': Track)
    requires Progress(s0, s, b, x, tokens, i, d) && i < |tokens| && Round(s, u, b, d, tokens[i], e, v)
    requires Inv(s0) ==> Wandered(s0, s, b, x, tokens, i, d, t.stray)
    requires Traced(s0, s, Trail(On(s0, b), x, tokens[..i], 0) + {InodeOf(s.dents, s.vinodes, d).inum})
    ensures Progress(s0, u, b, x, tokens, i + 1, e) && Came(s0, u, b, x, tokens[..i + 1], e, t')
    ensures Inv(s0) ==> Wandered(s0, u, b, x, tokens, i + 1, e, t'.stray)
    ensures Traced(s0, u, Trail(On(s0, b), x, tokens[..i + 1], 0) + {InodeOf(u.dents, u.vinodes, e).inum})
  {
    ProgressRound(s0, s, u, b, x, tokens, i, d, e, v);
    WalkStep(On(s0, b), x, tokens, 0, i);
    TracedRound(s0, s, u, b, d, tokens[i], e, v, Trail(On(s0, b), x, tokens[..i + 1], 0));
    t' := Track(s, d, v, t.stray, t.stray);
    if Inv(s0) {
      var g := WanderedRound(s0, s, u, b, x, tokens, i, d, e, v, t.stray);
      t' := t'.(stray := g);
    }
    CameBy(s0, s, u, b, x, tokens, i, d, e, v, t, t');
  }

  lemma CameBy(s0: State, s: State, u: State, b: Bytes, x: nat, tokens: seq<string>, i: nat, d: nat, e: nat, v: nat,
               t: Track, t': Track)
    requires Progress(s0, s, b, x, tokens, i, d) && i < |tokens| && Round(s, u, b, d, tokens[i], e, v)
    requires Inv(s0) ==> Wandered(s0, s, b, x, tokens, i, d, t.stray)
    requires Traced(s0, s, Trail(On(s0, b), x, tokens[..i + 1], 0))
    requires t'.before == s && t'.parent == d && t'.vinode == v && t'.met == t.stray
    ensures Came(s0, u, b, x, tokens[..i + 1], e, t')
  {
    var some := tokens[..i + 1];
    assert some[..i] == tokens[..i] && (i > 0 ==> some[..i - 1] == tokens[..i - 1]);
  }

  /** A dentry found by a walk that was led astray is new. */
  lemma FoundNew(s0: State, s: State, b: Bytes, x: nat, tokens: seq<string>, d: nat, t: Track)
    requires Inv(s0) && Came(s0, s, b, x, tokens, d, t) && Astray(On(s0, b), x, tokens, 0)
    ensures Loose(s, b) && Grown(t.before, s) && d !in t.before.dents && Cached(s.dents, s.vinodes, d)
    ensures s.dents[d] == Dentry(t.parent, tokens[|tokens| - 1], s.dents[d].inode, 0) && t.parent in t.before.dents
    ensures forall c :: c in s.dents ==> c in t.before.dents || c == d
  {
    var n, u := |tokens| - 1, t.before;
    assert tokens[..n + 1] == tokens;
    var g := WanderedRound(s0, u, s, b, x, tokens, n, t.parent, d, t.vinode, t.met);
    RoundLoose(u, s, b, t.parent, tokens[n], d, t.vinode);
    RoundFinds(u, s, b, t.parent, tokens[n], d, t.vinode);
  }

  /** Its vinode had a dentry before exactly in these two cases. */
  lemma LastRef(s0: State, s: State, b: Bytes, x: nat, tokens: seq<string>, d: nat, t: Track)
    requires Inv(s0) && Came(s0, s, b, x, tokens, d, t) && Astray(On(s0, b), x, tokens, 0)
    ensures Cached(s.dents, s.vinodes, d)
    ensures var i := InodeOf(s.dents, s.vinodes, d);
      i.ref > 0 && (i.ref > 1 <==> Seen(s0, i.inum) || i.inum in Trail(On(s0, b), x, tokens, 0))
  {
    FoundNew(s0, s, b, x, tokens, d, t);
    OthersSee(t.before, s, b, d);
    RefAbove(s.dents, s.vinodes, d);
    SeenOnTrail(s0, t.before, InodeOf(s.dents, s.vinodes, d).inum, Trail(On(s0, b), x, tokens, 0));
  }

  lemma RefAbove(dents: map<nat, Dentry>, vinodes: map<nat, Vinode>, d: nat)
    requires RefsOk(dents, vinodes) && Cached(dents, vinodes, d)
    ensures InodeOf(dents, vinodes, d).ref > 0
    ensures InodeOf(dents, vinodes, d).ref > 1 <==> Holders(dents, dents[d].inode) - {d} != {}
  {
    var hs := Holders(dents, dents[d].inode);
    SetAdd(hs - {d}, hs, d);
  }

  lemma SeenOnTrail(s0: State, u: State, y: nat, xs: set<nat>)
    requires Inv(s0) && Grown(s0, u) && Traced(s0, u, xs)
    ensures Seen(u, y) <==> Seen(s0, y) || y in xs
  {
    if Seen(s0, y) {
      SeenGrown(s0, u, y);
    }
    if Seen(u, y) {
      var c :| c in u.dents && Shows(u, c, y);
      if c in s0.dents {
        SeenBefore(s0, u, c, y);
      } else {
        assert u.dents[c] == u.dents[c];
      }
    }
  }

  lemma SeenBefore(s: State, t: State, c: nat, y: nat)
    requires Inv(s) && Grown(s, t) && c in s.dents && Shows(t, c, y)
    ensures Seen(s, y)
  {
    assert DentryOk(s.entries, s.dents, s.dhash, s.vinodes, c);
    assert t.dents[c] == s.dents[c] && t.vinodes[s.dents[c].inode].inum == s.vinodes[s.dents[c].inode].inum;
    assert Shows(s, c, y);
  }

  /** The other holders of d's vinode are the dentries that showed its inode before. */
  lemma OthersSee(u: State, s: State, b: Bytes, d: nat)
    requires Loose(u, b) && Loose(s, b) && Grown(u, s) && d !in u.dents && Cached(s.dents, s.vinodes, d)
    requires forall c :: c in s.dents ==> c in u.dents || c == d
    ensures Holders(s.dents, s.dents[d].inode) - {d} != {} <==> Seen(u, InodeOf(s.dents, s.vinodes, d).inum)
  {
    var v, y := s.dents[d].inode, InodeOf(s.dents, s.vinodes, d).inum;
    Faces(s, b, v);
    if c :| c in Holders(s.dents, v) - {d} {
      Present(u, b, c);
      assert s.dents[c] == u.dents[c] && s.vinodes[u.dents[c].inode].inum == u.vinodes[u.dents[c].inode].inum;
      assert Shows(u, c, y);
    }
    if Seen(u, y) {
      var c :| c in u.dents && Shows(u, c, y);
      assert s.dents[c] == u.dents[c] && s.vinodes[u.dents[c].inode].inum == u.vinodes[u.dents[c].inode].inum;
      Faces(s, b, s.dents[c].inode);
      assert c in Holders(s.dents, v) - {d};
    }
  }

  // ---------------------------------------------------------------- unlinking what was found so

  /** An inode that loses a link while no entry goes leaves a broken tree. */
  lemma UncountedBreaks(nodes: map<nat, Node>, entries: map<EKey, nat>, y: nat)
    requires TreeOk(nodes, entries) && y in nodes && nodes[y].kind == FILE
    ensures !TreeOk(NodesAfter(nodes, y), entries)
  {
    assert NodeOk(nodes, entries, y);
    if nodes[y].nlinks == 1 {
      assert Links(entries, y) != {};
      var k :| k in Links(entries, y);
      assert TreeOk(NodesAfter(nodes, y), entries) ==> EntryOk(NodesAfter(nodes, y), entries, k);
    } else {
      assert TreeOk(NodesAfter(nodes, y), entries) ==> NodeOk(NodesAfter(nodes, y), entries, y);
    }
  }

  /** Dropping the dentry and vinode of a dead inode gives back the caches from before they were made. */
  lemma AttachUndone(s: State, p: nat, name: string, y: nat, n: Node, v: nat, d: nat)
    requires Cached(s.dents, s.vinodes, p) && p != d && d !in s.dents && v !in s.vinodes && y !in s.vhash
    requires y !in s.nodes && n.nlinks == 1 && HKey(p, name) !in s.dhash
    requires EKey(InodeOf(s.dents, s.vinodes, p).inum, name) !in s.entries
    ensures var t := Attach(s, p, name, y, n, v, d);
      && Cached(t.dents, t.vinodes, d) && Cached(t.dents, t.vinodes, p) && t.dents[d].parent == p
      && InodeOf(t.dents, t.vinodes, d).ref > 0 && Unlinked(t, d) == s
  {
    var t := Attach(s, p, name, y, n, v, d);
    var u := Unlinked(t, d);
    assert u.dents == s.dents && u.dhash == s.dhash && u.vinodes == s.vinodes && u.vhash == s.vhash;
    assert u.entries == s.entries;
  }

  /** A dentry that is stray stays so while another one, with no dentry under it, is dropped. */
  lemma StrayOutlives(s: State, d: nat, g: nat, t: State)
    requires Stray(s, g) && g != d && s.dents[g].parent != d
    requires t.dents == s.dents - {d}
    requires var v := s.dents[s.dents[g].parent].inode; v in t.vinodes && t.vinodes[v].kind == s.vinodes[v].kind
    ensures !Inv(t)
  {
    StrayBreaks(t, g);
  }

  /** Where only the last name is misread, the inode it names is new to the caches unless it is live. */
  lemma DeadIsNew(s0: State, b: Bytes, x: nat, tokens: seq<string>, y: nat)
    requires Inv(s0) && x in s0.nodes && tokens != [] && y !in s0.nodes
    requires !Astray(On(s0, b), x, tokens[..|tokens| - 1], 0)
    ensures !Seen(s0, y) && y !in Trail(On(s0, b), x, tokens, 0) && y !in s0.vhash
  {
    var n := |tokens| - 1;
    assert tokens[..n + 1] == tokens;
    WalkStep(On(s0, b), x, tokens, 0, n);
    StaysAmongTheLiving(On(s0, b), x, tokens[..n], 0);
    forall c, z | c in s0.dents && Shows(s0, c, z)
      ensures z in s0.nodes
    {
      assert VinodeOk(s0.nodes, s0.vinodes, s0.vhash, s0.dents[c].inode);
    }
    forall z | z in s0.vhash
      ensures z in s0.nodes
    {
      assert VhashOk(s0.vinodes, s0.vhash, z) && VinodeOk(s0.nodes, s0.vinodes, s0.vhash, s0.vhash[z]);
    }
  }

  /** What vfs_unlink leaves of a dentry that is not open: if its assertion fails it stops before the vinode goes. */
  ghost predicate Left(s: State, d: nat, u: State)
    requires Cached(s.dents, s.vinodes, d) && Cached(s.dents, s.vinodes, s.dents[d].parent)
    requires InodeOf(s.dents, s.vinodes, d).ref > 0
  {
    var v, i := s.dents[d].inode, InodeOf(s.dents, s.vinodes, d);
    if i.nlinks == 1 && i.ref > 1
    then u == Unlinked(s, d).(vinodes := s.vinodes[v := i.(nlinks := 0, ref := i.ref - 1)], vhash := s.vhash)
    else u == Unlinked(s, d)
  }

  /** The invariant after the unlink of a misread name. */
  lemma AfterAstray(s0: State, s: State, b: Bytes, x: nat, tokens: seq<string>, d: nat, t: Track, u: State)
    requires Inv(s0) && x in s0.nodes && Came(s0, s, b, x, tokens, d, t) && Astray(On(s0, b), x, tokens, 0)
    requires Cached(s.dents, s.vinodes, d) && Cached(s.dents, s.vinodes, s.dents[d].parent)
    requires InodeOf(s.dents, s.vinodes, d).kind == FILE && InodeOf(s.dents, s.vinodes, d).ref > 0 && Left(s, d, u)
    ensures var i := InodeOf(s.dents, s.vinodes, d);
      Inv(u) <==> !Astray(On(s0, b), x, tokens[..|tokens| - 1], 0) && i.inum !in s0.nodes && i.nlinks == 1
  {
    FoundNew(s0, s, b, x, tokens, d, t);
    if Astray(On(s0, b), x, tokens[..|tokens| - 1], 0) {
      StrayGrown(t.before, s, t.met);
      assert s.dents[t.met] == t.before.dents[t.met];
      ParentSurvives(s, b, d, t.met, u);
      StrayOutlives(s, d, t.met, u);
    } else {
      AfterLastAstray(s0, s, b, x, tokens, d, t, u);
    }
  }

  lemma ParentSurvives(s: State, b: Bytes, d: nat, g: nat, u: State)
    requires Loose(s, b) && Stray(s, g) && s.dents[g].parent != d
    requires Cached(s.dents, s.vinodes, d) && Cached(s.dents, s.vinodes, s.dents[d].parent)
    requires InodeOf(s.dents, s.vinodes, d).ref > 0 && Left(s, d, u)
    ensures var v := s.dents[s.dents[g].parent].inode; v in u.vinodes && u.vinodes[v].kind == s.vinodes[v].kind
  {
    var q, v := s.dents[g].parent, s.dents[d].inode;
    if s.dents[q].inode == v {
      RefAbove(s.dents, s.vinodes, d);
      assert q in Holders(s.dents, v) - {d};
    }
  }

  lemma AfterLastAstray(s0: State, s: State, b: Bytes, x: nat, tokens: seq<string>, d: nat, t: Track, u: State)
    requires Inv(s0) && x in s0.nodes && Came(s0, s, b, x, tokens, d, t) && Astray(On(s0, b), x, tokens, 0)
    requires !Astray(On(s0, b), x, tokens[..|tokens| - 1], 0)
    requires Cached(s.dents, s.vinodes, d) && Cached(s.dents, s.vinodes, s.dents[d].parent)
    requires InodeOf(s.dents, s.vinodes, d).kind == FILE && InodeOf(s.dents, s.vinodes, d).ref > 0 && Left(s, d, u)
    ensures var i := InodeOf(s.dents, s.vinodes, d); Inv(u) <==> i.inum !in s0.nodes && i.nlinks == 1
  {
    var i, k := InodeOf(s.dents, s.vinodes, d), Backing(s, d);
    NoDirectory(s0, s, b, x, tokens, d, t);
    assert k in s.entries ==> EntryOk(s.nodes, s.entries, k);
    if i.inum in s0.nodes {
      AfterLive(s, b, d, u);
    } else {
      AfterDead(s0, s, b, x, tokens, d, t, u);
    }
  }

  lemma AfterLive(s: State, b: Bytes, d: nat, u: State)
    requires Loose(s, b) && Cached(s.dents, s.vinodes, d) && Cached(s.dents, s.vinodes, s.dents[d].parent)
    requires InodeOf(s.dents, s.vinodes, d).kind == FILE && InodeOf(s.dents, s.vinodes, d).ref > 0 && Left(s, d, u)
    requires InodeOf(s.dents, s.vinodes, d).inum in s.nodes && Backing(s, d) !in s.entries
    ensures !Inv(u)
  {
    Faces(s, b, s.dents[d].inode);
    UncountedBreaks(s.nodes, s.entries, InodeOf(s.dents, s.vinodes, d).inum);
    assert s.entries - {Backing(s, d)} == s.entries;
  }

  lemma NoDirectory(s0: State, s: State, b: Bytes, x: nat, tokens: seq<string>, d: nat, t: Track)
    requires Inv(s0) && Came(s0, s, b, x, tokens, d, t) && Astray(On(s0, b), x, tokens, 0)
    requires !Astray(On(s0, b), x, tokens[..|tokens| - 1], 0)
    ensures Inv(t.before) && Loose(s, b) && s.nodes == s0.nodes && s.entries == s0.entries
    ensures d !in t.before.dents && HKey(t.parent, tokens[|tokens| - 1]) !in t.before.dhash
    ensures Cached(s.dents, s.vinodes, d) && s.dents[d].parent == t.parent && Cached(s.dents, s.vinodes, t.parent)
    ensures Cached(t.before.dents, t.before.vinodes, t.parent)
    ensures InodeOf(s.dents, s.vinodes, t.parent).inum == InodeOf(t.before.dents, t.before.vinodes, t.parent).inum
    ensures !LiveDir(s.nodes, InodeOf(s.dents, s.vinodes, t.parent).inum)
  {
    var n, e := |tokens| - 1, t.before;
    assert tokens[..n + 1] == tokens;
    WalkStep(On(s0, b), x, tokens, 0, n);
    RoundLoose(e, s, b, t.parent, tokens[n], d, t.vinode);
    RoundFinds(e, s, b, t.parent, tokens[n], d, t.vinode);
    RoundValid(e, s, b, t.parent, tokens[n], d, t.vinode);
  }

  lemma AfterDead(s0: State, s: State, b: Bytes, x: nat, tokens: seq<string>, d: nat, t: Track, u: State)
    requires Inv(s0) && x in s0.nodes && Came(s0, s, b, x, tokens, d, t) && Astray(On(s0, b), x, tokens, 0)
    requires !Astray(On(s0, b), x, tokens[..|tokens| - 1], 0)
    requires Cached(s.dents, s.vinodes, d) && Cached(s.dents, s.vinodes, s.dents[d].parent)
    requires InodeOf(s.dents, s.vinodes, d).ref > 0 && Left(s, d, u)
    requires InodeOf(s.dents, s.vinodes, d).inum !in s0.nodes && Backing(s, d) !in s.entries
    ensures Inv(u) <==> InodeOf(s.dents, s.vinodes, d).nlinks == 1
  {
    var n, e := |tokens| - 1, t.before;
    var i, v := InodeOf(s.dents, s.vinodes, d), s.dents[d].inode;
    LastRef(s0, s, b, x, tokens, d, t);
    DeadIsNew(s0, b, x, tokens, i.inum);
    NoDirectory(s0, s, b, x, tokens, d, t);
    if i.nlinks == 1 {
      DeadIsNew(e, b, x, tokens, i.inum);
      Faces(s, b, v);
      AttachUndone(e, t.parent, tokens[n], i.inum, Node(i.kind, i.nlinks), t.vinode, d);
    } else {
      assert v in u.vinodes && u.vinodes[v].inum !in u.nodes;
      assert Inv(u) ==> VinodeOk(u.nodes, u.vinodes, u.vhash, v);
    }
  }
}
