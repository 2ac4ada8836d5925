/** What the operations of kernel/vfs.c answer and leave behind, as relations between states. */
module VfsOps {
  import opened VfsState
  import opened VfsSteps
  import opened VfsWalk
  import opened VfsLoose
  import opened VfsLookup

  const DIR_CAPACITY := 128  // entries of a directory's one block

  /** Where lookup_final_dentry ends; Missing carries the last parent and the index of the missing name. */
  datatype Look = Found(d: nat) | Missing(parent: nat, index: nat) | Dead

  /** What becomes of a name that is to be made. */
  datatype Made = Created(d: nat) | NoSpace | NotDirectory | Full | Wild

  /**
   Killed: the process is killed.  Panic: an assertion of the kernel fails.  Overrun: the code goes on with an address
   it never set, for an entry that the directory's block has no room for.  Garbage: it goes on with the addresses of an
   inode that is not in use but reads as a directory.
   */
  datatype Reply = Ok(id: nat) | Refused | Killed | Panic | Overrun | Garbage

  function EntriesIn(entries: map<EKey, nat>, dir: nat): set<EKey> {
    set k | k in entries && k.dir == dir
  }

  predicate HasRoom(entries: map<EKey, nat>, dir: nat) {
    |EntriesIn(entries, dir)| < DIR_CAPACITY
  }

  ghost function InumOf(s: State, d: nat): nat {
    if Cached(s.dents, s.vinodes, d) then InodeOf(s.dents, s.vinodes, d).inum else ROOT_INUM
  }

  /** The walk over the disk from a dentry's inode, without any cache. */
  ghost function WalkFrom(s: State, b: Bytes, start: nat, tokens: seq<string>): Walked {
    Walk(On(s, b), InumOf(s, start), tokens, 0)
  }

  ghost predicate AstrayFrom(s: State, b: Bytes, start: nat, tokens: seq<string>) {
    Astray(On(s, b), InumOf(s, start), tokens, 0)
  }

  predicate Leads(disk: Disk, w: Walked, kind: Kind) {
    w.At? && Reads(disk, w.inum, kind)
  }

  /** The answer of a lookup agrees with the walk. */
  ghost predicate Agrees(s: State, look: Look, w: Walked) {
    match look
    case Found(d) => Cached(s.dents, s.vinodes, d) && w == At(InodeOf(s.dents, s.vinodes, d).inum)
    case Missing(p, i) => Cached(s.dents, s.vinodes, p) && w == Stops(InodeOf(s.dents, s.vinodes, p).inum, i)
    case Dead => w.Fatal?
  }

  /** Some open file holds the dentry of entry k. */
  ghost predicate Busy(s: State, k: EKey) {
    exists f :: f in s.files && HoldsEntry(s, s.files[f], k)
  }

  ghost predicate HoldsEntry(s: State, d: nat, k: EKey) {
    d != ROOT && Cached(s.dents, s.vinodes, d) && Cached(s.dents, s.vinodes, s.dents[d].parent) && Backing(s, d) == k
  }

  /** Dentry d has this name and inode number, and a lookup under its parent finds it. */
  ghost predicate Stands(s: State, d: nat, name: string, x: nat) {
    && Cached(s.dents, s.vinodes, d) && s.dents[d].name == name && InodeOf(s.dents, s.vinodes, d).inum == x
    && HKey(s.dents[d].parent, name) in s.dhash && s.dhash[HKey(s.dents[d].parent, name)] == d
  }

  /** An open file f leads to inode x. */
  ghost predicate OpenedAt(s: State, f: nat, x: nat) {
    f in s.files && Cached(s.dents, s.vinodes, s.files[f]) && InodeOf(s.dents, s.vinodes, s.files[f]).inum == x
  }

  /** One link more, if the inode is in use. */
  function Counted(nodes: map<nat, Node>, x: nat): map<nat, Node> {
    if x in nodes then nodes[x := Node(nodes[x].kind, nodes[x].nlinks + 1)] else nodes
  }

  // ---------------------------------------------------------------- a path led astray

  /** What every step but the dropping of dentries and vinodes keeps. */
  ghost predicate TablesKept(s: State, t: State) {
    && (forall d {:trigger t.dents[d]} {:trigger s.dents[d]} ::
          d in s.dents ==> d in t.dents && t.dents[d] == s.dents[d].(dref := t.dents[d].dref))
    && (forall v {:trigger t.vinodes[v]} {:trigger s.vinodes[v]} ::
          v in s.vinodes ==>
            v in t.vinodes && t.vinodes[v].inum == s.vinodes[v].inum && t.vinodes[v].kind == s.vinodes[v].kind)
  }

  /** A dentry that a path led astray has put under a file stays what it is while no dentry or vinode is dropped. */
  lemma StrayStays(s: State, t: State, d: nat)
    requires Stray(s, d) && TablesKept(s, t)
    ensures Stray(t, d) && !Inv(t)
  {
    var p := s.dents[d].parent;
    assert t.dents[d].parent == p && t.dents[p].inode == s.dents[p].inode;
    assert t.vinodes[s.dents[p].inode].kind == s.vinodes[s.dents[p].inode].kind;
    StrayBreaks(t, d);
  }

  lemma TablesTrans(s: State, t: State, u: State)
    requires TablesKept(s, t) && TablesKept(t, u)
    ensures TablesKept(s, u)
  {
    forall d | d in s.dents
      ensures d in u.dents && u.dents[d] == s.dents[d].(dref := u.dents[d].dref)
    {
      assert t.dents[d] == s.dents[d].(dref := t.dents[d].dref);
    }
    forall v | v in s.vinodes
      ensures v in u.vinodes && u.vinodes[v].inum == s.vinodes[v].inum && u.vinodes[v].kind == s.vinodes[v].kind
    {
      assert t.vinodes[v].inum == s.vinodes[v].inum;
    }
  }

  // ---------------------------------------------------------------- lookup

  /**
   A lookup from s0 ends in s where the walk over the disk ends.  If s0 is valid, s is too unless the walk is led
   astray; then the dentry g is stray.
   */
  ghost predicate Resolved(s0: State, s: State, b: Bytes, start: nat, tokens: seq<string>, r: Look, g: nat) {
    && Loose(s, b) && Grown(s0, s) && Agrees(s, r, WalkFrom(s0, b, start, tokens))
    && (Inv(s0) ==> if AstrayFrom(s0, b, start, tokens) then Stray(s, g) && !Inv(s) else Inv(s))
    && (r.Missing? ==> r.index < |tokens| && Vacant(s, r.parent, tokens[r.index]))
  }

  /** Neither the cache nor the disk has the name. */
  ghost predicate Vacant(s: State, p: nat, name: string) {
    && Cached(s.dents, s.vinodes, p) && HKey(p, name) !in s.dhash
    && EKey(InodeOf(s.dents, s.vinodes, p).inum, name) !in s.entries
  }

  lemma LostIsNoEntry(s: State, b: Bytes, x: nat, name: string)
    requires Loose(s, b) && Child(On(s, b), x, name) == Lost
    ensures EKey(x, name) !in s.entries
  {
    assert EKey(x, name) in s.entries ==> EntryOk(s.nodes, s.entries, EKey(x, name));
  }

  /** The token loop after i rounds. */
  ghost predicate Following(s0: State, s: State, b: Bytes, x: nat, tokens: seq<string>, i: nat, d: nat, t: Track) {
    && Progress(s0, s, b, x, tokens, i, d)
    && (Inv(s0) ==> Wandered(s0, s, b, x, tokens, i, d, t.stray))
    && Traced(s0, s, Trail(On(s0, b), x, tokens[..i], 0) + {InumOf(s, d)})
  }

  lemma FollowStart(s: State, b: Bytes, start: nat, tokens: seq<string>)
    requires Loose(s, b) && Cached(s.dents, s.vinodes, start)
    ensures Following(s, s, b, InumOf(s, start), tokens, 0, start, Track(s, start, 0, 0, 0))
  {
    assert Shows(s, start, InumOf(s, start));
    assert tokens[..0] == [];
  }

  /** The token loop has reached the end, or the first name that is not found. */
  ghost predicate Followed(s0: State, s: State, b: Bytes, x: nat, tokens: seq<string>, d: nat, i: nat, t: Track) {
    && Following(s0, s, b, x, tokens, i, d, t)
    && (i < |tokens| ==>
          var c := Child(On(s, b), InodeOf(s.dents, s.vinodes, d).inum, tokens[i]);
          !c.Goes? && (c.Lost? ==> HKey(d, tokens[i]) !in s.dhash))
  }

  lemma FollowedResolves(s0: State, s: State, b: Bytes, start: nat, tokens: seq<string>, d: nat, i: nat, t: Track,
                         r: Look)
    requires Followed(s0, s, b, InumOf(s0, start), tokens, d, i, t)
    requires r == if i == |tokens| then Found(d)
                  else if Child(On(s, b), InodeOf(s.dents, s.vinodes, d).inum, tokens[i]).Lost? then Missing(d, i)
                  else Dead
    ensures Resolved(s0, s, b, start, tokens, r, t.stray)
  {
    var disk, x := On(s0, b), InumOf(s0, start);
    if i == |tokens| {
      assert tokens[..i] == tokens;
    } else {
      WalkStep(disk, x, tokens, 0, i);
      WalkStuck(disk, x, tokens, 0, i + 1);
      if r.Missing? {
        LostIsNoEntry(s, b, InodeOf(s.dents, s.vinodes, d).inum, tokens[i]);
      }
    }
  }

  // ---------------------------------------------------------------- a new inode

  /** The new vinode and its dentry; hash_put_vinode refuses a number that is there already. */
  function Enter(s: State, p: nat, name: string, kind: Kind, x: nat, v: nat, d: nat): State {
    var t := s.(vinodes := s.vinodes[v := Vinode(x, kind, 1, 0)],
                vhash := if x in s.vhash then s.vhash else s.vhash[x := v]);
    AddDentry(t, d, p, name, v)
  }

  /** What vfs_open and vfs_mkdir do for a missing name. */
  ghost predicate Makes(s: State, t: State, p: nat, name: string, kind: Kind, x: nat, space: bool, r: Made, v: nat)
    requires Cached(s.dents, s.vinodes, p)
  {
    var i := InodeOf(s.dents, s.vinodes, p);
    var born := s.(nodes := s.nodes[x := Node(kind, 1)]);
    match r
    case NoSpace => !space && t == s
    case NotDirectory => space && i.kind != DIR && t == born
    case Wild => space && i.kind == DIR && i.inum !in s.nodes && t == born
    case Full => space && i.kind == DIR && i.inum in s.nodes && !HasRoom(s.entries, i.inum) && t == born
    case Created(d) =>
      && space && i.kind == DIR && i.inum in s.nodes && HasRoom(s.entries, i.inum) && v !in s.vinodes && d !in s.dents
      && t == Enter(NewNode(s, x, kind, EKey(i.inum, name)), p, name, kind, x, v, d)
  }

  lemma EnterKeeps(s: State, p: nat, name: string, kind: Kind, x: nat, v: nat, d: nat)
    requires Inv(s) && x !in s.nodes && Vacant(s, p, name) && InodeOf(s.dents, s.vinodes, p).kind == DIR
    requires v !in s.vinodes && d !in s.dents
    ensures Inv(Enter(NewNode(s, x, kind, EKey(InodeOf(s.dents, s.vinodes, p).inum, name)), p, name, kind, x, v, d))
  {
    var k := EKey(InodeOf(s.dents, s.vinodes, p).inum, name);
    assert VinodeOk(s.nodes, s.vinodes, s.vhash, s.dents[p].inode);
    var t := NewNode(s, x, kind, k);
    NewNodeKeeps(s, x, kind, k);
    AddVinodeKeeps(t, v, x);
    AddDentryKeeps(AddVinode(t, v, x), d, p, name, v);
    assert Enter(t, p, name, kind, x, v, d) == AddDentry(AddVinode(t, v, x), d, p, name, v);
  }

  /** The invariant survives exactly if no inode is left without its entry. */
  lemma MakesKeeps(s: State, t: State, p: nat, name: string, kind: Kind, x: nat, space: bool, r: Made, v: nat)
    requires Inv(s) && x !in s.nodes && Vacant(s, p, name) && Makes(s, t, p, name, kind, x, space, r, v)
    ensures Inv(t) <==> r.Created? || r.NoSpace?
  {
    if r.Created? {
      EnterKeeps(s, p, name, kind, x, v, r.d);
    } else if !r.NoSpace? {
      OrphanBreaks(s, x, kind, t);
    }
  }

  lemma MakesTables(s: State, t: State, p: nat, name: string, kind: Kind, x: nat, space: bool, r: Made, v: nat)
    requires Cached(s.dents, s.vinodes, p) && Makes(s, t, p, name, kind, x, space, r, v)
    ensures TablesKept(s, t)
  {
  }

  lemma MakesNode(s: State, t: State, b: Bytes, p: nat, name: string, kind: Kind, x: nat, space: bool, r: Made, v: nat)
    requires Loose(s, b) && Cached(s.dents, s.vinodes, p) && Makes(s, t, p, name, kind, x, space, r, v)
    ensures var dir, disk := InodeOf(s.dents, s.vinodes, p).inum, On(s, b);
      && (r.NoSpace? <==> !space)
      && (r.NotDirectory? <==> space && !Reads(disk, dir, DIR))
      && (r.Wild? <==> space && DeadDir(disk, dir))
      && (r.Full? <==> space && LiveDir(s.nodes, dir) && !HasRoom(s.entries, dir))
      && t.nodes == (if space then s.nodes[x := Node(kind, 1)] else s.nodes)
      && t.entries == (if r.Created? then s.entries[EKey(dir, name) := x] else s.entries) && t.files == s.files
    ensures r.Created? ==>
      Cached(t.dents, t.vinodes, r.d) && InodeOf(t.dents, t.vinodes, r.d).inum == x &&
      InodeOf(t.dents, t.vinodes, r.d).kind == kind
  {
    Faces(s, b, s.dents[p].inode);
  }

  // ---------------------------------------------------------------- open, mkdir, opendir

  /**
   vfs_open.  The invariant survives exactly unless the path is led astray or a new inode is left without an entry:
   under a file, where the process is killed, or in a full directory.
   */
  ghost predicate OpenSpec(s0: State, s: State, b: Bytes, start: nat, tokens: seq<string>, creat: bool, mode: int,
                           x: nat, space: bool, r: Reply) {
    var w, disk := WalkFrom(s0, b, start, tokens), On(s0, b);
    var born := MissesLast(w, tokens) && creat && space;
    var made := born && LiveDir(s0.nodes, w.dir) && HasRoom(s0.entries, w.dir);
    var file := made || Leads(disk, w, FILE);
    && (Inv(s) <==> !AstrayFrom(s0, b, start, tokens) && (born ==> made))
    && (!r.Garbage? ==> s.nodes == if born then s0.nodes[x := Node(FILE, 1)] else s0.nodes)
    && (!r.Garbage? ==> s.entries == if made then s0.entries[EKey(w.dir, tokens[w.index]) := x] else s0.entries)
    && (r.Garbage? <==> born && DeadDir(disk, w.dir)) && !r.Panic?
    && (r.Overrun? <==> born && LiveDir(s0.nodes, w.dir) && !made)
    && (r.Ok? <==> file && 0 <= mode <= 2)
    && (r.Killed? <==> || w.Fatal? || (MissesLast(w, tokens) && creat && !space)
                       || (born && !Reads(disk, w.dir, DIR)) || (file && !(0 <= mode <= 2)))
    && (r.Ok? ==>
          OpenedAt(s, r.id, if made then x else w.inum) && r.id !in s0.files && s0.files == s.files - {r.id})
    && (!r.Ok? ==> s.files == s0.files)
  }

  /** The second half of vfs_open. */
  ghost predicate OpensDentry(s: State, t: State, d: nat, mode: int, r: Reply)
    requires Cached(s.dents, s.vinodes, d)
  {
    if InodeOf(s.dents, s.vinodes, d).kind != FILE then r == Refused && t == s
    else if !(0 <= mode <= 2) then r == Killed && t == s
    else r.Ok? && r.id !in s.files && t == OpenFile(s, r.id, d)
  }

  lemma OpenTables(s: State, f: nat, d: nat)
    requires d in s.dents
    ensures TablesKept(s, OpenFile(s, f, d))
  {
  }

  lemma OpensKeeps(s: State, t: State, d: nat, mode: int, r: Reply)
    requires Cached(s.dents, s.vinodes, d) && OpensDentry(s, t, d, mode, r)
    ensures TablesKept(s, t) && (Inv(s) ==> Inv(t)) && t.nodes == s.nodes && t.entries == s.entries
    ensures if r.Ok? then OpenedAt(t, r.id, InodeOf(s.dents, s.vinodes, d).inum) && s.files == t.files - {r.id}
            else t.files == s.files
  {
    if r.Ok? {
      OpenTables(s, r.id, d);
      if Inv(s) {
        OpenFileKeeps(s, r.id, d);
      }
      assert t.files - {r.id} == s.files;
    }
  }

  lemma OpenNothing(s0: State, s: State, b: Bytes, start: nat, tokens: seq<string>, creat: bool, mode: int, x: nat,
                    space: bool, look: Look, g: nat)
    requires Inv(s0) && Resolved(s0, s, b, start, tokens, look, g)
    requires look.Dead? || (look.Missing? && !(creat && tokens[look.index] == tokens[|tokens| - 1]))
    ensures OpenSpec(s0, s, b, start, tokens, creat, mode, x, space, if look.Dead? then Killed else Refused)
  {
  }

  lemma OpenFound(s0: State, s: State, t: State, b: Bytes, start: nat, tokens: seq<string>, creat: bool, mode: int,
                  x: nat, space: bool, look: Look, g: nat, r: Reply)
    requires Inv(s0) && Resolved(s0, s, b, start, tokens, look, g) && look.Found?
    requires OpensDentry(s, t, look.d, mode, r)
    ensures OpenSpec(s0, t, b, start, tokens, creat, mode, x, space, r)
  {
    Faces(s, b, s.dents[look.d].inode);
    OpensKeeps(s, t, look.d, mode, r);
    if !Inv(s) {
      StrayStays(s, t, g);
    }
  }

  /** Whatever is made after a lookup, the invariant survives as it should. */
  lemma MadeAfter(s0: State, s: State, t: State, b: Bytes, start: nat, tokens: seq<string>, look: Look, g: nat,
                  kind: Kind, x: nat, space: bool, m: Made, v: nat)
    requires Inv(s0) && Resolved(s0, s, b, start, tokens, look, g) && look.Missing? && x !in s0.nodes
    requires Makes(s, t, look.parent, tokens[look.index], kind, x, space, m, v)
    ensures Inv(t) <==> !AstrayFrom(s0, b, start, tokens) && (m.Created? || m.NoSpace?)
    ensures !Inv(s) ==> Stray(t, g)
  {
    MakesTables(s, t, look.parent, tokens[look.index], kind, x, space, m, v);
    if Inv(s) {
      MakesKeeps(s, t, look.parent, tokens[look.index], kind, x, space, m, v);
    } else {
      StrayStays(s, t, g);
    }
  }

  lemma OpenUnmade(s0: State, s: State, t: State, b: Bytes, start: nat, tokens: seq<string>, creat: bool, mode: int,
                   x: nat, space: bool, look: Look, g: nat, m: Made, v: nat)
    requires Inv(s0) && Resolved(s0, s, b, start, tokens, look, g) && x !in s0.nodes
    requires look.Missing? && creat && tokens[look.index] == tokens[|tokens| - 1]
    requires Makes(s, t, look.parent, tokens[look.index], FILE, x, space, m, v) && !m.Created?
    ensures OpenSpec(s0, t, b, start, tokens, creat, mode, x, space,
                     if m.Full? then Overrun else if m.Wild? then Garbage else Killed)
  {
    MadeAfter(s0, s, t, b, start, tokens, look, g, FILE, x, space, m, v);
    MakesNode(s, t, b, look.parent, tokens[look.index], FILE, x, space, m, v);
  }

  lemma OpenMade(s0: State, s: State, t: State, u: State, b: Bytes, start: nat, tokens: seq<string>, creat: bool,
                 mode: int, x: nat, space: bool, look: Look, g: nat, m: Made, v: nat, r: Reply)
    requires Inv(s0) && Resolved(s0, s, b, start, tokens, look, g) && x !in s0.nodes
    requires look.Missing? && creat && tokens[look.index] == tokens[|tokens| - 1]
    requires Makes(s, t, look.parent, tokens[look.index], FILE, x, space, m, v) && m.Created?
    requires Cached(t.dents, t.vinodes, m.d) && OpensDentry(t, u, m.d, mode, r)
    ensures OpenSpec(s0, u, b, start, tokens, creat, mode, x, space, r)
  {
    MadeAfter(s0, s, t, b, start, tokens, look, g, FILE, x, space, m, v);
    MakesNode(s, t, b, look.parent, tokens[look.index], FILE, x, space, m, v);
    OpensKeeps(t, u, m.d, mode, r);
    if !Inv(s) {
      StrayStays(t, u, g);
    }
  }

  /** vfs_mkdir.  Under a file it is refused too, but only after the new inode was written. */
  ghost predicate MkdirSpec(s0: State, s: State, b: Bytes, start: nat, tokens: seq<string>, x: nat, space: bool,
                            r: Reply) {
    var w, disk := WalkFrom(s0, b, start, tokens), On(s0, b);
    var born := MissesLast(w, tokens) && space;
    var made := born && LiveDir(s0.nodes, w.dir) && HasRoom(s0.entries, w.dir);
    && (Inv(s) <==> !AstrayFrom(s0, b, start, tokens) && (born ==> made)) && s.files == s0.files
    && (!r.Garbage? ==> s.nodes == if born then s0.nodes[x := Node(DIR, 1)] else s0.nodes)
    && (!r.Garbage? ==> s.entries == if made then s0.entries[EKey(w.dir, tokens[w.index]) := x] else s0.entries)
    && (r.Garbage? <==> born && DeadDir(disk, w.dir)) && (r.Ok? <==> made) && !r.Panic?
    && (r.Killed? <==> w.Fatal? || (MissesLast(w, tokens) && !space))
    && (r.Overrun? <==> born && LiveDir(s0.nodes, w.dir) && !made)
  }

  lemma MkdirNothing(s0: State, s: State, b: Bytes, start: nat, tokens: seq<string>, x: nat, space: bool, look: Look,
                     g: nat)
    requires Inv(s0) && Resolved(s0, s, b, start, tokens, look, g)
    requires look.Missing? ==> tokens[look.index] != tokens[|tokens| - 1]
    ensures MkdirSpec(s0, s, b, start, tokens, x, space, if look.Dead? then Killed else Refused)
  {
  }

  function MkdirReply(m: Made): Reply {
    match m
    case Created(d) => Ok(d)
    case NoSpace => Killed
    case NotDirectory => Refused
    case Full => Overrun
    case Wild => Garbage
  }

  lemma MkdirMade(s0: State, s: State, t: State, b: Bytes, start: nat, tokens: seq<string>, x: nat, space: bool,
                  look: Look, g: nat, m: Made, v: nat)
    requires Inv(s0) && Resolved(s0, s, b, start, tokens, look, g) && x !in s0.nodes
    requires look.Missing? && tokens[look.index] == tokens[|tokens| - 1]
    requires Makes(s, t, look.parent, tokens[look.index], DIR, x, space, m, v)
    ensures MkdirSpec(s0, t, b, start, tokens, x, space, MkdirReply(m))
  {
    MadeAfter(s0, s, t, b, start, tokens, look, g, DIR, x, space, m, v);
    MakesNode(s, t, b, look.parent, tokens[look.index], DIR, x, space, m, v);
  }

  /** vfs_opendir; Garbage where it reads the blocks of an inode that is not in use. */
  ghost predicate OpenDirSpec(s0: State, s: State, b: Bytes, start: nat, tokens: seq<string>, r: Reply) {
    var w, disk := WalkFrom(s0, b, start, tokens), On(s0, b);
    && (Inv(s) <==> !AstrayFrom(s0, b, start, tokens)) && s.nodes == s0.nodes && s.entries == s0.entries
    && (r.Killed? <==> w.Fatal?) && !r.Overrun? && !r.Panic?
    && (r.Garbage? <==> w.At? && DeadDir(disk, w.inum)) && (r.Ok? <==> w.At? && LiveDir(s0.nodes, w.inum))
    && (r.Ok? ==> OpenedAt(s, r.id, w.inum) && r.id !in s0.files && s0.files == s.files - {r.id})
    && (!r.Ok? ==> s.files == s0.files)
  }

  lemma OpenDirAnswer(s0: State, s: State, t: State, b: Bytes, start: nat, tokens: seq<string>, look: Look, g: nat,
                      r: Reply)
    requires Inv(s0) && Resolved(s0, s, b, start, tokens, look, g)
    requires match look
             case Dead => r == Killed && t == s
             case Missing(_, _) => r == Refused && t == s
             case Found(d) =>
               if InodeOf(s.dents, s.vinodes, d).kind != DIR then r == Refused && t == s
               else if InodeOf(s.dents, s.vinodes, d).inum !in s.nodes then r == Garbage && t == s
               else r.Ok? && r.id !in s.files && t == OpenFile(s, r.id, d)
    ensures OpenDirSpec(s0, t, b, start, tokens, r)
  {
    if look.Found? {
      Faces(s, b, s.dents[look.d].inode);
    }
    if r.Ok? {
      OpenTables(s, r.id, look.d);
      if Inv(s) {
        OpenFileKeeps(s, r.id, look.d);
      } else {
        StrayStays(s, t, g);
      }
      assert t.files - {r.id} == s.files;
    }
  }

  // ---------------------------------------------------------------- link

  /** rfs_link and the new dentry. */
  ghost predicate Adds(s: State, t: State, p: nat, name: string, v: nat, r: Reply)
    requires Cached(s.dents, s.vinodes, p) && v in s.vinodes
  {
    var i, q := s.vinodes[v], InodeOf(s.dents, s.vinodes, p);
    var up := s.(vinodes := s.vinodes[v := i.(nlinks := i.nlinks + 1)]);
    match r
    case Garbage => q.kind == DIR && q.inum !in s.nodes && t == up
    case Overrun => q.kind == DIR && q.inum in s.nodes && !HasRoom(s.entries, q.inum) && t == up
    case Ok(d) =>
      && (q.kind == DIR ==> q.inum in s.nodes && HasRoom(s.entries, q.inum)) && d !in s.dents
      && var nodes := if i.inum in s.nodes then s.nodes[i.inum := Node(i.kind, i.nlinks + 1)] else s.nodes;
      && var entries := if q.kind == DIR then s.entries[EKey(q.inum, name) := i.inum] else s.entries;
      && t == AddDentry(up.(nodes := nodes, entries := entries), d, p, name, v)
    case _ => false
  }

  lemma AddsTables(s: State, t: State, p: nat, name: string, v: nat, r: Reply)
    requires Cached(s.dents, s.vinodes, p) && v in s.vinodes && Adds(s, t, p, name, v, r)
    ensures TablesKept(s, t) && t.files == s.files
  {
  }

  lemma AddsNode(s: State, t: State, b: Bytes, p: nat, name: string, v: nat, r: Reply)
    requires Loose(s, b) && Cached(s.dents, s.vinodes, p) && v in s.vinodes && s.vinodes[v].kind == FILE
    requires Adds(s, t, p, name, v, r)
    ensures var dir, x, disk := InodeOf(s.dents, s.vinodes, p).inum, s.vinodes[v].inum, On(s, b);
      var made := LiveDir(s.nodes, dir) && HasRoom(s.entries, dir);
      && (r.Ok? || r.Overrun? || r.Garbage?)
      && (r.Garbage? <==> DeadDir(disk, dir)) && (r.Overrun? <==> LiveDir(s.nodes, dir) && !made)
      && (r.Ok? ==> t.nodes == Counted(s.nodes, x) && Stands(t, r.id, name, x)) && (!r.Ok? ==> t.nodes == s.nodes)
      && t.entries == if made then s.entries[EKey(dir, name) := x] else s.entries
  {
    Faces(s, b, s.dents[p].inode);
    Faces(s, b, v);
  }

  /** The invariant survives exactly if the link that was counted got its entry. */
  lemma AddsKeeps(s: State, t: State, p: nat, name: string, v: nat, r: Reply)
    requires Inv(s) && Vacant(s, p, name) && v in s.vinodes && s.vinodes[v].kind == FILE && Adds(s, t, p, name, v, r)
    ensures var dir := InodeOf(s.dents, s.vinodes, p).inum;
      Inv(t) <==> LiveDir(s.nodes, dir) && HasRoom(s.entries, dir)
  {
    var q, i := InodeOf(s.dents, s.vinodes, p), s.vinodes[v];
    VinodeOnDisk(s, s.dents[p].inode);
    VinodeOnDisk(s, v);
    if r.Ok? && q.kind == DIR {
      LinkNodeKeeps(s, v, EKey(q.inum, name));
      AddDentryKeeps(LinkNode(s, v, EKey(q.inum, name)), r.id, p, name, v);
    } else if r.Ok? {
      OvercountBreaks(s, i.inum, t);
    } else {
      DisagreementBreaks(t, v);
    }
  }

  /** The second half of vfs_link: the new name for vinode v. */
  ghost predicate LinksTo(s: State, t: State, b: Bytes, v: nat, tokens: seq<string>, r: Reply)
    requires v in s.vinodes
  {
    var n, x, disk := WalkFrom(s, b, ROOT, tokens), s.vinodes[v].inum, On(s, b);
    var fits := MissesLast(n, tokens);
    var made := fits && LiveDir(s.nodes, n.dir) && HasRoom(s.entries, n.dir);
    && TablesKept(s, t) && t.files == s.files
    && (Inv(s) ==> (Inv(t) <==> !AstrayFrom(s, b, ROOT, tokens) && (fits ==> made)))
    && (r.Garbage? <==> fits && DeadDir(disk, n.dir))
    && (r.Overrun? <==> fits && LiveDir(s.nodes, n.dir) && !made)
    && (r.Ok? <==> fits && !r.Overrun? && !r.Garbage?)
    && (!r.Garbage? ==> t.nodes == if r.Ok? then Counted(s.nodes, x) else s.nodes)
    && (!r.Garbage? ==> t.entries == if made then s.entries[EKey(n.dir, tokens[n.index]) := x] else s.entries)
    && (r.Ok? ==> Stands(t, r.id, tokens[|tokens| - 1], x))
    && (r.Killed? <==> n.Fatal?) && !r.Panic?
  }

  lemma GrownTables(s: State, t: State)
    requires Grown(s, t)
    ensures TablesKept(s, t)
  {
  }

  lemma LinksNothing(s: State, t: State, b: Bytes, v: nat, tokens: seq<string>, dest: Look, g: nat)
    requires v in s.vinodes && Resolved(s, t, b, ROOT, tokens, dest, g)
    requires dest.Missing? ==> tokens[dest.index] != tokens[|tokens| - 1]
    ensures LinksTo(s, t, b, v, tokens, if dest.Dead? then Killed else Refused)
  {
    GrownTables(s, t);
  }

  lemma LinksAdded(s: State, t: State, u: State, b: Bytes, v: nat, tokens: seq<string>, dest: Look, g: nat, r: Reply)
    requires v in s.vinodes && s.vinodes[v].kind == FILE && Resolved(s, t, b, ROOT, tokens, dest, g)
    requires dest.Missing? && tokens[dest.index] == tokens[|tokens| - 1]
    requires v in t.vinodes && Adds(t, u, dest.parent, tokens[dest.index], v, r)
    ensures LinksTo(s, u, b, v, tokens, r)
  {
    assert t.vinodes[v].inum == s.vinodes[v].inum && t.vinodes[v].kind == FILE;
    GrownTables(s, t);
    AddsTables(t, u, dest.parent, tokens[dest.index], v, r);
    TablesTrans(s, t, u);
    AddsNode(t, u, b, dest.parent, tokens[dest.index], v, r);
    if Inv(t) {
      AddsKeeps(t, u, dest.parent, tokens[dest.index], v, r);
    } else if Inv(s) {
      StrayStays(t, u, g);
    }
  }

  /**
   vfs_link: `old` from `start`, the new name always from the root.  rfs_link counts the link before it asks for the
   entry and does not look at the answer: under a file the call succeeds and leaves a link that no entry backs.
   */
  ghost predicate LinkSpec(s0: State, s: State, b: Bytes, start: nat, oldTokens: seq<string>, newTokens: seq<string>,
                           r: Reply) {
    var w, n, disk := WalkFrom(s0, b, start, oldTokens), WalkFrom(s0, b, ROOT, newTokens), On(s0, b);
    var file := Leads(disk, w, FILE);
    var fits := file && MissesLast(n, newTokens);
    var made := fits && LiveDir(s0.nodes, n.dir) && HasRoom(s0.entries, n.dir);
    && (Inv(s) <==> && !AstrayFrom(s0, b, start, oldTokens) && !(file && AstrayFrom(s0, b, ROOT, newTokens))
                    && (fits ==> made))
    && (r.Garbage? <==> fits && DeadDir(disk, n.dir)) && s.files == s0.files
    && (r.Overrun? <==> fits && LiveDir(s0.nodes, n.dir) && !made)
    && (r.Ok? <==> fits && !r.Overrun? && !r.Garbage?)
    && (!r.Garbage? ==> s.nodes == if r.Ok? then Counted(s0.nodes, w.inum) else s0.nodes)
    && (!r.Garbage? ==>
          s.entries == if made then s0.entries[EKey(n.dir, newTokens[n.index]) := w.inum] else s0.entries)
    && (r.Ok? ==> Stands(s, r.id, newTokens[|newTokens| - 1], w.inum))
    && (r.Killed? <==> w.Fatal? || (file && n.Fatal?)) && !r.Panic?
  }

  lemma SameWalk(s: State, t: State, b: Bytes, d: nat, tokens: seq<string>)
    requires Inv(s) && Grown(s, t) && d in s.dents
    ensures WalkFrom(t, b, d, tokens) == WalkFrom(s, b, d, tokens)
    ensures AstrayFrom(t, b, d, tokens) == AstrayFrom(s, b, d, tokens)
  {
    PresentOk(s, d);
    assert t.dents[d] == s.dents[d] && t.vinodes[s.dents[d].inode].inum == s.vinodes[s.dents[d].inode].inum;
  }

  lemma LinkNothing(s0: State, s: State, b: Bytes, start: nat, oldTokens: seq<string>, newTokens: seq<string>,
                    look: Look, g: nat)
    requires Inv(s0) && Resolved(s0, s, b, start, oldTokens, look, g)
    requires look.Found? ==> InodeOf(s.dents, s.vinodes, look.d).kind != FILE
    ensures LinkSpec(s0, s, b, start, oldTokens, newTokens, if look.Dead? then Killed else Refused)
  {
    if look.Found? {
      Faces(s, b, s.dents[look.d].inode);
    }
  }

  lemma LinkAnswer(s0: State, s: State, t: State, b: Bytes, start: nat, oldTokens: seq<string>, newTokens: seq<string>,
                   look: Look, g: nat, r: Reply)
    requires Inv(s0) && Resolved(s0, s, b, start, oldTokens, look, g)
    requires look.Found? && InodeOf(s.dents, s.vinodes, look.d).kind == FILE
    requires LinksTo(s, t, b, s.dents[look.d].inode, newTokens, r)
    ensures LinkSpec(s0, t, b, start, oldTokens, newTokens, r)
  {
    Faces(s, b, s.dents[look.d].inode);
    SameWalk(s0, s, b, ROOT, newTokens);
    if !Inv(s) {
      StrayStays(s, t, g);
    }
  }

  // ---------------------------------------------------------------- unlink

  lemma PresentOk(s: State, p: nat)
    requires Inv(s) && p in s.dents
    ensures Cached(s.dents, s.vinodes, p)
  {
    assert DentryOk(s.entries, s.dents, s.dhash, s.vinodes, p);
  }

  lemma KindOnDisk(s: State, d: nat)
    requires Inv(s) && Cached(s.dents, s.vinodes, d)
    ensures var i := InodeOf(s.dents, s.vinodes, d); i.inum in s.nodes && s.nodes[i.inum] == Node(i.kind, i.nlinks)
  {
    assert VinodeOk(s.nodes, s.vinodes, s.vhash, s.dents[d].inode);
  }

  lemma BusyIff(s: State, t: State, d: nat)
    requires Inv(s) && Inv(t) && Grown(s, t) && d != ROOT && Cached(t.dents, t.vinodes, d) &&
      Cached(t.dents, t.vinodes, t.dents[d].parent)
    ensures t.dents[d].dref > 0 <==> Busy(s, Backing(t, d))
  {
    assert t.dents[d].dref == |Opens(t.files, d)|;
    if f :| f in Opens(t.files, d) {
      HeldBefore(s, t, d);
      assert HoldsEntry(s, s.files[f], Backing(t, d));
    } else {
      assert Opens(t.files, d) == {};
      forall f | f in s.files
        ensures !HoldsEntry(s, s.files[f], Backing(t, d))
      {
        assert f !in Opens(t.files, d);
        if s.files[f] != ROOT {
          HeldBefore(s, t, s.files[f]);
          BackingDistinct(t, s.files[f], d);
        }
      }
    }
  }

  lemma HeldBefore(s: State, t: State, d: nat)
    requires Inv(s) && Grown(s, t) && d != ROOT && d in s.dents
    ensures Cached(s.dents, s.vinodes, d) && Cached(s.dents, s.vinodes, s.dents[d].parent)
    ensures Cached(t.dents, t.vinodes, d) && Cached(t.dents, t.vinodes, t.dents[d].parent) &&
      Backing(t, d) == Backing(s, d)
  {
    assert DentryOk(s.entries, s.dents, s.dhash, s.vinodes, d);
    var p := s.dents[d].parent;
    assert t.dents[d] == s.dents[d] && t.dents[p] == s.dents[p];
    assert t.vinodes[s.dents[d].inode].inum == s.vinodes[s.dents[d].inode].inum &&
      t.vinodes[s.dents[p].inode].inum == s.vinodes[s.dents[p].inode].inum;
  }

  lemma VinodeOnDisk(s: State, v: nat)
    requires Inv(s) && v in s.vinodes
    ensures s.vinodes[v].inum in s.nodes && s.nodes[s.vinodes[v].inum] == Node(s.vinodes[v].kind, s.vinodes[v].nlinks)
  {
    assert VinodeOk(s.nodes, s.vinodes, s.vhash, v);
  }

  /**
   vfs_unlink.  On a path that is not led astray both assertions of the source hold.  On one that is, an inode loses
   a link without losing an entry, and the second assertion fails exactly when that was its last link and its vinode
   is still in use: some dentry stood for it before, or the path itself had passed it.  The invariant is back at the
   end exactly if only the last name was misread, for an inode that is not in use and reads as a file with one link.
   */
  ghost predicate UnlinkSpec(s0: State, s: State, b: Bytes, start: nat, tokens: seq<string>, r: Reply) {
    var w, disk, astray := WalkFrom(s0, b, start, tokens), On(s0, b), AstrayFrom(s0, b, start, tokens);
    && s.files == s0.files && (r.Killed? <==> w.Fatal?) && !r.Overrun? && !r.Garbage?
    && if !Leads(disk, w, FILE) then
         !r.Ok? && !r.Panic? && s.nodes == s0.nodes && s.entries == s0.entries && (Inv(s) <==> !astray)
       else
         && tokens != [] && var n, y := |tokens| - 1, w.inum;
         && var p := WalkFrom(s0, b, start, tokens[..n]);
         && p.At? && var k := EKey(p.inum, tokens[n]);
         && var goes := astray || !Busy(s0, k);
         && s.nodes == (if goes && y in s0.nodes then NodesAfter(s0.nodes, y) else s0.nodes)
         && s.entries == (if goes then s0.entries - {k} else s0.entries)
         && (r.Panic? <==> && astray && NodeAt(disk, y).nlinks == 1
                           && (Seen(s0, y) || y in Trail(disk, InumOf(s0, start), tokens, 0)))
         && (r.Ok? <==> goes && !r.Panic?)
         && (Inv(s) <==> || !astray
                         || (!AstrayFrom(s0, b, start, tokens[..n]) && y !in s0.nodes && NodeAt(disk, y).nlinks == 1))
  }

  /** A file found by a lookup that starts in a directory: its place, and whether it is open. */
  ghost predicate Placed(s0: State, s: State, b: Bytes, start: nat, tokens: seq<string>, d: nat) {
    && tokens != [] && d != ROOT && Loose(s, b) && Cached(s.dents, s.vinodes, d)
    && Cached(s.dents, s.vinodes, s.dents[d].parent) && InodeOf(s.dents, s.vinodes, d).ref > 0
    && WalkFrom(s0, b, start, tokens[..|tokens| - 1]).At?
    && Backing(s, d) == EKey(WalkFrom(s0, b, start, tokens[..|tokens| - 1]).inum, tokens[|tokens| - 1])
    && if Inv(s) then s.dents[d].dref > 0 <==> Busy(s0, Backing(s, d)) else s.dents[d].dref == 0
  }

  lemma LastStep(s0: State, s: State, b: Bytes, start: nat, tokens: seq<string>, d: nat, t: Track)
    requires Inv(s0) && Cached(s0.dents, s0.vinodes, start) && Came(s0, s, b, InumOf(s0, start), tokens, d, t)
    requires Inv(s) <==> !AstrayFrom(s0, b, start, tokens)
    ensures Placed(s0, s, b, start, tokens, d)
  {
    var n := |tokens| - 1;
    RoundLoose(t.before, s, b, t.parent, tokens[n], d, t.vinode);
    RoundFinds(t.before, s, b, t.parent, tokens[n], d, t.vinode);
    RefAbove(s.dents, s.vinodes, d);
    if Inv(s) {
      GrownTrans(s0, t.before, s);
      BusyIff(s0, s, d);
    } else {
      FoundNew(s0, s, b, InumOf(s0, start), tokens, d, t);
    }
  }

  lemma UnlinkNothing(s0: State, s: State, b: Bytes, start: nat, tokens: seq<string>, look: Look, g: nat)
    requires Inv(s0) && Resolved(s0, s, b, start, tokens, look, g)
    requires look.Found? ==> InodeOf(s.dents, s.vinodes, look.d).kind != FILE
    ensures UnlinkSpec(s0, s, b, start, tokens, if look.Dead? then Killed else Refused)
  {
    if look.Found? {
      Faces(s, b, s.dents[look.d].inode);
    }
  }

  lemma UnlinkBusy(s0: State, s: State, b: Bytes, start: nat, tokens: seq<string>, d: nat, g: nat)
    requires Inv(s0) && Resolved(s0, s, b, start, tokens, Found(d), g) && Placed(s0, s, b, start, tokens, d)
    requires InodeOf(s.dents, s.vinodes, d).kind == FILE && s.dents[d].dref > 0
    ensures UnlinkSpec(s0, s, b, start, tokens, Refused)
  {
    Faces(s, b, s.dents[d].inode);
  }

  function UnlinkReply(i: Vinode, d: nat): Reply {
    if i.nlinks == 1 && i.ref > 1 then Panic else Ok(d)
  }

  lemma UnlinkStraight(s0: State, s: State, u: State, b: Bytes, start: nat, tokens: seq<string>, d: nat, g: nat)
    requires Inv(s0) && Inv(s) && Resolved(s0, s, b, start, tokens, Found(d), g) && Placed(s0, s, b, start, tokens, d)
    requires InodeOf(s.dents, s.vinodes, d).kind == FILE && s.dents[d].dref == 0 && Left(s, d, u)
    ensures UnlinkSpec(s0, u, b, start, tokens, UnlinkReply(InodeOf(s.dents, s.vinodes, d), d))
  {
    Faces(s, b, s.dents[d].inode);
    UnlinkReady(s, d);
    UnlinkKeeps(s, d);
  }

  lemma UnlinkAstray(s0: State, s: State, u: State, b: Bytes, start: nat, tokens: seq<string>, d: nat, t: Track)
    requires Inv(s0) && !Inv(s) && Resolved(s0, s, b, start, tokens, Found(d), t.stray)
    requires Placed(s0, s, b, start, tokens, d) && Came(s0, s, b, InumOf(s0, start), tokens, d, t)
    requires Cached(s0.dents, s0.vinodes, start) && InodeOf(s.dents, s.vinodes, d).kind == FILE && Left(s, d, u)
    ensures UnlinkSpec(s0, u, b, start, tokens, UnlinkReply(InodeOf(s.dents, s.vinodes, d), d))
  {
    KindOnDisk(s0, start);
    LastRef(s0, s, b, InumOf(s0, start), tokens, d, t);
    AfterAstray(s0, s, b, InumOf(s0, start), tokens, d, t, u);
    UnlinkLeft(s0, s, u, b, start, tokens, d, t.stray);
  }

  lemma UnlinkLeft(s0: State, s: State, u: State, b: Bytes, start: nat, tokens: seq<string>, d: nat, g: nat)
    requires Inv(s0) && !Inv(s) && Resolved(s0, s, b, start, tokens, Found(d), g) && Placed(s0, s, b, start, tokens, d)
    requires InodeOf(s.dents, s.vinodes, d).kind == FILE && Left(s, d, u)
    requires var i := InodeOf(s.dents, s.vinodes, d);
      && (i.ref > 1 <==> Seen(s0, i.inum) || i.inum in Trail(On(s0, b), InumOf(s0, start), tokens, 0))
      && (Inv(u) <==> !AstrayFrom(s0, b, start, tokens[..|tokens| - 1]) && i.inum !in s0.nodes && i.nlinks == 1)
    ensures UnlinkSpec(s0, u, b, start, tokens, UnlinkReply(InodeOf(s.dents, s.vinodes, d), d))
  {
    Faces(s, b, s.dents[d].inode);
  }
}
