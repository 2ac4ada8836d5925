/**
 Paths over the disk alone, without any cache.  rfs_lookup does not ask whether it is in a directory, so a path may
 be led through the bytes of something that is none; what those bytes spell is given.
 */
module VfsWalk {
  import opened VfsState
  import opened VfsSteps

  /**
   What the volume holds outside its live directories and inodes.  `names`: the 32-byte records that the contents of
   anything but a live directory spell, and the inode numbers in them.  `dead`: what an inode number that is on the
   disk but not in use reads as.
   */
  datatype Bytes = Bytes(names: map<EKey, nat>, dead: map<nat, Node>)

  datatype Disk = Disk(nodes: map<nat, Node>, entries: map<EKey, nat>, bytes: Bytes)

  function On(s: State, b: Bytes): Disk {
    Disk(s.nodes, s.entries, b)
  }

  predicate Known(disk: Disk, x: nat) {
    x in disk.nodes || x in disk.bytes.dead
  }

  /** What reading inode x gives. */
  function NodeAt(disk: Disk, x: nat): Node
    requires Known(disk, x)
  {
    if x in disk.nodes then disk.nodes[x] else disk.bytes.dead[x]
  }

  predicate Reads(disk: Disk, x: nat, kind: Kind) {
    Known(disk, x) && NodeAt(disk, x).kind == kind
  }

  /** An inode that is not in use and reads as a directory. */
  predicate DeadDir(disk: Disk, x: nat) {
    x !in disk.nodes && Reads(disk, x, DIR)
  }

  /** What a search for a name gives: an inode, nothing, or a number that is not on the disk. */
  datatype Next = Goes(inum: nat) | Lost | Unreadable

  function Child(disk: Disk, x: nat, name: string): Next {
    var k := EKey(x, name);
    if LiveDir(disk.nodes, x) then
      if k in disk.entries then Goes(disk.entries[k]) else Lost
    else if k !in disk.bytes.names then Lost
    else if Known(disk, disk.bytes.names[k]) then Goes(disk.bytes.names[k])
    else Unreadable
  }

  /** Where a walk ends: at an inode, at a name missing under an inode, or where reading an inode kills the process. */
  datatype Walked = At(inum: nat) | Stops(dir: nat, index: nat) | Fatal

  /** Following names from inode x on. */
  function Walk(disk: Disk, x: nat, tokens: seq<string>, i: nat): Walked
    requires i <= |tokens|
    decreases |tokens| - i
  {
    if i == |tokens| then At(x) else
      match Child(disk, x, tokens[i])
      case Goes(y) => Walk(disk, y, tokens, i + 1)
      case Lost => Stops(x, i)
      case Unreadable => Fatal
  }

  /** The walk finds some name in the bytes of something that is no live directory. */
  predicate Astray(disk: Disk, x: nat, tokens: seq<string>, i: nat)
    requires i <= |tokens|
    decreases |tokens| - i
  {
    i < |tokens| && var c := Child(disk, x, tokens[i]);
      c.Goes? && (!LiveDir(disk.nodes, x) || Astray(disk, c.inum, tokens, i + 1))
  }

  /** The inodes a walk passes before its last. */
  function Trail(disk: Disk, x: nat, tokens: seq<string>, i: nat): set<nat>
    requires i <= |tokens|
    decreases |tokens| - i
  {
    if i == |tokens| then {} else
      {x} + match Child(disk, x, tokens[i])
            case Goes(y) => Trail(disk, y, tokens, i + 1)
            case _ => {}
  }

  // ---------------------------------------------------------------- one name more

  function Onward(disk: Disk, w: Walked, name: string, n: nat): Walked {
    if !w.At? then w else
      match Child(disk, w.inum, name)
      case Goes(y) => At(y)
      case Lost => Stops(w.inum, n)
      case Unreadable => Fatal
  }

  lemma {:induction false} WalkStep(disk: Disk, x: nat, tokens: seq<string>, i: nat, n: nat)
    requires i <= n < |tokens|
    ensures var w := Walk(disk, x, tokens[..n], i);
      && Walk(disk, x, tokens[..n + 1], i) == Onward(disk, w, tokens[n], n)
      && Astray(disk, x, tokens[..n + 1], i) ==
         (Astray(disk, x, tokens[..n], i) ||
          (w.At? && !LiveDir(disk.nodes, w.inum) && Child(disk, w.inum, tokens[n]).Goes?))
      && Trail(disk, x, tokens[..n + 1], i) ==
         Trail(disk, x, tokens[..n], i) + if w.At? then {w.inum} else {}
    decreases n - i
  {
    if i < n && Child(disk, x, tokens[i]).Goes? {
      WalkStep(disk, Child(disk, x, tokens[i]).inum, tokens, i + 1, n);
    }
  }

  lemma {:induction false} WalkStuck(disk: Disk, x: nat, tokens: seq<string>, i: nat, n: nat)
    requires i <= n <= |tokens| && !Walk(disk, x, tokens[..n], i).At?
    ensures Walk(disk, x, tokens, i) == Walk(disk, x, tokens[..n], i)
    ensures Astray(disk, x, tokens, i) == Astray(disk, x, tokens[..n], i)
    decreases n - i
  {
    if i < n && Child(disk, x, tokens[i]).Goes? {
      WalkStuck(disk, Child(disk, x, tokens[i]).inum, tokens, i + 1, n);
    }
  }

  /** A walk that is not led astray ends at, or stops under, a live inode, and passes live ones only. */
  lemma {:induction false} StaysAmongTheLiving(disk: Disk, x: nat, tokens: seq<string>, i: nat)
    requires TreeOk(disk.nodes, disk.entries) && i <= |tokens| && x in disk.nodes && !Astray(disk, x, tokens, i)
    ensures var w := Walk(disk, x, tokens, i);
      (w.At? ==> w.inum in disk.nodes) && (w.Stops? ==> w.dir in disk.nodes)
    ensures forall y :: y in Trail(disk, x, tokens, i) ==> y in disk.nodes
    decreases |tokens| - i
  {
    if i < |tokens| && Child(disk, x, tokens[i]).Goes? {
      assert EntryOk(disk.nodes, disk.entries, EKey(x, tokens[i]));
      StaysAmongTheLiving(disk, Child(disk, x, tokens[i]).inum, tokens, i + 1);
    }
  }

  // ---------------------------------------------------------------- paths before and after

  /** A walk that ends at a missing name equal to the path's last one: what O_CREAT, mkdir and link go by. */
  predicate MissesLast(w: Walked, tokens: seq<string>) {
    w.Stops? && w.index < |tokens| && tokens[w.index] == tokens[|tokens| - 1]
  }

  /**
   open(O_CREAT) and mkdir compare the missing name with the last one instead of their positions.  In a directory the
   path leads to the new inode exactly when the last name was the missing one; a path that misses the same name
   earlier stops in the new inode.
   */
  lemma {:induction false} CreatedPath(disk: Disk, x: nat, tokens: seq<string>, i: nat, kind: Kind, y: nat)
    requires TreeOk(disk.nodes, disk.entries) && i <= |tokens| && y !in disk.nodes
    requires (forall k :: k in disk.bytes.names ==> k.dir != y) && !Astray(disk, x, tokens, i)
    requires var w := Walk(disk, x, tokens, i); w.Stops? && LiveDir(disk.nodes, w.dir)
    ensures var w := Walk(disk, x, tokens, i);
      i <= w.index < |tokens| && EKey(w.dir, tokens[w.index]) !in disk.entries &&
      Walk(Created(disk, EKey(w.dir, tokens[w.index]), kind, y), x, tokens, i) ==
      if w.index == |tokens| - 1 then At(y) else Stops(y, w.index + 1)
    decreases |tokens| - i
  {
    if Child(disk, x, tokens[i]).Goes? {
      CreatedPath(disk, Child(disk, x, tokens[i]).inum, tokens, i + 1, kind, y);
    } else {
      forall k | k in disk.entries
        ensures k.dir != y
      {
        assert EntryOk(disk.nodes, disk.entries, k);
      }
    }
  }

  /** The disk with a new inode and its entry. */
  function Created(disk: Disk, k: EKey, kind: Kind, y: nat): Disk {
    disk.(nodes := disk.nodes[y := Node(kind, 1)], entries := disk.entries[k := y])
  }

  /** Creating "/x/x" with no "x" there makes the file "/x", and "/x/x" does not lead to it. */
  lemma SameNameTwice(y: nat)
    requires y != ROOT_INUM
    ensures var disk, tokens := Disk(map[ROOT_INUM := Node(DIR, 1)], map[], Bytes(map[], map[])), ["x", "x"];
      && TreeOk(disk.nodes, disk.entries) && MissesLast(Walk(disk, ROOT_INUM, tokens, 0), tokens)
      && Walk(Created(disk, EKey(ROOT_INUM, "x"), FILE, y), ROOT_INUM, tokens, 0) == Stops(y, 1)
  {
    CreatedPath(Disk(map[ROOT_INUM := Node(DIR, 1)], map[], Bytes(map[], map[])), ROOT_INUM, ["x", "x"], 0, FILE, y);
  }

  /** No path that led somewhere changes when an entry and its inode are added. */
  lemma {:induction false} CreateKeepsPaths(disk: Disk, x: nat, tokens: seq<string>, i: nat, k: EKey, y: nat, n: Node)
    requires i <= |tokens| && k !in disk.entries && Walk(disk, x, tokens, i).At? && !Astray(disk, x, tokens, i)
    requires y in disk.nodes ==> n.kind == disk.nodes[y].kind
    ensures Walk(disk.(nodes := disk.nodes[y := n], entries := disk.entries[k := y]), x, tokens, i) ==
      Walk(disk, x, tokens, i)
    decreases |tokens| - i
  {
    if i < |tokens| {
      CreateKeepsPaths(disk, Child(disk, x, tokens[i]).inum, tokens, i + 1, k, y, n);
    }
  }

  /** Unlinking an entry of a file takes away the paths over that entry, which end there, and no other. */
  lemma {:induction false} UnlinkKeepsPaths(disk: Disk, x: nat, tokens: seq<string>, i: nat, k: EKey)
    requires TreeOk(disk.nodes, disk.entries) && i <= |tokens| && k in disk.entries
    requires disk.entries[k] in disk.nodes && disk.nodes[disk.entries[k]].kind == FILE
    requires Walk(disk, x, tokens, i).At? && !Astray(disk, x, tokens, i)
    ensures var y := Walk(disk, x, tokens, i).inum;
      var after := disk.(nodes := NodesAfter(disk.nodes, disk.entries[k]), entries := disk.entries - {k});
      var w := Walk(after, x, tokens, i);
      && (y != disk.entries[k] ==> w == At(y)) && (w.At? ==> w == At(y))
      && (i < |tokens| && y == disk.entries[k] ==> (w == At(y) <==> OverLast(disk, x, tokens, i) != k))
    decreases |tokens| - i
  {
    if i < |tokens| {
      var y := Child(disk, x, tokens[i]).inum;
      UnlinkKeepsPaths(disk, y, tokens, i + 1, k);
      assert LiveDir(NodesAfter(disk.nodes, disk.entries[k]), x);
    }
  }

  /** The entry a walk that arrives takes last. */
  function OverLast(disk: Disk, x: nat, tokens: seq<string>, i: nat): EKey
    requires i < |tokens| && Walk(disk, x, tokens, i).At?
    decreases |tokens| - i
  {
    if i == |tokens| - 1 then EKey(x, tokens[i])
    else OverLast(disk, Child(disk, x, tokens[i]).inum, tokens, i + 1)
  }
}
