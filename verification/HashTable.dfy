/**
 The chained hash table of util/hash_table.c.  Keys are compared by a caller-supplied equality; here
 two keys are equal when they have the same identity (`ident`), which is what dentry_hash_equal
 (parent and name) and vinode_hash_equal (superblock and inode number) decide.  The hash function sees
 only the identity, so equal keys hash alike.  A stored value is never the null pointer.
 */
module HashTable {
  import opened Sequences

  const HASH_TABLE_SIZE := 128

  datatype Option<T> = None | Some(value: T)

  /** hash_node; a null next pointer is 0. */
  datatype Node<K, V> = Node(next: nat, key: K, value: V)

  /** Following next from `head` visits q and ends. */
  ghost predicate Chain<K, V>(nodes: map<nat, Node<K, V>>, head: nat, q: seq<nat>)
    decreases |q|
  {
    if q == [] then head == 0
    else head == q[0] && q[0] != 0 && q[0] in nodes && Chain(nodes, nodes[q[0]].next, q[1..])
  }

  lemma {:induction false} ChainAt<K, V>(nodes: map<nat, Node<K, V>>, head: nat, q: seq<nat>, i: nat)
    requires Chain(nodes, head, q) && i < |q|
    ensures q[i] != 0 && q[i] in nodes && Chain(nodes, nodes[q[i]].next, q[i + 1..])
    ensures nodes[q[i]].next == if i + 1 < |q| then q[i + 1] else 0
    ensures head == q[0]
    decreases |q|
  {
    if i > 0 {
      ChainAt(nodes, nodes[q[0]].next, q[1..], i - 1);
      assert q[1..][i..] == q[i + 1..];
    } else {
      assert i + 1 < |q| ==> Chain(nodes, nodes[q[0]].next, q[1..]);
    }
  }

  /** A chain none of whose nodes changes stays as it is. */
  lemma {:induction false} ChainFrame<K, V>(a: map<nat, Node<K, V>>, b: map<nat, Node<K, V>>, head: nat, q: seq<nat>)
    requires Chain(a, head, q) && forall n :: n in q && n in a ==> n in b && b[n] == a[n]
    ensures Chain(b, head, q)
    decreases |q|
  {
    if q != [] {
      ChainFrame(a, b, a[q[0]].next, q[1..]);
    }
  }

  /** Redirecting the link before node i skips exactly node i. */
  lemma {:induction false} ChainSkip<K, V>(nodes: map<nat, Node<K, V>>, head: nat, q: seq<nat>, i: nat)
    requires Chain(nodes, head, q) && 0 < i < |q| && Distinct(q)
    ensures q[i - 1] in nodes && q[i] in nodes
    ensures Chain(nodes[q[i - 1] := nodes[q[i - 1]].(next := nodes[q[i]].next)], head, Without(q, i))
    decreases |q|
  {
    ChainAt(nodes, head, q, i - 1);
    ChainAt(nodes, head, q, i);
    var b := nodes[q[i - 1] := nodes[q[i - 1]].(next := nodes[q[i]].next)];
    if i == 1 {
      assert Without(q, 1) == [q[0]] + q[2..];
      ChainFrame(nodes, b, nodes[q[1]].next, q[2..]);
    } else {
      ChainSkip(nodes, nodes[q[0]].next, q[1..], i - 1);
      assert Without(q, i)[1..] == Without(q[1..], i - 1);
    }
  }

  /**
   The nodes hold exactly the pairs of `contents`, each identity once: `at` tells which node.
   */
  ghost predicate Holds<K, I, V>(ident: K -> I, nodes: map<nat, Node<K, V>>, at: map<I, nat>, contents: map<I, V>) {
    && (forall n :: n in nodes ==> ident(nodes[n].key) in at && at[ident(nodes[n].key)] == n)
    && (forall i ::
          i in at ==>
          at[i] in nodes && ident(nodes[at[i]].key) == i && i in contents && contents[i] == nodes[at[i]].value)
    && contents.Keys == at.Keys
  }

  /** The map without key i. */
  ghost function Minus<I, V>(m: map<I, V>, i: I): (r: map<I, V>)
    ensures r.Keys == m.Keys - {i}
    ensures forall j :: j in r ==> j in m && r[j] == m[j]
    ensures i !in m ==> r == m
  {
    map j | j in m && j != i :: m[j]
  }

  lemma HoldsPush<K, I, V>(ident: K -> I, nodes: map<nat, Node<K, V>>, at: map<I, nat>, contents: map<I, V>, n: nat,
                           node: Node<K, V>)
    requires Holds(ident, nodes, at, contents) && n !in nodes && ident(node.key) !in contents
    ensures Holds(ident, nodes[n := node], at[ident(node.key) := n], contents[ident(node.key) := node.value])
  {
  }

  lemma HoldsUnlink<K, I, V>(ident: K -> I, a: map<nat, Node<K, V>>, b: map<nat, Node<K, V>>, at: map<I, nat>,
                             contents: map<I, V>, n: nat)
    requires Holds(ident, a, at, contents) && n in a && b.Keys == a.Keys - {n}
    requires forall m :: m in b ==> b[m].key == a[m].key && b[m].value == a[m].value
    ensures Holds(ident, b, Minus(at, ident(a[n].key)), Minus(contents, ident(a[n].key)))
  {
  }

  lemma ChainPush<K, V>(nodes: map<nat, Node<K, V>>, head: nat, q: seq<nat>, n: nat, node: Node<K, V>)
    requires Chain(nodes, head, q) && n != 0 && n !in q && node.next == head
    ensures Chain(nodes[n := node], n, [n] + q)
  {
    ChainFrame(nodes, nodes[n := node], head, q);
    assert ([n] + q)[1..] == q;
  }

  lemma NoNullInside<K, V>(nodes: map<nat, Node<K, V>>, head: nat, q: seq<nat>, k: nat)
    requires Chain(nodes, head, q) && k < |q| && (if k == 0 then 0 else q[k - 1]) == 0
    ensures k == 0
  {
    if k > 0 {
      ChainAt(nodes, head, q, k - 1);
    }
  }

  /** One bucket: head[i].next and the pages of the nodes behind it. */
  datatype Bucket<K, V> = Bucket(head: nat, nodes: map<nat, Node<K, V>>)

  /** Bookkeeping of one bucket: its chain, which node holds which identity, and the pairs it holds. */
  datatype Ghostly<I, V> = Ghostly(q: seq<nat>, at: map<I, nat>, part: map<I, V>)

  ghost predicate BucketOk<K, I, V>(ident: K -> I, b: Bucket<K, V>, g: Ghostly<I, V>) {
    && Chain(b.nodes, b.head, g.q) && Distinct(g.q) && b.nodes.Keys == (set n | n in g.q)
    && Holds(ident, b.nodes, g.at, g.part)
  }

  /** node->next = head->next; head->next = node */
  function Pushed<K, V>(b: Bucket<K, V>, n: nat, key: K, value: V): Bucket<K, V> {
    Bucket(n, b.nodes[n := Node(b.head, key, value)])
  }

  /** head->next = node->next; free_page(node), where `prev` is 0 for the bucket's own head. */
  function Spliced<K, V>(b: Bucket<K, V>, prev: nat, n: nat): Bucket<K, V>
    requires n in b.nodes && (prev != 0 ==> prev in b.nodes)
  {
    if prev == 0 then Bucket(b.nodes[n].next, b.nodes - {n})
    else Bucket(b.head, b.nodes[prev := b.nodes[prev].(next := b.nodes[n].next)] - {n})
  }

  lemma BucketPush<K, I, V>(ident: K -> I, b: Bucket<K, V>, g: Ghostly<I, V>, n: nat, key: K, value: V)
    requires BucketOk(ident, b, g) && n != 0 && n !in b.nodes && ident(key) !in g.part
    ensures BucketOk(ident, Pushed(b, n, key, value),
                     Ghostly([n] + g.q, g.at[ident(key) := n], g.part[ident(key) := value]))
  {
    ChainPush(b.nodes, b.head, g.q, n, Node(b.head, key, value));
    HoldsPush(ident, b.nodes, g.at, g.part, n, Node(b.head, key, value));
  }

  lemma ChainSplice<K, V>(b: Bucket<K, V>, q: seq<nat>, prev: nat, n: nat, k: nat)
    requires Chain(b.nodes, b.head, q) && Distinct(q) && k < |q| && q[k] == n && prev == if k == 0 then 0 else q[k - 1]
    ensures n in b.nodes && (prev != 0 ==> prev in b.nodes)
    ensures Chain(Spliced(b, prev, n).nodes, Spliced(b, prev, n).head, Without(q, k))
  {
    ChainAt(b.nodes, b.head, q, k);
    WithoutMembers(q, k);
    if prev == 0 {
      NoNullInside(b.nodes, b.head, q, k);
      assert Without(q, 0) == q[1..];
      ChainFrame(b.nodes, b.nodes - {n}, b.nodes[n].next, q[1..]);
    } else {
      ChainSkip(b.nodes, b.head, q, k);
      var nodes := b.nodes[prev := b.nodes[prev].(next := b.nodes[n].next)];
      ChainFrame(nodes, nodes - {n}, b.head, Without(q, k));
    }
  }

  lemma BucketSplice<K, I, V>(ident: K -> I, b: Bucket<K, V>, g: Ghostly<I, V>, prev: nat, n: nat, k: nat)
    requires BucketOk(ident, b, g) && k < |g.q| && g.q[k] == n && prev == if k == 0 then 0 else g.q[k - 1]
    ensures n in b.nodes && (prev != 0 ==> prev in b.nodes)
    ensures var i := ident(b.nodes[n].key);
      BucketOk(ident, Spliced(b, prev, n), Ghostly(Without(g.q, k), Minus(g.at, i), Minus(g.part, i)))
  {
    ChainSplice(b, g.q, prev, n, k);
    WithoutMembers(g.q, k);
    HoldsUnlink(ident, b.nodes, Spliced(b, prev, n).nodes, g.at, g.part, n);
  }

  /** The bucket an identity hashes to. */
  function Slot<I>(hash: I -> nat, i: I): (b: nat)
    ensures b < HASH_TABLE_SIZE
  {
    hash(i) % HASH_TABLE_SIZE
  }

  ghost predicate AllOk<K, I, V>(ident: K -> I, buckets: seq<Bucket<K, V>>, gs: seq<Ghostly<I, V>>, nextPage: nat) {
    && |buckets| == |gs| == HASH_TABLE_SIZE && nextPage > 0
    && forall b :: 0 <= b < HASH_TABLE_SIZE ==> BucketOk(ident, buckets[b], gs[b]) && Below(buckets[b], nextPage)
  }

  ghost predicate Below<K, V>(b: Bucket<K, V>, nextPage: nat) {
    forall n :: n in b.nodes ==> n < nextPage
  }

  /** Each identity is in the bucket its hash selects and in no other. */
  ghost predicate Joined<I, V>(hash: I -> nat, gs: seq<Ghostly<I, V>>, contents: map<I, V>) {
    && |gs| == HASH_TABLE_SIZE
    && (forall i :: i in contents ==> i in gs[Slot(hash, i)].part && gs[Slot(hash, i)].part[i] == contents[i])
    && (forall b, i :: 0 <= b < HASH_TABLE_SIZE && i in gs[b].part ==> Slot(hash, i) == b && i in contents)
  }

  lemma AllOkUpdate<K, I, V>(ident: K -> I, buckets: seq<Bucket<K, V>>, gs: seq<Ghostly<I, V>>, nextPage: nat, b: nat,
                             x: Bucket<K, V>, g: Ghostly<I, V>)
    requires AllOk(ident, buckets, gs, nextPage) && b < HASH_TABLE_SIZE && BucketOk(ident, x, g) && Below(x, nextPage)
    ensures AllOk(ident, buckets[b := x], gs[b := g], nextPage)
  {
    var buckets', gs' := buckets[b := x], gs[b := g];
    forall c | 0 <= c < HASH_TABLE_SIZE
      ensures BucketOk(ident, buckets'[c], gs'[c]) && Below(buckets'[c], nextPage)
    {
      assert BucketOk(ident, buckets[c], gs[c]) && Below(buckets[c], nextPage);
    }
  }

  lemma MorePages<K, I, V>(ident: K -> I, buckets: seq<Bucket<K, V>>, gs: seq<Ghostly<I, V>>, nextPage: nat)
    requires AllOk(ident, buckets, gs, nextPage)
    ensures AllOk(ident, buckets, gs, nextPage + 1)
  {
    forall c | 0 <= c < HASH_TABLE_SIZE
      ensures BucketOk(ident, buckets[c], gs[c]) && Below(buckets[c], nextPage + 1)
    {
      assert Below(buckets[c], nextPage);
    }
  }

  lemma JoinedPut<I, V>(hash: I -> nat, gs: seq<Ghostly<I, V>>, contents: map<I, V>, g: Ghostly<I, V>, i: I, value: V)
    requires Joined(hash, gs, contents) && g.part == gs[Slot(hash, i)].part[i := value]
    ensures Joined(hash, gs[Slot(hash, i) := g], contents[i := value])
  {
  }

  lemma JoinedErase<I, V>(hash: I -> nat, gs: seq<Ghostly<I, V>>, contents: map<I, V>, g: Ghostly<I, V>, i: I)
    requires Joined(hash, gs, contents) && g.part == Minus(gs[Slot(hash, i)].part, i)
    ensures Joined(hash, gs[Slot(hash, i) := g], Minus(contents, i))
  {
  }

  /** The walk of defalut_get and default_erase: the node before the one sought, and that node; 0 is null. */
  method Walk<K, I(==), V>(ident: K -> I, bucket: Bucket<K, V>, ghost g: Ghostly<I, V>, i: I) returns (prev: nat,
    n: nat, ghost k: nat)
    requires BucketOk(ident, bucket, g)
    ensures n == 0 <==> i !in g.part
    ensures n != 0 ==> n in bucket.nodes && ident(bucket.nodes[n].key) == i && g.part[i] == bucket.nodes[n].value
    ensures n != 0 ==> k < |g.q| && g.q[k] == n && prev == if k == 0 then 0 else g.q[k - 1]
  {
    prev, n, k := 0, bucket.head, 0;
    while n != 0 && ident(bucket.nodes[n].key) != i
      invariant 0 <= k <= |g.q| && Chain(bucket.nodes, n, g.q[k..]) && prev == if k == 0 then 0 else g.q[k - 1]
      invariant forall j :: 0 <= j < k ==> g.q[j] in bucket.nodes && ident(bucket.nodes[g.q[j]].key) != i
      decreases |g.q| - k
    {
      assert g.q[k..][1..] == g.q[k + 1..];
      prev, n, k := n, bucket.nodes[n].next, k + 1;
    }
    if n == 0 {
      assert k == |g.q| && forall m :: m in bucket.nodes ==> m in g.q;
    }
  }

  lemma CutOk<K, I, V>(ident: K -> I, hash: I -> nat, buckets: seq<Bucket<K, V>>, gs: seq<Ghostly<I, V>>, nextPage: nat,
                       contents: map<I, V>,
                       b: nat, prev: nat, n: nat, k: nat, i: I) returns (g: Ghostly<I, V>)
    requires AllOk(ident, buckets, gs, nextPage) && Joined(hash, gs, contents) && b == Slot(hash, i)
    requires k < |gs[b].q| && gs[b].q[k] == n && prev == if k == 0 then 0 else gs[b].q[k - 1]
    requires n in buckets[b].nodes && ident(buckets[b].nodes[n].key) == i
    ensures prev != 0 ==> prev in buckets[b].nodes
    ensures AllOk(ident, buckets[b := Spliced(buckets[b], prev, n)], gs[b := g], nextPage)
    ensures Joined(hash, gs[b := g], Minus(contents, i))
  {
    BucketSplice(ident, buckets[b], gs[b], prev, n, k);
    g := Ghostly(Without(gs[b].q, k), Minus(gs[b].at, i), Minus(gs[b].part, i));
    assert Below(buckets[b], nextPage);
    AllOkUpdate(ident, buckets, gs, nextPage, b, Spliced(buckets[b], prev, n), g);
    JoinedErase(hash, gs, contents, g, i);
  }

  /** The page taken for a new node is in no chain, and at the head of its key's chain it keeps the table in order. */
  lemma PushOk<K, I, V>(ident: K -> I, hash: I -> nat, buckets: seq<Bucket<K, V>>, gs: seq<Ghostly<I, V>>, n: nat,
                        contents: map<I, V>, key: K, value: V) returns (g: Ghostly<I, V>)
    requires AllOk(ident, buckets, gs, n) && Joined(hash, gs, contents) && ident(key) !in contents
    ensures var b := Slot(hash, ident(key));
      && AllOk(ident, buckets[b := Pushed(buckets[b], n, key, value)], gs[b := g], n + 1)
      && Joined(hash, gs[b := g], contents[ident(key) := value])
  {
    var b, i := Slot(hash, ident(key)), ident(key);
    assert Below(buckets[b], n);
    BucketPush(ident, buckets[b], gs[b], n, key, value);
    g := Ghostly([n] + gs[b].q, gs[b].at[i := n], gs[b].part[i := value]);
    MorePages(ident, buckets, gs, n);
    AllOkUpdate(ident, buckets, gs, n + 1, b, Pushed(buckets[b], n, key, value), g);
    JoinedPut(hash, gs, contents, g, i, value);
  }

  class Table<K, I(==), V> {
    const ident: K -> I
    const hash: I -> nat
    var buckets: seq<Bucket<K, V>>
    var nextPage: nat                      // what alloc_page returns next; pages are not reused here
    ghost var gs: seq<Ghostly<I, V>>
    ghost var contents: map<I, V>          // the finite map the table stands for

    ghost predicate Valid()
      reads this
    {
      AllOk(ident, buckets, gs, nextPage) && Joined(hash, gs, contents)
    }

    /** hash_table_init */
    constructor (ident: K -> I, hash: I -> nat)
      ensures Valid() && contents == map[] && this.ident == ident && this.hash == hash
    {
      this.ident, this.hash := ident, hash;
      buckets := seq(HASH_TABLE_SIZE, _ => Bucket(0, map[]));
      gs := seq(HASH_TABLE_SIZE, _ => Ghostly([], map[], map[]));
      nextPage, contents := 1, map[];
    }

    /** defalut_get */
    method Get(key: K) returns (v: Option<V>)
      requires Valid()
      ensures v == if ident(key) in contents then Some(contents[ident(key)]) else None
    {
      var b := Slot(hash, ident(key));
      var prev, n, k := Walk(ident, buckets[b], gs[b], ident(key));
      if n == 0 {
        return None;
      }
      return Some(buckets[b].nodes[n].value);
    }

    /** default_put: refused (and the page taken for the node leaks) if an equal key is present. */
    method Put(key: K, value: V) returns (ok: bool)
      requires Valid()
      modifies this
      ensures Valid()
      ensures ok <==> ident(key) !in old(contents)
      ensures contents == if ok then old(contents)[ident(key) := value] else old(contents)
    {
      var n, b := nextPage, Slot(hash, ident(key));
      var present := Get(key);
      if present.Some? {
        MorePages(ident, buckets, gs, nextPage);
        nextPage := n + 1;
        return false;
      }
      ghost var g := PushOk(ident, hash, buckets, gs, nextPage, contents, key, value);
      nextPage := n + 1;
      buckets := buckets[b := Pushed(buckets[b], n, key, value)];
      gs := gs[b := g];
      contents := contents[ident(key) := value];
      return true;
    }

    /** default_erase: refused if no equal key is present. */
    method Erase(key: K) returns (ok: bool)
      requires Valid()
      modifies this
      ensures Valid()
      ensures ok <==> ident(key) in old(contents)
      ensures contents == Minus(old(contents), ident(key))
    {
      var b, i := Slot(hash, ident(key)), ident(key);
      var prev, n, k := Walk(ident, buckets[b], gs[b], i);
      if n == 0 {
        return false;
      }
      Cut(b, prev, n, k, i);
      return true;
    }

    /** Node n of bucket b, the one with identity i, is taken out of the chain. */
    method Cut(b: nat, prev: nat, n: nat, ghost k: nat, ghost i: I)
      requires Valid() && b == Slot(hash, i) && k < |gs[b].q| && gs[b].q[k] == n && prev == if k == 0 then 0
        else gs[b].q[k - 1]
      requires n in buckets[b].nodes && ident(buckets[b].nodes[n].key) == i
      modifies this
      ensures Valid() && contents == Minus(old(contents), i)
    {
      ghost var g := CutOk(ident, hash, buckets, gs, nextPage, contents, b, prev, n, k, i);
      buckets := buckets[b := Spliced(buckets[b], prev, n)];
      gs := gs[b := g];
      contents := Minus(contents, i);
    }
  }
}
