/**
 Paths as text: vfs_rcwd prints the path of a directory, strtok splits it again, and lookup from the root
 leads back to the same dentry.
 */
module VfsPath {
  import opened VfsState
  import opened VfsWalk
  import opened VfsLoose
  import opened VfsOps
  import opened Vfs

  const MAX_PATH_LEN := 30

  // ---------------------------------------------------------------- splitting

  /** The first place from i on that is no slash. */
  function SkipSlashes(s: string, i: nat): (k: nat)
    requires i <= |s|
    ensures i <= k <= |s|
    decreases |s| - i
  {
    if i == |s| || s[i] != '/' then i else SkipSlashes(s, i + 1)
  }

  /** The first slash from i on, or the end. */
  function WordEnd(s: string, i: nat): (k: nat)
    requires i <= |s|
    ensures i <= k <= |s|
    decreases |s| - i
  {
    if i == |s| || s[i] == '/' then i else WordEnd(s, i + 1)
  }

  /** The names between slashes, from place i on. */
  function TokensFrom(s: string, i: nat): seq<string>
    requires i <= |s|
    decreases |s| - i
  {
    var k := SkipSlashes(s, i);
    var e := WordEnd(s, k);
    if k == |s| then [] else [s[k..e]] + if e == |s| then [] else TokensFrom(s, e + 1)
  }

  function Tokens(s: string): seq<string> {
    TokensFrom(s, 0)
  }

  lemma {:induction false} SkipIs(s: string, i: nat, k: nat)
    requires i <= k <= |s| && (forall j :: i <= j < k ==> s[j] == '/') && (k < |s| ==> s[k] != '/')
    ensures SkipSlashes(s, i) == k
    decreases k - i
  {
    if i < k {
      SkipIs(s, i + 1, k);
    }
  }

  lemma {:induction false} WordIs(s: string, i: nat, k: nat)
    requires i <= k <= |s| && (forall j :: i <= j < k ==> s[j] != '/') && (k < |s| ==> s[k] == '/')
    ensures WordEnd(s, i) == k
    decreases k - i
  {
    if i < k {
      WordIs(s, i + 1, k);
    }
  }

  lemma {:induction false} SkipEnds(s: string, i: nat)
    requires i <= |s|
    ensures var k := SkipSlashes(s, i); k < |s| ==> s[k] != '/'
    decreases |s| - i
  {
    if i < |s| && s[i] == '/' {
      SkipEnds(s, i + 1);
    }
  }

  lemma {:induction false} WordHas(s: string, i: nat)
    requires i <= |s|
    ensures forall j :: i <= j < WordEnd(s, i) ==> s[j] != '/'
    decreases |s| - i
  {
    if i < |s| && s[i] != '/' {
      WordHas(s, i + 1);
    }
  }

  predicate Name(s: string) {
    s != [] && '/' !in s
  }

  predicate Names(ns: seq<string>) {
    forall i :: 0 <= i < |ns| ==> Name(ns[i])
  }

  /** Every token is a proper name. */
  lemma {:induction false} TokensAreNames(s: string, i: nat)
    requires i <= |s|
    ensures Names(TokensFrom(s, i))
    decreases |s| - i
  {
    var k := SkipSlashes(s, i);
    var e := WordEnd(s, k);
    if k < |s| {
      SkipEnds(s, i);
      WordHas(s, k);
      assert Name(s[k..e]);
      if e < |s| {
        TokensAreNames(s, e + 1);
      }
    }
  }

  /** The static state of strtok: the text and where the next call goes on, or None. */
  class Tokenizer {
    var text: string
    var current: int   // -1 for a null pointer

    predicate Valid()
      reads this
    {
      -1 <= current <= |text|
    }

    function Rest(): seq<string>
      requires Valid()
      reads this
    {
      if current == -1 then [] else TokensFrom(text, current)
    }

    constructor ()
      ensures Valid() && Rest() == []
    {
      text, current := "", -1;
    }

    method Start(s: string)
      modifies this
      ensures Valid() && Rest() == Tokens(s)
    {
      text, current := s, 0;
    }

    /** strtok(NULL, "/"): the next token, or `none`. */
    method Next() returns (none: bool, token: string)
      requires Valid()
      modifies this`current
      ensures Valid() && (none <==> old(Rest()) == [])
      ensures none ==> Rest() == []
      ensures !none ==> old(Rest()) == [token] + Rest() && Name(token)
    {
      token := "";
      if current == -1 {
        return true, token;
      }
      var start := current;
      while start < |text| && text[start] == '/'
        invariant current <= start <= |text| && forall i :: current <= i < start ==> text[i] == '/'
      {
        start := start + 1;
      }
      SkipIs(text, current, start);
      if start == |text| {
        current := -1;
        return true, token;
      }
      var end := start;
      while end < |text| && text[end] != '/'
        invariant start <= end <= |text| && forall i :: start <= i < end ==> text[i] != '/'
      {
        end := end + 1;
      }
      WordIs(text, start, end);
      none, token := false, text[start..end];
      current := if end < |text| then end + 1 else -1;
    }
  }

  /** All tokens, and the last one as get_base_name finds it. */
  method Split(path: string) returns (tokens: seq<string>)
    ensures tokens == Tokens(path)
  {
    var t := new Tokenizer();
    t.Start(path);
    tokens := [];
    var none, token := t.Next();
    while !none
      invariant t.Valid() && Tokens(path) == if none then tokens else tokens + ([token] + t.Rest())
      decreases if none then 0 else 1 + |t.Rest()|
    {
      assert tokens + ([token] + t.Rest()) == (tokens + [token]) + t.Rest();
      tokens := tokens + [token];
      none, token := t.Next();
    }
  }

  // ---------------------------------------------------------------- printing

  /** A slash before every name from the j-th on. */
  function JoinFrom(ns: seq<string>, j: nat): string
    requires j <= |ns|
    decreases |ns| - j
  {
    if j == |ns| then "" else "/" + ns[j] + JoinFrom(ns, j + 1)
  }

  function Join(ns: seq<string>): string {
    JoinFrom(ns, 0)
  }

  /** From place i on, s is a slash before every name from the j-th on. */
  predicate Spells(s: string, i: nat, ns: seq<string>, j: nat)
    requires i <= |s| && j <= |ns|
    decreases |ns| - j
  {
    if j == |ns| then i == |s|
    else var e := i + 1 + |ns[j]|; e <= |s| && s[i] == '/' && s[i + 1..e] == ns[j] && Spells(s, e, ns, j + 1)
  }

  lemma {:induction false} JoinSpells(s: string, before: string, ns: seq<string>, j: nat)
    requires j <= |ns| && s == before + JoinFrom(ns, j)
    ensures Spells(s, |before|, ns, j)
    decreases |ns| - j
  {
    if j < |ns| {
      var b := before + "/" + ns[j];
      Middle(s, before, ns[j], JoinFrom(ns, j + 1), b);
      JoinSpells(s, b, ns, j + 1);
      SpellsOneMore(s, |before|, |b|, ns, j);
    }
  }

  lemma SpellsOneMore(s: string, i: nat, e: nat, ns: seq<string>, j: nat)
    requires j < |ns| && e == i + 1 + |ns[j]| <= |s| && s[i] == '/' && s[i + 1..e] == ns[j] && Spells(s, e, ns, j + 1)
    ensures Spells(s, i, ns, j)
  {
  }

  lemma Middle(s: string, before: string, name: string, tail: string, b: string)
    requires s == before + ("/" + name + tail) && b == before + "/" + name
    ensures |b| == |before| + 1 + |name| <= |s| && s == b + tail && s[|before|] == '/' &&
      s[|before| + 1..|before| + 1 + |name|] == name
  {
    assert s == b + tail;
    assert s[..|b|] == b && b[|before| + 1..] == name;
  }

  /** Splitting undoes joining. */
  lemma {:induction false} TokensOfJoin(s: string, i: nat, ns: seq<string>, j: nat)
    requires Names(ns) && i <= |s| && j <= |ns| && Spells(s, i, ns, j)
    ensures TokensFrom(s, i) == ns[j..]
    decreases |ns| - j
  {
    if j < |ns| {
      var e := i + 1 + |ns[j]|;
      TokensOfJoin(s, e, ns, j + 1);
      SlashFree(s, i + 1, e, ns[j]);
      TokensStep(s, i, e);
    }
  }

  lemma SlashFree(s: string, i: nat, e: nat, name: string)
    requires i <= e <= |s| && s[i..e] == name && Name(name)
    ensures i < e && forall j :: i <= j < e ==> s[j] != '/'
  {
    forall j | i <= j < e
      ensures s[j] != '/'
    {
      assert s[j] == name[j - i];
    }
  }

  /** A slash and a word. */
  lemma TokensStep(s: string, i: nat, e: nat)
    requires i + 1 < e <= |s| && s[i] == '/' && (forall j :: i + 1 <= j < e ==> s[j] != '/') &&
      (e < |s| ==> s[e] == '/')
    ensures TokensFrom(s, i) == [s[i + 1..e]] + TokensFrom(s, e)
  {
    SkipIs(s, i, i + 1);
    WordIs(s, i + 1, e);
    WordEnded(s, e);
  }

  /** Splitting any text: slashes count for nothing, and each longest run of other characters is one token. */
  lemma SplitLaws(s: string, i: nat, e: nat)
    requires i <= e <= |s| && (forall j :: i <= j < e ==> s[j] != '/') && (e < |s| ==> s[e] == '/')
    ensures i < |s| && s[i] == '/' ==> TokensFrom(s, i) == TokensFrom(s, i + 1)
    ensures TokensFrom(s, i) == (if i == e then [] else [s[i..e]]) + TokensFrom(s, e)
    ensures TokensFrom(s, |s|) == []
  {
    if i < |s| && s[i] == '/' {
      SameStart(s, i, i + 1);
    }
    if i < e {
      SkipIs(s, i, i);
      WordIs(s, i, e);
      WordEnded(s, e);
    } else {
      assert [] + TokensFrom(s, e) == TokensFrom(s, e);
    }
  }

  lemma SameStart(s: string, i: nat, j: nat)
    requires i <= |s| && j <= |s| && SkipSlashes(s, i) == SkipSlashes(s, j)
    ensures TokensFrom(s, i) == TokensFrom(s, j)
  {
  }

  lemma WordEnded(s: string, e: nat)
    requires e <= |s| && (e < |s| ==> s[e] == '/')
    ensures TokensFrom(s, e) == if e == |s| then [] else TokensFrom(s, e + 1)
  {
    if e < |s| {
      SameStart(s, e, e + 1);
    }
  }

  /** `chain` runs from a child of the root down to d. */
  ghost predicate Reaches(s: State, d: nat, chain: seq<nat>) {
    && (forall i :: 0 <= i < |chain| ==> chain[i] in s.dents && chain[i] != ROOT && Name(s.dents[chain[i]].name))
    && (forall i :: 0 < i < |chain| ==> s.dents[chain[i]].parent == chain[i - 1])
    && (if chain == [] then d == ROOT else s.dents[chain[0]].parent == ROOT && chain[|chain| - 1] == d)
  }

  ghost function NamesOf(s: State, chain: seq<nat>): (ns: seq<string>)
    requires forall i :: 0 <= i < |chain| ==> chain[i] in s.dents
    ensures |ns| == |chain|
  {
    seq(|chain|, i requires 0 <= i < |chain| => s.dents[chain[i]].name)
  }

  /** vfs_rcwd; `fits` is false when a 30-byte buffer runs over. */
  method Rcwd(vfs: Vfs, cwd: nat, ghost chain: seq<nat>) returns (fits: bool, text: string)
    requires vfs.Valid() && Reaches(vfs.S(), cwd, chain)
    ensures fits <==> |Join(NamesOf(vfs.S(), chain))| < MAX_PATH_LEN
    ensures fits ==> text == if cwd == ROOT then "/" else Join(NamesOf(vfs.S(), chain))
  {
    ghost var ns := NamesOf(vfs.S(), chain);
    if cwd == ROOT {
      OnlyRoot(vfs.S(), chain);
      return true, "/";
    }
    text := "";
    var cur := cwd;
    ghost var n := |chain|;
    while cur != ROOT
      invariant 0 <= n <= |chain| && cur == (if n == 0 then ROOT else chain[n - 1])
      invariant text == JoinFrom(ns, n) && |text| < MAX_PATH_LEN
      decreases n
    {
      JoinShorter(ns, n - 1);
      assert ns[n - 1] == vfs.dents[cur].name;
      if |text| + |vfs.dents[cur].name| + 1 >= MAX_PATH_LEN {
        return false, text;
      }
      text := "/" + vfs.dents[cur].name + text;
      cur := vfs.dents[cur].parent;
      n := n - 1;
    }
    fits := true;
  }

  lemma OnlyRoot(s: State, chain: seq<nat>)
    requires Reaches(s, ROOT, chain)
    ensures chain == []
  {
  }

  lemma {:induction false} JoinShorter(ns: seq<string>, n: nat)
    requires n <= |ns|
    ensures |JoinFrom(ns, n)| <= |Join(ns)|
    decreases n
  {
    if n > 0 {
      JoinShorter(ns, n - 1);
    }
  }

  /** The names of a chain lead from the root over the disk to its end. */
  lemma {:induction false} WalkChain(s: State, b: Bytes, chain: seq<nat>, d: nat, i: nat)
    requires Inv(s) && Reaches(s, d, chain) && i <= |chain|
    ensures var e := if i == 0 then ROOT else chain[i - 1];
      && Cached(s.dents, s.vinodes, e) && Cached(s.dents, s.vinodes, d)
      && Walk(On(s, b), InodeOf(s.dents, s.vinodes, e).inum, NamesOf(s, chain), i) ==
         At(InodeOf(s.dents, s.vinodes, d).inum)
      && !Astray(On(s, b), InodeOf(s.dents, s.vinodes, e).inum, NamesOf(s, chain), i)
    decreases |chain| - i
  {
    var e := if i == 0 then ROOT else chain[i - 1];
    PresentOk(s, e);
    if i < |chain| {
      WalkChain(s, b, chain, d, i + 1);
      assert DentryOk(s.entries, s.dents, s.dhash, s.vinodes, chain[i]);
      KindOnDisk(s, e);
    }
  }

  /** The text printed for a directory leads back to its dentry. */
  method RoundTrip(vfs: Vfs, cwd: nat, b: Bytes, ghost chain: seq<nat>)
    returns (fits: bool, look: Look)
    requires vfs.Valid() && Reaches(vfs.S(), cwd, chain) && Cached(vfs.dents, vfs.vinodes, cwd) &&
      InodeOf(vfs.dents, vfs.vinodes, cwd).kind == DIR
    modifies vfs
    ensures fits <==> |Join(old(NamesOf(vfs.S(), chain)))| < MAX_PATH_LEN
    ensures fits ==> vfs.Valid() && look == Found(cwd)
  {
    ghost var s := vfs.S();
    look := Dead;
    var text;
    fits, text := Rcwd(vfs, cwd, chain);
    if fits {
      var tokens := Split(text);
      PrintedTokens(s, cwd, chain, text);
      RootIsDir(s);
      WalkChain(s, b, chain, cwd, 0);
      InvIsLoose(s, b);
      ghost var g;
      look, g := vfs.Resolve(ROOT, tokens, b);
      BackAtDirectory(s, vfs.S(), cwd, look);
    }
  }

  lemma PrintedTokens(s: State, cwd: nat, chain: seq<nat>, text: string)
    requires Reaches(s, cwd, chain) && text == if cwd == ROOT then "/" else Join(NamesOf(s, chain))
    ensures Tokens(text) == NamesOf(s, chain)
  {
    if cwd == ROOT {
      OnlyRoot(s, chain);
      assert SkipSlashes("/", 0) == 1;
    } else {
      JoinSpells(text, "", NamesOf(s, chain), 0);
      TokensOfJoin(text, 0, NamesOf(s, chain), 0);
      assert NamesOf(s, chain)[0..] == NamesOf(s, chain);
    }
  }

  lemma BackAtDirectory(s: State, t: State, cwd: nat, look: Look)
    requires Inv(t) && Grown(s, t) && Cached(s.dents, s.vinodes, cwd) && InodeOf(s.dents, s.vinodes, cwd).kind == DIR
    requires Agrees(t, look, At(InodeOf(s.dents, s.vinodes, cwd).inum))
    ensures look == Found(cwd)
  {
    assert t.dents[cwd] == s.dents[cwd] && t.vinodes[s.dents[cwd].inode].inum == s.vinodes[s.dents[cwd].inode].inum;
    LinksShareVinode(t, look.d, cwd);
  }
}
