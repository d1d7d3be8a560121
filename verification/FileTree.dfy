/** An abstract file system: a map from paths, sequences of segments, to nodes. The tree below a
    directory is such a map with relative paths. */
module FileTree {
  import opened Collections

  type Tree<S(==), N> = map<seq<S>, N>

  function Suffixes<S(==,!new), N>(fs: Tree<S, N>, d: seq<S>): set<seq<S>> {
    set p | p in fs && d <= p :: p[|d|..]
  }

  lemma SuffixesAt<S(!new), N>(fs: Tree<S, N>, d: seq<S>, r: seq<S>)
    ensures r in Suffixes(fs, d) <==> d + r in fs
  {
    assert (d + r)[|d|..] == r;
    if r in Suffixes(fs, d) {
      var p :| p in fs && d <= p && p[|d|..] == r;
      assert p == d + r;
    }
  }

  /** The tree below a path, the path itself included as []. */
  function Sub<S(==,!new), N>(fs: Tree<S, N>, d: seq<S>): Tree<S, N> {
    map r | r in Suffixes(fs, d) :: SuffixesAt(fs, d, r); fs[d + r]
  }

  lemma SubAt<S(!new), N>(fs: Tree<S, N>, d: seq<S>, r: seq<S>)
    ensures r in Sub(fs, d) <==> d + r in fs
    ensures r in Sub(fs, d) ==> Sub(fs, d)[r] == fs[d + r]
  {
    SuffixesAt(fs, d, r);
  }

  function Prefixed<S(==,!new), N>(tree: Tree<S, N>, d: seq<S>): set<seq<S>> {
    set r | r in tree :: d + r
  }

  lemma PrefixedAt<S(!new), N>(tree: Tree<S, N>, d: seq<S>, p: seq<S>)
    ensures p in Prefixed(tree, d) <==> d <= p && p[|d|..] in tree
  {
    if d <= p {
      assert p == d + p[|d|..];
    }
    if p in Prefixed(tree, d) {
      var r :| r in tree && d + r == p;
      assert p[|d|..] == r;
    }
  }

  /** `cp(.., { recursive, force })` of a tree onto a path. */
  function Graft<S(==,!new), N>(fs: Tree<S, N>, d: seq<S>, tree: Tree<S, N>): Tree<S, N> {
    map p | p in fs.Keys + Prefixed(tree, d) ::
      PrefixedAt(tree, d, p); if p in Prefixed(tree, d) then tree[p[|d|..]] else fs[p]
  }

  lemma GraftAt<S(!new), N>(fs: Tree<S, N>, d: seq<S>, tree: Tree<S, N>, r: seq<S>)
    ensures d + r in Graft(fs, d, tree) <==> r in tree || d + r in fs
    ensures d + r in Graft(fs, d, tree) ==> Graft(fs, d, tree)[d + r] == if r in tree then tree[r] else fs[d + r]
  {
    PrefixedAt(tree, d, d + r);
    assert (d + r)[|d|..] == r;
  }

  lemma GraftElsewhere<S(!new), N>(fs: Tree<S, N>, d: seq<S>, tree: Tree<S, N>, p: seq<S>)
    requires !(d <= p)
    ensures p in Graft(fs, d, tree) <==> p in fs
    ensures p in fs ==> Graft(fs, d, tree)[p] == fs[p]
  {
    PrefixedAt(tree, d, p);
  }

  /** `rm(.., { recursive, force })` */
  function Remove<S(==,!new), N>(fs: Tree<S, N>, d: seq<S>): Tree<S, N> {
    map p | p in fs && !(d <= p) :: fs[p]
  }

  function Prefixes<S(==,!new)>(d: seq<S>): set<seq<S>> {
    set n | 0 <= n <= |d| :: d[..n]
  }

  /** `mkdir(.., { recursive })`: what exists is left alone. */
  function Mkdir<S(==,!new), N>(fs: Tree<S, N>, d: seq<S>, dir: N): Tree<S, N> {
    map p | p in fs.Keys + Prefixes(d) :: if p in fs then fs[p] else dir
  }

  lemma MkdirAt<S(!new), N>(fs: Tree<S, N>, d: seq<S>, dir: N, p: seq<S>)
    ensures p in Mkdir(fs, d, dir) <==> p in fs || p <= d
    ensures p in Mkdir(fs, d, dir) ==> Mkdir(fs, d, dir)[p] == if p in fs then fs[p] else dir
  {
    if p <= d {
      assert p == d[..|p|];
    }
  }

  // ----- reading one place after writing another

  predicate Apart<S(==,!new)>(d: seq<S>, e: seq<S>) {
    !(d <= e) && !(e <= d)
  }

  lemma ApartBelow<S(!new)>(d: seq<S>, e: seq<S>, r: seq<S>)
    requires Apart(d, e)
    ensures !(d <= e + r)
  {
    assert (e + r)[..|e|] == e;
    assert |d| <= |e| ==> (e + r)[..|d|] == e[..|d|];
  }

  /** Trees with the same paths and nodes are the same. */
  lemma SameTree<S(!new), N>(a: Tree<S, N>, b: Tree<S, N>)
    requires forall r :: (r in a <==> r in b) && (r in a ==> a[r] == b[r])
    ensures a == b
  {
    assert a.Keys == b.Keys;
  }

  lemma SubOfGraftElsewhere<S(!new), N>(fs: Tree<S, N>, d: seq<S>, tree: Tree<S, N>, e: seq<S>)
    requires Apart(d, e)
    ensures Sub(Graft(fs, d, tree), e) == Sub(fs, e)
  {
    var a, b := Sub(Graft(fs, d, tree), e), Sub(fs, e);
    forall r ensures (r in a <==> r in b) && (r in a ==> a[r] == b[r]) {
      SubAt(Graft(fs, d, tree), e, r);
      SubAt(fs, e, r);
      ApartBelow(d, e, r);
      GraftElsewhere(fs, d, tree, e + r);
    }
    SameTree(a, b);
  }

  lemma SubOfGraft<S(!new), N>(fs: Tree<S, N>, d: seq<S>, tree: Tree<S, N>)
    requires Sub(fs, d) == map[]
    ensures Sub(Graft(fs, d, tree), d) == tree
  {
    var a := Sub(Graft(fs, d, tree), d);
    forall r ensures (r in a <==> r in tree) && (r in a ==> a[r] == tree[r]) {
      SubAt(Graft(fs, d, tree), d, r);
      SubAt(fs, d, r);
      GraftAt(fs, d, tree, r);
    }
    SameTree(a, tree);
  }

  lemma SubOfRemove<S(!new), N>(fs: Tree<S, N>, d: seq<S>, e: seq<S>)
    requires Apart(d, e)
    ensures Sub(Remove(fs, d), e) == Sub(fs, e)
  {
    var a, b := Sub(Remove(fs, d), e), Sub(fs, e);
    forall r ensures (r in a <==> r in b) && (r in a ==> a[r] == b[r]) {
      SubAt(Remove(fs, d), e, r);
      SubAt(fs, e, r);
      ApartBelow(d, e, r);
    }
    SameTree(a, b);
  }

  /** Making a directory changes nothing below a place that is not on the way to it. */
  lemma SubOfMkdir<S(!new), N>(fs: Tree<S, N>, d: seq<S>, dir: N, e: seq<S>)
    requires !(e <= d)
    ensures Sub(Mkdir(fs, d, dir), e) == Sub(fs, e)
  {
    var a, b := Sub(Mkdir(fs, d, dir), e), Sub(fs, e);
    forall r ensures (r in a <==> r in b) && (r in a ==> a[r] == b[r]) {
      SubAt(Mkdir(fs, d, dir), e, r);
      SubAt(fs, e, r);
      MkdirAt(fs, d, dir, e + r);
      assert e == (e + r)[..|e|];
    }
    SameTree(a, b);
  }

  lemma SubOfSub<S(!new), N>(fs: Tree<S, N>, d: seq<S>, e: seq<S>)
    ensures Sub(Sub(fs, d), e) == Sub(fs, d + e)
  {
    var a, b := Sub(Sub(fs, d), e), Sub(fs, d + e);
    forall r ensures (r in a <==> r in b) && (r in a ==> a[r] == b[r]) {
      SubAt(Sub(fs, d), e, r);
      SubAt(fs, d, e + r);
      SubAt(fs, d + e, r);
      Associative(d, e, r);
    }
    SameTree(a, b);
  }
}
