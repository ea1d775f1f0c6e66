/** The radix tree that maps token prefixes to KV-cache slots
    (python/sglang/srt/mem_cache/radix_cache.py).

    A node is named by its path, the units from the root to its end. Splitting an edge
    gives the new upper part a new, shorter path and leaves the path of the lower part
    as it was, so the name of a node never changes while it is in the tree. */
module RadixTree {
  import opened Pages

  /** One logical unit of a key: a token with the namespace (extra key and salt) of its request. */
  datatype Unit = Unit(space: string, token: int)

  type Key = seq<Unit>

  /** `value` holds the slots of the node's own segment, `children` is keyed by first page. */
  datatype Node = Node(parent: Key, value: seq<int>, lockRef: nat, children: map<Key, Key>)

  type Tree = map<Key, Node>

  // ----- Prefixes and pages -----------------------------------------------------------

  lemma OneMoreUnit(a: Key, n: nat)
    requires n < |a|
    ensures a[..n + 1] == [a[0]] + a[1..][..n]
  {
  }

  /** Length of the longest common prefix. */
  function Lcp(a: Key, b: Key): (n: nat)
    ensures n <= |a| && n <= |b| && a[..n] == b[..n]
    ensures n < |a| && n < |b| ==> a[n] != b[n]
  {
    if a == [] || b == [] || a[0] != b[0] then 0
    else
      var n := Lcp(a[1..], b[1..]);
      OneMoreUnit(a, n);
      OneMoreUnit(b, n);
      n + 1
  }

  /** RadixKey.match: the common prefix, rounded down to whole pages. */
  function MatchLen(a: Key, b: Key, page: nat): (n: nat)
    requires page > 0
    ensures n <= |a| && n <= |b| && a[..n] == b[..n] && Aligned(n, page)
    ensures forall k: nat | k <= |a| && k <= |b| && Aligned(k, page) && a[..k] == b[..k] :: k <= n
  {
    var full := Lcp(a, b);
    var n := RoundDown(full, page);
    assert a[..n] == a[..full][..n] && b[..n] == b[..full][..n];
    assert forall k: nat | k <= |a| && k <= |b| && Aligned(k, page) && a[..k] == b[..k] :: k <= n by {
      forall k: nat | k <= |a| && k <= |b| && Aligned(k, page) && a[..k] == b[..k] ensures k <= n {
        AgreeUpTo(a, b, k);
      }
    }
    n
  }

  lemma AgreeUpTo(a: Key, b: Key, k: nat)
    requires k <= |a| && k <= |b| && a[..k] == b[..k]
    ensures k <= Lcp(a, b)
  {
  }

  // ----- Well-formed trees ---------------------------------------------------------------

  /** The page after position `n`. */
  function PageAt(k: Key, n: nat, page: nat): Key
    requires n + page <= |k|
  {
    k[n..n + page]
  }

  /** A node sits below its parent: aligned, with as many slots as units, and filed under its first page. */
  ghost predicate Attached(t: Tree, page: nat, p: Key)
    requires page > 0 && p in t
  {
    && Aligned(|p|, page)
    && (p == [] ==> t[p].value == [])
    && (p != [] ==>
          var d := t[p].parent;
          && d in t && |d| + page <= |p| && Aligned(|d|, page) && d == p[..|d|]
          && |t[p].value| == |p| - |d|
          && PageAt(p, |d|, page) in t[d].children && t[d].children[PageAt(p, |d|, page)] == p)
  }

  /** Every entry of a child table is a child filed under its own first page. */
  ghost predicate Filed(t: Tree, page: nat, d: Key)
    requires page > 0 && d in t
  {
    forall g | g in t[d].children ::
      var q := t[d].children[g];
      q in t && q != [] && t[q].parent == d && |d| + page <= |q| && g == PageAt(q, |d|, page)
  }

  ghost predicate WellFormed(t: Tree, page: nat) {
    && page > 0 && [] in t
    && (forall p {:trigger Attached(t, page, p)} | p in t :: Attached(t, page, p))
    && (forall d {:trigger Filed(t, page, d)} | d in t :: Filed(t, page, d))
  }

  lemma PageOfPrefix(a: Key, b: Key, n: nat, page: nat)
    requires a <= b && n + page <= |a|
    ensures PageAt(a, n, page) == PageAt(b, n, page)
  {
  }

  /** What well-formedness says about one node. */
  lemma NodeFacts(t: Tree, page: nat, p: Key)
    requires WellFormed(t, page) && p in t
    ensures [] in t && page > 0 && Aligned(|p|, page)
    ensures p != [] ==> var d := t[p].parent;
              && d in t && d < p && |d| + page <= |p| && |t[p].value| == |p| - |d|
              && PageAt(p, |d|, page) in t[d].children && t[d].children[PageAt(p, |d|, page)] == p
    ensures p == [] ==> t[p].value == []
  {
    hide Aligned, PageAt;
    assert Attached(t, page, p);
  }

  /** What well-formedness says about one child entry. */
  lemma ChildFacts(t: Tree, page: nat, d: Key, g: Key)
    requires WellFormed(t, page) && d in t && g in t[d].children
    ensures var q := t[d].children[g];
            && q in t && q != [] && t[q].parent == d && d < q && |d| + page <= |q| && g == PageAt(q, |d|, page)
  {
    hide Aligned, PageAt;
    assert Filed(t, page, d);
    NodeFacts(t, page, t[d].children[g]);
  }

  lemma PrefixOfBoth(a: Key, b: Key, p: Key)
    requires a <= p && b <= p && |a| <= |b|
    ensures a <= b && (|a| < |b| ==> a < b) && (|a| == |b| ==> a == b)
  {
  }

  /** A node that is a proper prefix of another has a child on the way to it. */
  lemma {:induction false} ChildToward(t: Tree, page: nat, d: Key, p: Key)
    requires WellFormed(t, page) && d in t && p in t && d < p
    ensures |d| + page <= |p| && PageAt(p, |d|, page) in t[d].children
    ensures t[d].children[PageAt(p, |d|, page)] <= p
    decreases |p|
  {
    hide *;
    NodeFacts(t, page, p);
    NodeFacts(t, page, d);
    PageApart(|d|, |p|, page);
    var a := t[p].parent;
    if |d| < |a| {
      PrefixOfBoth(d, a, p);
      ChildToward(t, page, d, a);
      PageOfPrefix(a, p, |d|, page);
    } else {
      PrefixOfBoth(a, d, p);
      if |a| < |d| {
        ChildToward(t, page, a, d);
        PageOfPrefix(d, p, |a|, page);
      }
    }
  }

  /** No node lies strictly inside an edge. */
  lemma NoNodeInside(t: Tree, page: nat, p: Key, x: Key)
    requires WellFormed(t, page) && p in t && p != [] && x in t && x <= p && |x| < |p|
    ensures |x| <= |t[p].parent| && x <= t[p].parent
  {
    hide *;
    NodeFacts(t, page, p);
    var d := t[p].parent;
    if |x| > |d| {
      PrefixOfBoth(d, x, p);
      ChildToward(t, page, d, x);
      PageOfPrefix(x, p, |d|, page);
    } else {
      PrefixOfBoth(x, d, p);
    }
  }

  // ----- What a tree holds ---------------------------------------------------------------

  /** The slots from the root to the end of node `p`. */
  ghost function PathValue(t: Tree, page: nat, p: Key): (v: seq<int>)
    requires WellFormed(t, page) && p in t
    ensures |v| == |p|
    decreases |p|
  {
    NodeFacts(t, page, p);
    if p == [] then [] else PathValue(t, page, t[p].parent) + t[p].value
  }

  /** Prefix `s` is in the cache, as part of the path of some node. */
  ghost predicate Covered(t: Tree, s: Key) { exists p :: p in t && s <= p }

  /** Prefix `s` is in the cache with slots `v`. */
  ghost predicate Holds(t: Tree, page: nat, s: Key, v: seq<int>)
    requires WellFormed(t, page)
  {
    exists p :: p in t && s <= p && v == PathValue(t, page, p)[..|s|]
  }

  lemma {:induction false} PathValuePrefix(t: Tree, page: nat, d: Key, p: Key)
    requires WellFormed(t, page) && d in t && p in t && d <= p
    ensures PathValue(t, page, d) == PathValue(t, page, p)[..|d|]
    decreases |p|
  {
    NodeFacts(t, page, p);
    if |d| < |p| {
      NoNodeInside(t, page, p, d);
      PathValuePrefix(t, page, d, t[p].parent);
    } else {
      assert d == p;
    }
  }

  /** The slots of a prefix do not depend on the node they are read from. */
  lemma {:induction false} SameValue(t: Tree, page: nat, s: Key, p: Key, q: Key, d: Key)
    requires WellFormed(t, page) && p in t && q in t && s <= p && s <= q && d in t && d <= s && Aligned(|s|, page)
    ensures PathValue(t, page, p)[..|s|] == PathValue(t, page, q)[..|s|]
    decreases |s| - |d|
  {
    hide Aligned, PageAt, WellFormed, PathValue;
    NodeFacts(t, page, d);
    if |d| == |s| {
      assert d == s;
      PathValuePrefix(t, page, d, p);
      PathValuePrefix(t, page, d, q);
    } else {
      PageApart(|d|, |s|, page);
      PrefixOfBoth(d, s, p);
      ChildToward(t, page, d, p);
      ChildToward(t, page, d, q);
      PageOfPrefix(s, p, |d|, page);
      PageOfPrefix(s, q, |d|, page);
      var b := t[d].children[PageAt(s, |d|, page)];
      ChildFacts(t, page, d, PageAt(s, |d|, page));
      if |b| <= |s| {
        PrefixOfBoth(b, s, p);
        SameValue(t, page, s, p, q, b);
      } else {
        PathValuePrefix(t, page, b, p);
        PathValuePrefix(t, page, b, q);
        TakeTwice(PathValue(t, page, p), |s|, |b|);
        TakeTwice(PathValue(t, page, q), |s|, |b|);
      }
    }
  }

  lemma TakeTwice(v: seq<int>, m: nat, n: nat)
    requires m <= n <= |v|
    ensures v[..n][..m] == v[..m]
  {
  }

  /** A page-aligned prefix has one value. */
  lemma HoldsUnique(t: Tree, page: nat, s: Key, v: seq<int>, w: seq<int>)
    requires WellFormed(t, page) && Aligned(|s|, page) && Holds(t, page, s, v) && Holds(t, page, s, w)
    ensures v == w
  {
    var p :| p in t && s <= p && v == PathValue(t, page, p)[..|s|];
    var q :| q in t && s <= q && w == PathValue(t, page, q)[..|s|];
    SameValue(t, page, s, p, q, []);
  }

  // ----- The longest cached prefix --------------------------------------------------------

  /** Up to where an edge ending in `q` agrees with `key`, both known to agree up to `n0`. */
  function EdgeMatch(q: Key, key: Key, n0: nat, page: nat): (n: nat)
    requires page > 0 && n0 <= |q| && n0 <= |key|
    ensures n0 <= n <= |q| && n <= |key|
  {
    n0 + MatchLen(q[n0..], key[n0..], page)
  }

  lemma EdgeMatchAgrees(q: Key, key: Key, n0: nat, page: nat)
    requires page > 0 && n0 <= |q| && n0 <= |key| && q[..n0] == key[..n0] && Aligned(n0, page)
    ensures var n := EdgeMatch(q, key, n0, page); Aligned(n, page) && q[..n] == key[..n]
  {
    var m := MatchLen(q[n0..], key[n0..], page);
    AlignedSum(n0, m, page);
    assert q[..n0 + m] == q[..n0] + q[n0..][..m] && key[..n0 + m] == key[..n0] + key[n0..][..m];
  }

  lemma EdgeMatchIsLongest(q: Key, key: Key, n0: nat, page: nat, s: Key)
    requires page > 0 && n0 <= |q| && n0 <= |key| && q[..n0] == key[..n0] && Aligned(n0, page)
    requires s <= q && s <= key && n0 <= |s| && Aligned(|s|, page)
    ensures |s| <= EdgeMatch(q, key, n0, page)
  {
    var k := |s| - n0;
    AlignedSum(n0, k, page);
    assert q[n0..][..k] == s[n0..] && key[n0..][..k] == s[n0..];
  }

  /** There is a child on the way to `key`. */
  ghost predicate HasNext(t: Tree, page: nat, key: Key, d: Key)
    requires d in t
  {
    && |d| + page <= |key| && PageAt(key, |d|, page) in t[d].children
    && var q := t[d].children[PageAt(key, |d|, page)];
       q in t && |d| < |q|
  }

  ghost function Next(t: Tree, page: nat, key: Key, d: Key): (q: Key)
    requires d in t && HasNext(t, page, key, d)
    ensures q in t && |d| < |q|
  {
    t[d].children[PageAt(key, |d|, page)]
  }

  lemma NextFacts(t: Tree, page: nat, key: Key, d: Key)
    requires WellFormed(t, page) && d in t && d <= key && HasNext(t, page, key, d)
    ensures var q := Next(t, page, key, d);
            && page > 0 && q != [] && t[q].parent == d && d < q && |d| + page <= |q| && |d| <= |key|
            && Aligned(|d|, page) && Aligned(|q|, page) && q[..|d|] == key[..|d|]
            && var n := EdgeMatch(q, key, |d|, page);
               Aligned(n, page) && q[..n] == key[..n] && (n == |q| ==> q <= key)
  {
    hide Aligned, PageAt, WellFormed, EdgeMatch;
    var q := Next(t, page, key, d);
    ChildFacts(t, page, d, PageAt(key, |d|, page));
    NodeFacts(t, page, d);
    NodeFacts(t, page, q);
    EdgeMatchAgrees(q, key, |d|, page);
  }

  /** How far the walk down from node `d` gets along `key`. */
  ghost function Reach(t: Tree, page: nat, key: Key, d: Key): (n: nat)
    requires page > 0 && d in t && |d| <= |key|
    ensures |d| <= n <= |key|
    decreases |key| - |d|
  {
    if !HasNext(t, page, key, d) then |d|
    else
      var q := Next(t, page, key, d);
      var n := EdgeMatch(q, key, |d|, page);
      if n < |q| then n else Reach(t, page, key, q)
  }

  lemma PageIsPositive(t: Tree, page: nat)
    requires WellFormed(t, page)
    ensures page > 0 && [] in t
  {
  }

  lemma {:induction false} ReachCovered(t: Tree, page: nat, key: Key, d: Key)
    requires WellFormed(t, page) && d in t && d <= key && Aligned(|key|, page)
    ensures Covered(t, key[..Reach(t, page, key, d)]) && Aligned(Reach(t, page, key, d), page)
    decreases |key| - |d|
  {
    hide WellFormed, Aligned, HasNext, Next, EdgeMatch;
    NodeFacts(t, page, d);
    if HasNext(t, page, key, d) {
      NextFacts(t, page, key, d);
      var q := Next(t, page, key, d);
      var n := EdgeMatch(q, key, |d|, page);
      if n < |q| {
        assert key[..n] <= q;
      } else {
        ReachCovered(t, page, key, q);
      }
    } else {
      assert key[..|d|] <= d;
    }
  }

  lemma NextToward(t: Tree, page: nat, key: Key, d: Key, s: Key, p: Key)
    requires WellFormed(t, page) && d in t && d <= key && s <= key && Aligned(|s|, page) && p in t && s <= p && |s| > |d|
    ensures d < s && HasNext(t, page, key, d) && Next(t, page, key, d) <= p
  {
    hide WellFormed, Aligned, PageAt;
    NodeFacts(t, page, d);
    PrefixOfBoth(d, s, key);
    PageApart(|d|, |s|, page);
    ChildToward(t, page, d, p);
    PageOfPrefix(s, p, |d|, page);
    PageOfPrefix(s, key, |d|, page);
    ChildFacts(t, page, d, PageAt(key, |d|, page));
  }

  lemma {:induction false} NothingBeyond(t: Tree, page: nat, key: Key, d: Key, s: Key, p: Key)
    requires WellFormed(t, page) && d in t && d <= key && Aligned(|key|, page)
    requires s <= key && Aligned(|s|, page) && p in t && s <= p
    ensures |s| <= Reach(t, page, key, d)
    decreases |key| - |d|
  {
    hide WellFormed, Aligned, HasNext, Next, EdgeMatch;
    PageIsPositive(t, page);
    if |s| > |d| {
      NextToward(t, page, key, d, s, p);
      NextFacts(t, page, key, d);
      var q := Next(t, page, key, d);
      if |s| <= |q| {
        PrefixOfBoth(s, q, p);
        EdgeMatchIsLongest(q, key, |d|, page, s);
      } else {
        PrefixOfBoth(q, s, p);
        EdgeMatchIsLongest(q, key, |d|, page, q);
      }
      if EdgeMatch(q, key, |d|, page) == |q| {
        NothingBeyond(t, page, key, q, s, p);
      }
    }
  }

  /** The reached prefix is in the cache, and no longer page-aligned prefix of the key is. */
  lemma ReachIsLongest(t: Tree, page: nat, key: Key, d: Key)
    requires WellFormed(t, page) && d in t && d <= key && Aligned(|key|, page)
    ensures Covered(t, key[..Reach(t, page, key, d)]) && Aligned(Reach(t, page, key, d), page)
    ensures forall s | s <= key && Aligned(|s|, page) && Covered(t, s) :: |s| <= Reach(t, page, key, d)
  {
    hide WellFormed, Aligned, Reach;
    PageIsPositive(t, page);
    ReachCovered(t, page, key, d);
    forall s | s <= key && Aligned(|s|, page) && Covered(t, s) ensures |s| <= Reach(t, page, key, d) {
      var p :| p in t && s <= p;
      NothingBeyond(t, page, key, d, s, p);
    }
  }
}
