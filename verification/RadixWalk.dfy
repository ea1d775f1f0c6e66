/** Walking the radix tree along a key, the leaves open to eviction, and when two trees
    hold the same prefixes (python/sglang/srt/mem_cache/radix_cache.py). */
module RadixWalk {
  import opened Pages
  import opened RadixTree
  import opened RadixOps
  import opened RadixLocks

  // ----- Comparing two keys --------------------------------------------------------------

  /** The galloping comparison of RadixKey.match: doubling windows, then a binary search. */
  method CommonPrefix(a: Key, b: Key) returns (matched: nat)
    ensures matched == Lcp(a, b)
  {
    var n := if |a| < |b| then |a| else |b|;
    matched := n;
    var lo, step := 0, 1;
    while lo < n
      invariant 0 <= lo <= n && step >= 1 && a[..lo] == b[..lo]
      invariant matched == n
      decreases n - lo
    {
      var hi := if lo + step < n then lo + step else n;
      if a[lo..hi] != b[lo..hi] {
        while hi - lo > 1
          invariant 0 <= lo < hi <= n && a[..lo] == b[..lo] && a[lo..hi] != b[lo..hi]
          decreases hi - lo
        {
          var mid := (lo + hi) / 2;
          Cut(a, lo, mid, hi);
          Cut(b, lo, mid, hi);
          if a[lo..mid] == b[lo..mid] {
            lo := mid;
          } else {
            hi := mid;
          }
        }
        matched := lo;
        DivergesAt(a, b, lo);
        return;
      }
      Cut(a, 0, lo, hi);
      Cut(b, 0, lo, hi);
      lo := hi;
      step := step * 2;
    }
    AgreeUpTo(a, b, n);
  }

  lemma Cut(a: Key, lo: nat, mid: nat, hi: nat)
    requires lo <= mid <= hi <= |a|
    ensures a[lo..hi] == a[lo..mid] + a[mid..hi] && a[..mid] == a[..lo] + a[lo..mid]
  {
  }

  lemma DivergesAt(a: Key, b: Key, n: nat)
    requires n < |a| && n < |b| && a[..n] == b[..n] && a[n..n + 1] != b[n..n + 1]
    ensures Lcp(a, b) == n
  {
    AgreeUpTo(a, b, n);
    assert a[n..n + 1] == [a[n]] && b[n..n + 1] == [b[n]];
  }

  method MatchPages(a: Key, b: Key, page: nat) returns (n: nat)
    requires page > 0
    ensures n == MatchLen(a, b, page)
  {
    n := CommonPrefix(a, b);
    n := RoundDown(n, page);
  }

  // ----- Evictable leaves ---------------------------------------------------------------------

  predicate Evictable(t: Tree, p: Key) {
    p in t && p != [] && t[p].lockRef == 0 && t[p].children == map[]
  }

  ghost function Leaves(t: Tree): set<Key> {
    set p | p in t && Evictable(t, p)
  }

  lemma SplitLeaves(t: Tree, page: nat, q: Key, n: nat)
    requires WellFormed(t, page) && CanSplit(t, page, q, n)
    ensures Leaves(Split(t, page, q, n)) == Leaves(t)
  {
    hide WellFormed, Split, Aligned, PageAt;
    var t', d, u := Split(t, page, q, n), t[q].parent, q[..n];
    SplitNames(t, page, q, n);
    NodeFacts(t, page, q);
    forall p ensures Evictable(t', p) <==> Evictable(t, p) {
      SplitNodes(t, page, q, n, p);
      if p == d {
        assert PageAt(q, |d|, page) in t[d].children && PageAt(q, |d|, page) in t'[d].children;
      }
      if p == u {
        assert PageAt(q, n, page) in t'[u].children;
      }
    }
  }

  lemma AddLeaves(t: Tree, page: nat, d: Key, key: Key, vals: seq<int>)
    requires WellFormed(t, page) && CanAdd(t, page, d, key, vals)
    ensures Leaves(AddLeaf(t, page, d, key, vals)) == Leaves(t) - {d} + {key}
  {
    hide WellFormed, AddLeaf, Aligned, PageAt;
    var t' := AddLeaf(t, page, d, key, vals);
    AddNodes(t, page, d, key, vals, key);
    forall p ensures Evictable(t', p) <==> (Evictable(t, p) && p != d) || p == key {
      AddNodes(t, page, d, key, vals, p);
      if p == d {
        assert PageAt(key, |d|, page) in t'[d].children;
      }
    }
  }

  lemma RemoveLeaves(t: Tree, page: nat, p: Key)
    requires CanRemove(t, page, p)
    ensures var t', d := RemoveLeaf(t, page, p), t[p].parent;
            Leaves(t') == Leaves(t) - {p} - {d} + if Evictable(t', d) then {d} else {}
  {
    hide RemoveLeaf, Aligned, PageAt;
    var t', d := RemoveLeaf(t, page, p), t[p].parent;
    forall x | x != d ensures Evictable(t', x) <==> Evictable(t, x) && x != p {
      RemoveNodes(t, page, p, x);
    }
    RemoveNodes(t, page, p, d);
  }

  lemma SetLockLeaves(t: Tree, x: Key, k: nat)
    requires x in t
    ensures var t' := SetLock(t, x, k);
            Leaves(t') == Leaves(t) - {x} + if Evictable(t', x) then {x} else {}
  {
    var t' := SetLock(t, x, k);
    forall p | p != x ensures Evictable(t', p) <==> Evictable(t, p) {
    }
  }

  lemma {:induction false} LongestOf(keys: set<Key>)
    requires keys != {}
    ensures exists p :: p in keys && forall q | q in keys :: |q| <= |p|
    decreases keys
  {
    var x :| x in keys;
    var rest := keys - {x};
    if rest == {} {
      assert keys == {x};
    } else {
      LongestOf(rest);
      var p :| p in rest && forall q | q in rest :: |q| <= |p|;
      var m := if |x| <= |p| then p else x;
      assert forall q | q in keys :: q == x || q in rest;
      assert m in keys && forall q | q in keys :: |q| <= |m|;
    }
  }

  /** While unlocked tokens remain, some leaf can be evicted. */
  lemma SomethingToEvict(t: Tree, page: nat, held: seq<Key>)
    requires WellFormed(t, page) && Locked(t, held) && Tokens(t, false) > 0
    ensures Leaves(t) != {}
  {
    hide WellFormed, Aligned, PageAt, SumOver, Holders;
    SumPositive(t.Keys, Weights(t, false));
    var x :| x in t.Keys && Weights(t, false)[x] > 0;
    var free := set p | p in t && p != [] && t[p].lockRef == 0;
    assert x in free;
    LongestOf(free);
    var p :| p in free && forall q | q in free :: |q| <= |p|;
    if t[p].children != map[] {
      var g :| g in t[p].children;
      ChildFacts(t, page, p, g);
      var q := t[p].children[g];
      FewerBelow(held, p, q);
    }
    assert Evictable(t, p);
    assert p in Leaves(t);
  }

  // ----- Contents ----------------------------------------------------------------------------------

  /** The two trees hold the same prefixes with the same slots. */
  ghost predicate SameContents(t: Tree, t': Tree, page: nat)
    requires WellFormed(t, page) && WellFormed(t', page)
  {
    && (forall s :: Covered(t, s) <==> Covered(t', s))
    && (forall s, v :: Holds(t, page, s, v) <==> Holds(t', page, s, v))
  }

  lemma SplitSameContents(t: Tree, page: nat, q: Key, n: nat)
    requires WellFormed(t, page) && CanSplit(t, page, q, n)
    ensures WellFormed(Split(t, page, q, n), page) && SameContents(t, Split(t, page, q, n), page)
  {
    hide WellFormed, Split, Covered, Holds;
    SplitWellFormed(t, page, q, n);
    var t' := Split(t, page, q, n);
    forall s, v ensures (Covered(t, s) <==> Covered(t', s)) && (Holds(t, page, s, v) <==> Holds(t', page, s, v)) {
      SplitHoldsSame(t, page, q, n, s, v);
    }
    forall s ensures Covered(t, s) <==> Covered(t', s) {
      SplitHoldsSame(t, page, q, n, s, []);
    }
  }

  lemma SameContentsTrans(t: Tree, t': Tree, t'': Tree, page: nat)
    requires WellFormed(t, page) && WellFormed(t', page) && WellFormed(t'', page)
    requires SameContents(t, t', page) && SameContents(t', t'', page)
    ensures SameContents(t, t'', page)
  {
    hide WellFormed, Covered, Holds;
  }

  /** The two trees differ in lock counters only. */
  ghost predicate OnlyLocks(t: Tree, t': Tree) {
    && t.Keys == t'.Keys
    && forall p | p in t :: t'[p].parent == t[p].parent && t'[p].value == t[p].value && t'[p].children == t[p].children
  }

  lemma {:induction false} OnlyLocksPathValue(t: Tree, t': Tree, page: nat, p: Key)
    requires WellFormed(t, page) && WellFormed(t', page) && OnlyLocks(t, t') && p in t
    ensures PathValue(t', page, p) == PathValue(t, page, p)
    decreases |p|
  {
    hide WellFormed, PathValue;
    PathValueStep(t, page, p);
    PathValueStep(t', page, p);
    if p != [] {
      NodeFacts(t, page, p);
      OnlyLocksPathValue(t, t', page, t[p].parent);
    }
  }

  lemma OnlyLocksSameContents(t: Tree, t': Tree, page: nat)
    requires WellFormed(t, page) && WellFormed(t', page) && OnlyLocks(t, t')
    ensures SameContents(t, t', page)
  {
    hide WellFormed, PathValue;
    forall p | p in t ensures PathValue(t', page, p) == PathValue(t, page, p) { OnlyLocksPathValue(t, t', page, p); }
    forall s, v ensures Holds(t, page, s, v) <==> Holds(t', page, s, v) {
      if p :| p in t && s <= p && v == PathValue(t, page, p)[..|s|] { assert p in t'; }
      if p :| p in t' && s <= p && v == PathValue(t', page, p)[..|s|] { assert p in t; }
    }
    forall s ensures Covered(t, s) <==> Covered(t', s) {
      if p :| p in t && s <= p { assert p in t'; }
      if p :| p in t' && s <= p { assert p in t; }
    }
  }

  // ----- One step of the walk ------------------------------------------------------------------------

  lemma AlignedPages(key: Key, d: Key, page: nat)
    requires page > 0 && d <= key && Aligned(|key|, page) && Aligned(|d|, page) && |d| < |key|
    ensures |d| + page <= |key|
  {
    PageApart(|d|, |key|, page);
  }

  /** A child filed under the next page agrees with the key on at least that page. */
  lemma StepFacts(t: Tree, page: nat, key: Key, d: Key)
    requires WellFormed(t, page) && d in t && d <= key && |d| + page <= |key| && PageAt(key, |d|, page) in t[d].children
    ensures page > 0 && HasNext(t, page, key, d)
    ensures var q := t[d].children[PageAt(key, |d|, page)];
            && q == Next(t, page, key, d) && q in t && t[q].parent == d && d < q && |d| <= |key|
            && q != [] && |t[q].value| == |q| - |d|
            && var n := EdgeMatch(q, key, |d|, page);
               && |d| + page <= n <= |q| && n <= |key| && Aligned(n, page) && q[..n] == key[..n]
               && (n == |q| ==> q <= key) && (n < |q| ==> CanSplit(t, page, q, n))
  {
    hide WellFormed, Aligned, PageAt, EdgeMatch;
    ChildFacts(t, page, d, PageAt(key, |d|, page));
    NodeFacts(t, page, d);
    var q := t[d].children[PageAt(key, |d|, page)];
    NodeFacts(t, page, q);
    NextFacts(t, page, key, d);
    var s := key[..|d| + page];
    FirstPageAgrees(q, key, d, page);
    OnePageOn(|d|, page);
    EdgeMatchIsLongest(q, key, |d|, page, s);
    var n := EdgeMatch(q, key, |d|, page);
    if n < |q| {
      PageApart(n, |q|, page);
    }
  }

  lemma FirstPageAgrees(q: Key, key: Key, d: Key, page: nat)
    requires d <= q && d <= key && |d| + page <= |q| && |d| + page <= |key|
    requires PageAt(key, |d|, page) == PageAt(q, |d|, page)
    ensures key[..|d| + page] <= q && key[..|d| + page] <= key
  {
    assert key[..|d| + page] == d + PageAt(key, |d|, page);
    assert q[..|d| + page] == d + PageAt(q, |d|, page);
  }

  lemma OnePageOn(n: nat, page: nat)
    requires page > 0 && Aligned(n, page)
    ensures Aligned(n + page, page)
  {
    AlignedSum(n, page, page);
  }

  /** `d` is the longest page-aligned prefix of `key` that the tree covers. */
  ghost predicate Longest(t: Tree, page: nat, key: Key, d: Key)
    requires page > 0
  {
    && d <= key && Aligned(|d|, page) && Covered(t, d)
    && forall s | s <= key && Aligned(|s|, page) && Covered(t, s) :: |s| <= |d|
  }

  /** The walk stops at the longest cached prefix: no further child, or an edge that diverges. */
  lemma StoppedAtLongest(t: Tree, page: nat, key: Key, d: Key)
    requires WellFormed(t, page) && d in t && d <= key && Aligned(|key|, page)
    requires page > 0 && Reach(t, page, key, d) == |d|
    ensures Longest(t, page, key, d)
  {
    hide WellFormed, Aligned, Reach, Covered;
    ReachIsLongest(t, page, key, d);
    assert key[..|d|] == d;
  }

  lemma DivergesInEdge(t: Tree, page: nat, key: Key, d: Key, q: Key, n: nat)
    requires WellFormed(t, page) && d in t && d <= key && Aligned(|key|, page)
    requires page > 0 && HasNext(t, page, key, d) && q == Next(t, page, key, d)
    requires |d| <= |q| && n == EdgeMatch(q, key, |d|, page) && n < |q| && n <= |key|
    ensures Longest(t, page, key, key[..n])
  {
    hide WellFormed, Aligned, HasNext, Next, EdgeMatch, Covered;
    ReachIsLongest(t, page, key, d);
  }

  lemma SameLongest(t: Tree, t': Tree, page: nat, key: Key, d: Key)
    requires WellFormed(t, page) && WellFormed(t', page) && SameContents(t, t', page) && page > 0
    requires Longest(t', page, key, d)
    ensures Longest(t, page, key, d)
  {
    hide WellFormed, Aligned, Covered, Holds;
  }
}
