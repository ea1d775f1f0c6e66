/** The three changes ever made to the radix tree (python/sglang/srt/mem_cache/radix_cache.py):
    splitting an edge, adding a leaf, removing a leaf. Each keeps the tree well-formed;
    a split changes nothing of what the tree holds, the others exactly one segment. */
module RadixOps {
  import opened Pages
  import opened RadixTree

  // ----- Splitting an edge --------------------------------------------------------------

  predicate CanSplit(t: Tree, page: nat, q: Key, n: nat) {
    && page > 0 && q in t && q != [] && t[q].parent in t
    && |t[q].parent| + page <= n && n + page <= |q| && Aligned(n, page) && |t[q].value| == |q| - |t[q].parent|
  }

  /** _split_node: the upper part of the edge to `q` becomes a node of its own. */
  function Split(t: Tree, page: nat, q: Key, n: nat): Tree
    requires CanSplit(t, page, q, n)
  {
    var d := t[q].parent;
    var u := q[..n];
    t[d := t[d].(children := t[d].children[PageAt(q, |d|, page) := u])]
     [u := Node(d, t[q].value[..n - |d|], t[q].lockRef, map[PageAt(q, n, page) := q])]
     [q := t[q].(parent := u, value := t[q].value[n - |d|..])]
  }

  /** The three nodes involved are different, and the new one is new. */
  lemma SplitNames(t: Tree, page: nat, q: Key, n: nat)
    requires WellFormed(t, page) && CanSplit(t, page, q, n)
    ensures var d, u := t[q].parent, q[..n];
            && d < u < q && u !in t && d in t && q in t && d != u && u != q && d != q
            && PageAt(u, |d|, page) == PageAt(q, |d|, page)
  {
    NodeFacts(t, page, q);
    var d, u := t[q].parent, q[..n];
    if u in t {
      NoNodeInside(t, page, q, u);
    }
    PageOfPrefix(u, q, |d|, page);
  }

  /** What each node looks like afterwards. */
  lemma SplitNodes(t: Tree, page: nat, q: Key, n: nat, p: Key)
    requires WellFormed(t, page) && CanSplit(t, page, q, n)
    ensures var t', d, u := Split(t, page, q, n), t[q].parent, q[..n];
            && (p in t' <==> p in t || p == u)
            && (p in t && p != d && p != q ==> t'[p] == t[p])
            && (p == d ==> t'[p] == t[p].(children := t[p].children[PageAt(q, |d|, page) := u]))
            && (p == u ==> t'[p] == Node(d, t[q].value[..n - |d|], t[q].lockRef, map[PageAt(q, n, page) := q]))
            && (p == q ==> t'[p] == t[q].(parent := u, value := t[q].value[n - |d|..]))
  {
    SplitNames(t, page, q, n);
  }

  lemma SplitAttached(t: Tree, page: nat, q: Key, n: nat, p: Key)
    requires WellFormed(t, page) && CanSplit(t, page, q, n) && p in Split(t, page, q, n)
    ensures Attached(Split(t, page, q, n), page, p)
  {
    hide WellFormed, Split, Aligned, PageAt;
    var t', d, u := Split(t, page, q, n), t[q].parent, q[..n];
    SplitNames(t, page, q, n);
    SplitNodes(t, page, q, n, p);
    SplitNodes(t, page, q, n, d);
    SplitNodes(t, page, q, n, u);
    NodeFacts(t, page, q);
    NodeFacts(t, page, d);
    if p in t {
      NodeFacts(t, page, p);
      if p != [] {
        SplitNodes(t, page, q, n, t[p].parent);
        NodeFacts(t, page, t[p].parent);
      }
    }
  }

  lemma SplitFiled(t: Tree, page: nat, q: Key, n: nat, e: Key)
    requires WellFormed(t, page) && CanSplit(t, page, q, n) && e in Split(t, page, q, n)
    ensures Filed(Split(t, page, q, n), page, e)
  {
    hide WellFormed, Split, Aligned, PageAt;
    var t', d, u := Split(t, page, q, n), t[q].parent, q[..n];
    SplitNames(t, page, q, n);
    SplitNodes(t, page, q, n, e);
    SplitNodes(t, page, q, n, u);
    SplitNodes(t, page, q, n, q);
    NodeFacts(t, page, q);
    forall g | g in t'[e].children
      ensures var c := t'[e].children[g];
              c in t' && c != [] && t'[c].parent == e && |e| + page <= |c| && g == PageAt(c, |e|, page)
    {
      var c := t'[e].children[g];
      SplitNodes(t, page, q, n, c);
      if e in t && g in t[e].children && c == t[e].children[g] {
        ChildFacts(t, page, e, g);
      }
    }
  }

  lemma SplitWellFormed(t: Tree, page: nat, q: Key, n: nat)
    requires WellFormed(t, page) && CanSplit(t, page, q, n)
    ensures WellFormed(Split(t, page, q, n), page)
  {
    var t' := Split(t, page, q, n);
    SplitNodes(t, page, q, n, []);
    hide Split, Attached, Filed;
    forall p | p in t' ensures Attached(t', page, p) { SplitAttached(t, page, q, n, p); }
    forall e | e in t' ensures Filed(t', page, e) { SplitFiled(t, page, q, n, e); }
  }

  lemma PathValueStep(t: Tree, page: nat, p: Key)
    requires WellFormed(t, page) && p in t
    ensures p == [] ==> PathValue(t, page, p) == []
    ensures p != [] ==> t[p].parent in t && PathValue(t, page, p) == PathValue(t, page, t[p].parent) + t[p].value
  {
    NodeFacts(t, page, p);
  }

  lemma Halves(a: seq<int>, v: seq<int>, k: nat)
    requires k <= |v|
    ensures a + v[..k] + v[k..] == a + v && (a + v)[..|a| + k] == a + v[..k]
  {
  }

  /** All slots stay where they were, and the new node holds the upper part. */
  lemma {:induction false} SplitPathValue(t: Tree, page: nat, q: Key, n: nat, p: Key)
    requires WellFormed(t, page) && CanSplit(t, page, q, n) && WellFormed(Split(t, page, q, n), page)
    requires p in t
    ensures p in Split(t, page, q, n) && q[..n] in Split(t, page, q, n)
    ensures PathValue(Split(t, page, q, n), page, p) == PathValue(t, page, p)
    ensures p == q ==> PathValue(Split(t, page, q, n), page, q[..n]) == PathValue(t, page, q)[..n]
    decreases |p|
  {
    hide WellFormed, Split, PathValue, Aligned, PageAt;
    var t', d, u := Split(t, page, q, n), t[q].parent, q[..n];
    SplitNames(t, page, q, n);
    SplitNodes(t, page, q, n, p);
    SplitNodes(t, page, q, n, u);
    PathValueStep(t, page, p);
    PathValueStep(t', page, p);
    NodeFacts(t, page, p);
    if p != [] {
      SplitPathValue(t, page, q, n, t[p].parent);
    }
    if p == q {
      PathValueStep(t', page, u);
      Halves(PathValue(t, page, d), t[q].value, n - |d|);
    }
  }

  /** A split changes nothing of what the tree holds. */
  lemma SplitHoldsSame(t: Tree, page: nat, q: Key, n: nat, s: Key, v: seq<int>)
    requires WellFormed(t, page) && CanSplit(t, page, q, n) && WellFormed(Split(t, page, q, n), page)
    ensures Covered(Split(t, page, q, n), s) <==> Covered(t, s)
    ensures Holds(Split(t, page, q, n), page, s, v) <==> Holds(t, page, s, v)
  {
    hide WellFormed, Split, PathValue, Aligned, PageAt;
    var t', u := Split(t, page, q, n), q[..n];
    SplitNames(t, page, q, n);
    SplitPathValue(t, page, q, n, q);
    if p :| p in t && s <= p {
      SplitNodes(t, page, q, n, p);
      assert p in t';
    }
    if p :| p in t' && s <= p {
      SplitNodes(t, page, q, n, p);
      assert p == u ==> s <= q;
    }
    if p :| p in t && s <= p && v == PathValue(t, page, p)[..|s|] {
      SplitPathValue(t, page, q, n, p);
    }
    if p :| p in t' && s <= p && v == PathValue(t', page, p)[..|s|] {
      SplitNodes(t, page, q, n, p);
      if p == u {
        TakeTwice(PathValue(t, page, q), |s|, n);
        assert s <= q;
      } else {
        SplitPathValue(t, page, q, n, p);
      }
    }
  }

  // ----- Adding a leaf ----------------------------------------------------------------------

  predicate CanAdd(t: Tree, page: nat, d: Key, key: Key, vals: seq<int>) {
    && page > 0 && d in t && d < key && |d| + page <= |key| && Aligned(|key|, page) && |vals| == |key| - |d|
    && PageAt(key, |d|, page) !in t[d].children
  }

  function AddLeaf(t: Tree, page: nat, d: Key, key: Key, vals: seq<int>): Tree
    requires CanAdd(t, page, d, key, vals)
  {
    t[d := t[d].(children := t[d].children[PageAt(key, |d|, page) := key])]
     [key := Node(d, vals, 0, map[])]
  }

  lemma AddNodes(t: Tree, page: nat, d: Key, key: Key, vals: seq<int>, p: Key)
    requires WellFormed(t, page) && CanAdd(t, page, d, key, vals)
    ensures var t' := AddLeaf(t, page, d, key, vals);
            && key !in t && d != key
            && (p in t' <==> p in t || p == key)
            && (p in t && p != d ==> t'[p] == t[p])
            && (p == d ==> t'[p] == t[p].(children := t[p].children[PageAt(key, |d|, page) := key]))
            && (p == key ==> t'[p] == Node(d, vals, 0, map[]))
  {
    if key in t {
      ChildToward(t, page, d, key);
    }
  }

  lemma AddAttached(t: Tree, page: nat, d: Key, key: Key, vals: seq<int>, p: Key)
    requires WellFormed(t, page) && CanAdd(t, page, d, key, vals) && p in AddLeaf(t, page, d, key, vals)
    ensures Attached(AddLeaf(t, page, d, key, vals), page, p)
  {
    hide WellFormed, AddLeaf, Aligned, PageAt;
    AddNodes(t, page, d, key, vals, p);
    AddNodes(t, page, d, key, vals, d);
    NodeFacts(t, page, d);
    if p in t {
      NodeFacts(t, page, p);
      if p != [] {
        AddNodes(t, page, d, key, vals, t[p].parent);
        NodeFacts(t, page, t[p].parent);
      }
    }
  }

  lemma AddFiled(t: Tree, page: nat, d: Key, key: Key, vals: seq<int>, e: Key)
    requires WellFormed(t, page) && CanAdd(t, page, d, key, vals) && e in AddLeaf(t, page, d, key, vals)
    ensures Filed(AddLeaf(t, page, d, key, vals), page, e)
  {
    hide WellFormed, AddLeaf, Aligned, PageAt;
    var t' := AddLeaf(t, page, d, key, vals);
    AddNodes(t, page, d, key, vals, e);
    forall g | g in t'[e].children
      ensures var c := t'[e].children[g];
              c in t' && c != [] && t'[c].parent == e && |e| + page <= |c| && g == PageAt(c, |e|, page)
    {
      var c := t'[e].children[g];
      AddNodes(t, page, d, key, vals, c);
      if e in t && g in t[e].children {
        ChildFacts(t, page, e, g);
      }
    }
  }

  lemma AddWellFormed(t: Tree, page: nat, d: Key, key: Key, vals: seq<int>)
    requires WellFormed(t, page) && CanAdd(t, page, d, key, vals)
    ensures WellFormed(AddLeaf(t, page, d, key, vals), page)
  {
    var t' := AddLeaf(t, page, d, key, vals);
    AddNodes(t, page, d, key, vals, []);
    hide AddLeaf, Attached, Filed;
    forall p | p in t' ensures Attached(t', page, p) { AddAttached(t, page, d, key, vals, p); }
    forall e | e in t' ensures Filed(t', page, e) { AddFiled(t, page, d, key, vals, e); }
  }

  lemma {:induction false} AddPathValue(t: Tree, page: nat, d: Key, key: Key, vals: seq<int>, p: Key)
    requires WellFormed(t, page) && CanAdd(t, page, d, key, vals) && WellFormed(AddLeaf(t, page, d, key, vals), page)
    requires p in t
    ensures p in AddLeaf(t, page, d, key, vals) && key in AddLeaf(t, page, d, key, vals)
    ensures PathValue(AddLeaf(t, page, d, key, vals), page, p) == PathValue(t, page, p)
    ensures p == d ==> PathValue(AddLeaf(t, page, d, key, vals), page, key) == PathValue(t, page, d) + vals
    decreases |p|
  {
    hide WellFormed, AddLeaf, PathValue, Aligned, PageAt;
    var t' := AddLeaf(t, page, d, key, vals);
    AddNodes(t, page, d, key, vals, p);
    AddNodes(t, page, d, key, vals, key);
    PathValueStep(t, page, p);
    PathValueStep(t', page, p);
    NodeFacts(t, page, p);
    if p != [] {
      AddPathValue(t, page, d, key, vals, t[p].parent);
    }
    if p == d {
      PathValueStep(t', page, key);
    }
  }

  /** Adding a leaf adds exactly the prefixes of its path, and changes no slot. */
  lemma AddHolds(t: Tree, page: nat, d: Key, key: Key, vals: seq<int>, s: Key, v: seq<int>)
    requires WellFormed(t, page) && CanAdd(t, page, d, key, vals) && WellFormed(AddLeaf(t, page, d, key, vals), page)
    ensures Covered(AddLeaf(t, page, d, key, vals), s) <==> Covered(t, s) || s <= key
    ensures Holds(AddLeaf(t, page, d, key, vals), page, s, v) <==>
            Holds(t, page, s, v) || (s <= key && v == (PathValue(t, page, d) + vals)[..|s|])
  {
    hide WellFormed, AddLeaf, PathValue, Aligned, PageAt;
    var t' := AddLeaf(t, page, d, key, vals);
    AddPathValue(t, page, d, key, vals, d);
    if p :| p in t && s <= p {
      AddNodes(t, page, d, key, vals, p);
      assert p in t';
    }
    if p :| p in t' && s <= p {
      AddNodes(t, page, d, key, vals, p);
    }
    if p :| p in t && s <= p && v == PathValue(t, page, p)[..|s|] {
      AddPathValue(t, page, d, key, vals, p);
    }
    if p :| p in t' && s <= p && v == PathValue(t', page, p)[..|s|] {
      AddNodes(t, page, d, key, vals, p);
      if p != key {
        AddPathValue(t, page, d, key, vals, p);
      }
    }
  }

  // ----- Removing a leaf ---------------------------------------------------------------------

  predicate CanRemove(t: Tree, page: nat, p: Key) {
    && page > 0 && p in t && p != [] && t[p].children == map[]
    && t[p].parent in t && |t[p].parent| + page <= |p| && t[p].parent < p
  }

  /** _delete_leaf. */
  function RemoveLeaf(t: Tree, page: nat, p: Key): Tree
    requires CanRemove(t, page, p)
  {
    var d := t[p].parent;
    (t - {p})[d := t[d].(children := t[d].children - {PageAt(p, |d|, page)})]
  }

  lemma RemoveNodes(t: Tree, page: nat, p: Key, x: Key)
    requires CanRemove(t, page, p)
    ensures var t', d := RemoveLeaf(t, page, p), t[p].parent;
            && d != p
            && (x in t' <==> x in t && x != p)
            && (x in t' && x != d ==> t'[x] == t[x])
            && (x == d ==> t'[x] == t[x].(children := t[x].children - {PageAt(p, |d|, page)}))
  {
  }

  lemma RemoveAttached(t: Tree, page: nat, p: Key, x: Key)
    requires WellFormed(t, page) && CanRemove(t, page, p) && x in RemoveLeaf(t, page, p)
    ensures Attached(RemoveLeaf(t, page, p), page, x)
  {
    hide WellFormed, RemoveLeaf, Aligned, PageAt;
    RemoveNodes(t, page, p, x);
    NodeFacts(t, page, x);
    NodeFacts(t, page, p);
    if x != [] {
      NodeFacts(t, page, t[x].parent);
      RemoveNodes(t, page, p, t[x].parent);
    }
  }

  lemma RemoveFiled(t: Tree, page: nat, p: Key, e: Key)
    requires WellFormed(t, page) && CanRemove(t, page, p) && e in RemoveLeaf(t, page, p)
    ensures Filed(RemoveLeaf(t, page, p), page, e)
  {
    hide WellFormed, RemoveLeaf, Aligned, PageAt;
    var t' := RemoveLeaf(t, page, p);
    RemoveNodes(t, page, p, e);
    NodeFacts(t, page, p);
    forall g | g in t'[e].children
      ensures var c := t'[e].children[g];
              c in t' && c != [] && t'[c].parent == e && |e| + page <= |c| && g == PageAt(c, |e|, page)
    {
      var c := t'[e].children[g];
      ChildFacts(t, page, e, g);
      RemoveNodes(t, page, p, c);
    }
  }

  lemma RemoveWellFormed(t: Tree, page: nat, p: Key)
    requires WellFormed(t, page) && CanRemove(t, page, p)
    ensures WellFormed(RemoveLeaf(t, page, p), page)
  {
    var t' := RemoveLeaf(t, page, p);
    RemoveNodes(t, page, p, []);
    hide RemoveLeaf, Attached, Filed;
    forall x | x in t' ensures Attached(t', page, x) { RemoveAttached(t, page, p, x); }
    forall e | e in t' ensures Filed(t', page, e) { RemoveFiled(t, page, p, e); }
  }

  /** Removing a leaf changes no slot of what remains. */
  lemma {:induction false} RemovePathValue(t: Tree, page: nat, p: Key, x: Key)
    requires WellFormed(t, page) && CanRemove(t, page, p) && WellFormed(RemoveLeaf(t, page, p), page)
    requires x in RemoveLeaf(t, page, p)
    ensures x in t && PathValue(RemoveLeaf(t, page, p), page, x) == PathValue(t, page, x)
    decreases |x|
  {
    hide WellFormed, RemoveLeaf, PathValue, Aligned, PageAt;
    var t' := RemoveLeaf(t, page, p);
    RemoveNodes(t, page, p, x);
    PathValueStep(t, page, x);
    PathValueStep(t', page, x);
    NodeFacts(t, page, x);
    if x != [] {
      RemovePathValue(t, page, p, t[x].parent);
    }
  }
}
