/** The prefix cache: a radix tree that requests match, extend, lock and that is evicted
    leaf by leaf (python/sglang/srt/mem_cache/radix_cache.py). */
module RadixCache {
  import opened Common
  import opened Pages
  import opened RadixTree
  import opened RadixOps
  import opened RadixLocks

  import opened RadixWalk

  /** The tree is well-formed, and the counters and the leaf set say what the tree says. */
  ghost predicate Consistent(t: Tree, page: nat, held: seq<Key>, free: int, kept: int, leaves: set<Key>) {
    && WellFormed(t, page) && Locked(t, held)
    && free == Tokens(t, false) && kept == Tokens(t, true) && leaves == Leaves(t)
  }

  /** The part of a key that fills whole pages. */
  function PageAligned(key: Key, page: nat): (r: Key)
    requires page > 0
    ensures r <= key && Aligned(|r|, page)
    ensures forall s | s <= key && Aligned(|s|, page) :: s <= r
  {
    key[..RoundDown(|key|, page)]
  }

  // ----- What each change keeps ----------------------------------------------------------

  lemma SplitConsistent(t: Tree, page: nat, held: seq<Key>, free: int, kept: int, leaves: set<Key>, q: Key, n: nat)
    requires Consistent(t, page, held, free, kept, leaves) && CanSplit(t, page, q, n)
    ensures Consistent(Split(t, page, q, n), page, held, free, kept, leaves)
    ensures SameContents(t, Split(t, page, q, n), page)
    ensures forall v :: Slots(Split(t, page, q, n), v) == Slots(t, v)
    ensures q[..n] in Split(t, page, q, n)
    ensures t[q].parent in t
    ensures PathValue(Split(t, page, q, n), page, q[..n]) == PathValue(t, page, t[q].parent) + Split(t, page, q, n)[q[..n]].value
  {
    hide WellFormed, CanSplit, Split, Locked, Tokens, Leaves, SameContents, Slots, PathValue;
    SplitSameContents(t, page, q, n);
    SplitKeepsLocks(t, page, q, n, held);
    SplitTokens(t, page, q, n, false);
    SplitTokens(t, page, q, n, true);
    SplitLeaves(t, page, q, n);
    forall v ensures Slots(Split(t, page, q, n), v) == Slots(t, v) { SplitSlots(t, page, q, n, v); }
    UpperHalf(t, page, q, n);
  }

  lemma SplitBounds(t: Tree, page: nat, q: Key, n: nat)
    requires CanSplit(t, page, q, n)
    ensures q in t && t[q].parent in t && n <= |q|
  {
  }

  lemma UpperHalf(t: Tree, page: nat, q: Key, n: nat)
    requires WellFormed(t, page) && CanSplit(t, page, q, n) && WellFormed(Split(t, page, q, n), page)
    ensures q[..n] in Split(t, page, q, n)
    ensures t[q].parent in t
    ensures PathValue(Split(t, page, q, n), page, q[..n]) == PathValue(t, page, t[q].parent) + Split(t, page, q, n)[q[..n]].value
  {
    hide WellFormed, Split, PathValue, Aligned, PageAt;
    SplitPathValue(t, page, q, n, q);
    SplitNodes(t, page, q, n, q[..n]);
    PathValueStep(t, page, q);
    Halves(PathValue(t, page, t[q].parent), t[q].value, n - |t[q].parent|);
  }

  lemma AddConsistent(t: Tree, page: nat, held: seq<Key>, free: int, kept: int, leaves: set<Key>,
                      d: Key, key: Key, vals: seq<int>)
    requires Consistent(t, page, held, free, kept, leaves) && CanAdd(t, page, d, key, vals)
    ensures Consistent(AddLeaf(t, page, d, key, vals), page, held, free + |vals|, kept, leaves - {d} + {key})
    ensures key in AddLeaf(t, page, d, key, vals)
    ensures PathValue(AddLeaf(t, page, d, key, vals), page, key) == PathValue(t, page, d) + vals
  {
    hide WellFormed, CanAdd, AddLeaf, Locked, Tokens, Leaves, PathValue;
    AddWellFormed(t, page, d, key, vals);
    AddKeepsLocks(t, page, d, key, vals, held);
    AddTokens(t, page, d, key, vals, false);
    AddTokens(t, page, d, key, vals, true);
    AddLeaves(t, page, d, key, vals);
    InTree(t, page, d, key, vals);
    AddPathValue(t, page, d, key, vals, d);
  }

  lemma InTree(t: Tree, page: nat, d: Key, key: Key, vals: seq<int>)
    requires CanAdd(t, page, d, key, vals)
    ensures d in t
  {
  }

  lemma LeafIsRemovable(t: Tree, page: nat, p: Key)
    requires WellFormed(t, page) && p in Leaves(t)
    ensures CanRemove(t, page, p) && p != [] && t[p].lockRef == 0
    ensures WeightOf(t[p], p, false) == |t[p].value| && WeightOf(t[p], p, true) == 0
  {
    hide WellFormed;
    NodeFacts(t, page, p);
  }

  lemma RemoveConsistent(t: Tree, page: nat, held: seq<Key>, free: int, kept: int, leaves: set<Key>, p: Key)
    requires Consistent(t, page, held, free, kept, leaves) && p in leaves
    ensures CanRemove(t, page, p) && t[p].parent in RemoveLeaf(t, page, p)
    ensures var t', d := RemoveLeaf(t, page, p), t[p].parent;
            Consistent(t', page, held, free - |t[p].value|, kept,
                       leaves - {p} - {d} + if Evictable(t', d) then {d} else {})
  {
    hide *;
    ConsistentFacts(t, page, held, free, kept, leaves);
    LeafIsRemovable(t, page, p);
    RemovedParent(t, page, p);
    var t' := RemoveLeaf(t, page, p);
    RemoveWellFormed(t, page, p);
    RemoveKeepsLocks(t, page, p, held);
    RemoveTokens(t, page, p, false);
    RemoveTokens(t, page, p, true);
    RemoveLeaves(t, page, p);
    MakeConsistent(t', page, held, free - |t[p].value|, kept);
  }

  lemma RemovedParent(t: Tree, page: nat, p: Key)
    requires CanRemove(t, page, p)
    ensures p in t && t[p].parent in t && t[p].parent in RemoveLeaf(t, page, p)
  {
    RemoveNodes(t, page, p, t[p].parent);
  }

  lemma ConsistentFacts(t: Tree, page: nat, held: seq<Key>, free: int, kept: int, leaves: set<Key>)
    requires Consistent(t, page, held, free, kept, leaves)
    ensures WellFormed(t, page) && page > 0 && Locked(t, held)
    ensures free == Tokens(t, false) && kept == Tokens(t, true) && leaves == Leaves(t)
  {
  }

  lemma MakeConsistent(t: Tree, page: nat, held: seq<Key>, free: int, kept: int)
    requires WellFormed(t, page) && Locked(t, held) && free == Tokens(t, false) && kept == Tokens(t, true)
    ensures Consistent(t, page, held, free, kept, Leaves(t))
  {
  }

  // ----- Walking up to lock or unlock -------------------------------------------------------

  /** `t` is `t0` with the lock counters changed by `delta` on the path to `p`, strictly below `x`. */
  ghost predicate Relocked(t0: Tree, t: Tree, p: Key, x: Key, delta: int) {
    && OnlyLocks(t0, t) && x <= p
    && (forall y | y in t0 && y != [] :: t[y].lockRef == t0[y].lockRef + if y <= p && |y| > |x| then delta else 0)
    && ([] in t0 ==> t[[]].lockRef == t0[[]].lockRef)
  }

  lemma OnEdge(t: Tree, page: nat, p: Key, x: Key, y: Key)
    requires WellFormed(t, page) && x in t && x != [] && x <= p && y in t
    ensures y <= p && |y| > |t[x].parent| <==> (y <= p && |y| > |x|) || y == x
  {
    hide WellFormed;
    NodeFacts(t, page, x);
    if y <= p && |t[x].parent| < |y| <= |x| {
      PrefixOfBoth(y, x, p);
      if |y| < |x| {
        NoNodeInside(t, page, x, y);
      }
    }
  }

  lemma RelockStep(t0: Tree, t: Tree, page: nat, p: Key, x: Key, delta: int)
    requires WellFormed(t0, page) && Relocked(t0, t, p, x, delta) && x in t && x != [] && t[x].lockRef + delta >= 0
    ensures t[x].parent in SetLock(t, x, t[x].lockRef + delta) && |t[x].parent| < |x|
    ensures Relocked(t0, SetLock(t, x, t[x].lockRef + delta), p, t[x].parent, delta)
  {
    hide WellFormed;
    NodeFacts(t0, page, x);
    var t' := SetLock(t, x, t[x].lockRef + delta);
    assert t'.Keys == t.Keys;
    forall y | y in t0 && y != []
      ensures t'[y].lockRef == t0[y].lockRef + if y <= p && |y| > |t[x].parent| then delta else 0
    {
      OnEdge(t0, page, p, x, y);
    }
  }

  lemma RelockedAll(t0: Tree, t: Tree, p: Key, delta: int, held: seq<Key>, held': seq<Key>)
    requires Relocked(t0, t, p, [], delta) && Locked(t0, held) && p in t0
    requires forall i | 0 <= i < |held'| :: held'[i] in held || held'[i] == p
    requires forall y: Key :: Holders(held', y) == Holders(held, y) + if y <= p then delta else 0
    ensures Locked(t, held')
  {
    hide Holders;
  }

  // ----- The cache ----------------------------------------------------------------------------

  class Cache {
    const page: nat
    var nodes: Tree
    var evictableSize: int
    var protectedSize: int
    var evictableLeaves: set<Key>

    /** The nodes that running requests hold, one entry for each lock taken and not yet released. */
    ghost var held: seq<Key>

    ghost predicate Valid()
      reads this
    {
      Consistent(nodes, page, held, evictableSize, protectedSize, evictableLeaves)
    }

    constructor (page: nat)
      requires page > 0
      ensures Valid() && this.page == page && held == []
      ensures nodes.Keys == {[]} && evictableSize == protectedSize == 0
    {
      this.page := page;
      nodes := map[[] := Node([], [], 1, map[])];
      evictableSize, protectedSize, evictableLeaves, held := 0, 0, {}, [];
      new;
      EmptyTree(nodes, page);
    }

    method SplitNode(q: Key, n: nat)
      requires CanSplit(nodes, page, q, n)
      modifies this`nodes
      ensures nodes == Split(old(nodes), page, q, n)
    {
      hide Aligned;
      var d, child, u := nodes[q].parent, nodes[q], q[..n];
      var upper := Node(d, child.value[..n - |d|], child.lockRef, map[PageAt(q, n, page) := q]);
      nodes := nodes[d := nodes[d].(children := nodes[d].children[PageAt(q, |d|, page) := u])];
      nodes := nodes[u := upper];
      nodes := nodes[q := child.(parent := u, value := child.value[n - |d|..])];
    }

    /** Splits the edge to `q` after the first `n` units of its path; nothing a request can see changes. */
    method SplitAt(q: Key, n: nat) returns (u: Key)
      requires Valid() && CanSplit(nodes, page, q, n)
      modifies this`nodes
      ensures Valid() && SameContents(old(nodes), nodes, page)
      ensures forall v :: Slots(nodes, v) == old(Slots(nodes, v))
      ensures n <= |q| && u == q[..n] && u in nodes && old(q in nodes && nodes[q].parent in nodes)
      ensures PathValue(nodes, page, u) == old(PathValue(nodes, page, nodes[q].parent)) + nodes[u].value
      ensures WellFormed(nodes, page) && Holds(nodes, page, u, PathValue(nodes, page, u))
    {
      hide *;
      ValidFacts();
      SplitBounds(nodes, page, q, n);
      SplitConsistent(nodes, page, held, evictableSize, protectedSize, evictableLeaves, q, n);
      u := q[..n];
      SplitNode(q, n);
      ConsistentIsValid();
      ValidFacts();
      ReadOff(nodes, page, u);
    }

    method UpdateLeafStatus(p: Key)
      requires p in nodes && (p == [] ==> nodes[p].lockRef > 0)
      modifies this`evictableLeaves
      ensures evictableLeaves == old(evictableLeaves) - {p} + if Evictable(nodes, p) then {p} else {}
    {
      if nodes[p].lockRef > 0 || nodes[p].children != map[] {
        evictableLeaves := evictableLeaves - {p};
      } else {
        evictableLeaves := evictableLeaves + {p};
      }
    }

    /** Finds the longest cached prefix in whole pages and its slots; what the cache holds stays the same. */
    method MatchPrefix(key: Key) returns (slots: seq<int>, last: Key)
      requires Valid()
      modifies this`nodes
      ensures Valid() && SameContents(old(nodes), nodes, page)
      ensures Longest(old(nodes), page, PageAligned(key, page), last)
      ensures last in nodes && slots == PathValue(nodes, page, last)
      ensures Holds(old(nodes), page, last, slots)
      ensures forall v :: Slots(nodes, v) == old(Slots(nodes, v))
    {
      hide *;
      ValidFacts();
      var full := PageAligned(key, page);
      SameContentsRefl(nodes, page);
      RootFacts(nodes, page);
      slots, last := [], [];
      if |full| == 0 {
        StopsHere(nodes, page, full, last);
        ReadOff(nodes, page, last);
        return;
      }
      var rest := full;
      StillAligned(nodes, page, full, last);
      while |rest| > 0 && PageAt(full, |last|, page) in nodes[last].children
        invariant nodes == old(nodes) && last in nodes && last <= full && rest == full[|last|..]
        invariant |rest| > 0 ==> |last| + page <= |full|
        invariant slots == PathValue(nodes, page, last)
        decreases |rest|
      {
        var child := nodes[last].children[PageAt(full, |last|, page)];
        MatchStep(nodes, page, full, last, child);
        var m := MatchPages(child[|last|..], rest, page);
        if m < |child| - |last| {
          last := SplitAt(child, |last| + m);
          slots := slots + nodes[last].value;
          SameHolds(old(nodes), nodes, page, last, slots);
          return;
        }
        slots := slots + nodes[child].value;
        last := child;
        rest := rest[m..];
      }
      StopsHere(nodes, page, full, last);
      ReadOff(nodes, page, last);
    }

    /** Caches `key` in whole pages: its cached prefix keeps its slots, the rest gets those of `value`. */
    method Insert(key: Key, value: seq<int>) returns (prefixLen: nat, last: Key)
      requires Valid() && |PageAligned(key, page)| <= |value|
      modifies this`nodes, this`evictableSize, this`evictableLeaves
      ensures Valid() && last == PageAligned(key, page)
      ensures prefixLen <= |last| && Longest(old(nodes), page, last, last[..prefixLen])
      ensures Extended(old(nodes), nodes, page, last)
      ensures Filled(old(nodes), nodes, page, last, prefixLen, value)
      ensures evictableSize == old(evictableSize) + |last| - prefixLen
      ensures forall v :: Slots(nodes, v) == old(Slots(nodes, v)) + Occurs(value[prefixLen..|last|], v)
    {
      hide *;
      ValidFacts();
      ghost var t0 := nodes;
      var full := PageAligned(key, page);
      var rest, vals;
      last, rest, vals := Descend(full, value[..|full|]);
      prefixLen := |last|;
      assert full[..prefixLen] == last && vals == value[prefixLen..|full|];
      if |rest| > 0 {
        AddRest(t0, last, full, vals, value);
        last := full;
      } else {
        assert full[|last|..] == [] && last == full;
        NothingToAdd(t0, nodes, page, full, value);
      }
    }

    /** Walks as far down along `full` as the cache goes; `rest` and `vals` are what it does not have. */
    method Descend(full: Key, value: seq<int>) returns (last: Key, rest: Key, vals: seq<int>)
      requires Valid() && WellFormed(nodes, page) && page > 0 && Aligned(|full|, page) && |value| == |full|
      modifies this`nodes
      ensures Valid() && WellFormed(nodes, page) && SameContents(old(nodes), nodes, page)
      ensures forall v :: Slots(nodes, v) == old(Slots(nodes, v))
      ensures last in nodes && last <= full && rest == full[|last|..] && vals == value[|last|..]
      ensures |rest| > 0 ==> |last| + page <= |full| && PageAt(full, |last|, page) !in nodes[last].children
      ensures Longest(old(nodes), page, full, last)
    {
      hide *;
      ghost var t0 := nodes;
      SameContentsRefl(nodes, page);
      RootFacts(nodes, page);
      StillAligned(nodes, page, full, []);
      last, rest, vals := [], full, value;
      while |rest| > 0 && PageAt(full, |last|, page) in nodes[last].children
        invariant Valid() && WellFormed(nodes, page) && SameContents(t0, nodes, page)
        invariant last in nodes && last <= full && rest == full[|last|..] && vals == value[|last|..]
        invariant |rest| > 0 ==> |last| + page <= |full|
        invariant forall v :: Slots(nodes, v) == old(Slots(nodes, v))
        decreases |rest|
      {
        ghost var before := nodes;
        var m;
        last, m := StepDown(full, last, rest);
        SameContentsTrans(t0, before, nodes, page);
        rest, vals := rest[m..], vals[m..];
      }
      StopsHere(nodes, page, full, last);
      SameLongest(t0, nodes, page, full, last);
    }

    /** Goes to the child on the way to `full`, splitting its edge where the two diverge. */
    method StepDown(full: Key, d: Key, rest: Key) returns (next: Key, m: nat)
      requires Valid() && WellFormed(nodes, page) && page > 0 && d in nodes && d <= full && rest == full[|d|..]
      requires Aligned(|full|, page) && |d| + page <= |full| && PageAt(full, |d|, page) in nodes[d].children
      modifies this`nodes
      ensures Valid() && WellFormed(nodes, page) && SameContents(old(nodes), nodes, page)
      ensures forall v :: Slots(nodes, v) == old(Slots(nodes, v))
      ensures next in nodes && next <= full && m > 0 && |next| == |d| + m
      ensures |next| < |full| ==> |next| + page <= |full|
    {
      hide *;
      var node := nodes[d].children[PageAt(full, |d|, page)];
      MatchStep(nodes, page, full, d, node);
      SameContentsRefl(nodes, page);
      m := MatchPages(node[|d|..], rest, page);
      if m < |node| - |d| {
        next := SplitAt(node, |d| + m);
      } else {
        next := node;
      }
      StillAligned(nodes, page, full, next);
    }

    /** Adds what is left of `full` below `d`, where the walk stopped. */
    method AddRest(ghost t0: Tree, d: Key, full: Key, vals: seq<int>, ghost value: seq<int>)
      requires Valid() && WellFormed(nodes, page) && WellFormed(t0, page) && SameContents(t0, nodes, page)
      requires page > 0 && d in nodes && d <= full && |d| + page <= |full| <= |value| && vals == value[|d|..|full|]
      requires Aligned(|full|, page) && PageAt(full, |d|, page) !in nodes[d].children
      modifies this`nodes, this`evictableSize, this`evictableLeaves
      ensures Valid() && WellFormed(nodes, page) && Extended(t0, nodes, page, full)
      ensures Filled(t0, nodes, page, full, |d|, value)
      ensures evictableSize == old(evictableSize) + |vals|
      ensures forall v :: Slots(nodes, v) == old(Slots(nodes, v)) + Occurs(vals, v)
    {
      hide *;
      AddAtStop(t0, nodes, page, d, full, vals, value);
      ValidFacts();
      AddConsistent(nodes, page, held, evictableSize, protectedSize, evictableLeaves, d, full, vals);
      AddNewLeaf(d, full, vals);
      ConsistentIsValid();
    }

    /** The new leaf, the size of its segment, and the leaf status of both ends. */
    method AddNewLeaf(d: Key, full: Key, vals: seq<int>)
      requires Valid() && CanAdd(nodes, page, d, full, vals)
      modifies this`nodes, this`evictableSize, this`evictableLeaves
      ensures nodes == AddLeaf(old(nodes), page, d, full, vals)
      ensures evictableSize == old(evictableSize) + |vals|
      ensures evictableLeaves == old(evictableLeaves) - {d} + {full}
    {
      AddNodes(nodes, page, d, full, vals, d);
      AddNodes(nodes, page, d, full, vals, full);
      RootLocked(nodes, held);
      var g := PageAt(full, |d|, page);
      ghost var t' := AddLeaf(nodes, page, d, full, vals);
      assert g in t'[d].children;
      hide WellFormed, Consistent, Aligned, PageAt;
      var file := nodes[d].children[g := full];
      nodes := nodes[d := nodes[d].(children := file)];
      nodes := nodes[full := Node(d, vals, 0, map[])];
      assert nodes == t';
      evictableSize := evictableSize + |vals|;
      UpdateLeafStatus(d);
      UpdateLeafStatus(full);
    }

    /** A request takes a lock on node `p`. */
    method IncLockRef(p: Key) returns (delta: int)
      requires Valid() && p in nodes
      modifies this
      ensures Valid() && held == old(held) + [p]
      ensures OnlyLocks(old(nodes), nodes) && SameContents(old(nodes), nodes, page)
      ensures delta == evictableSize - old(evictableSize)
      ensures evictableSize + protectedSize == old(evictableSize + protectedSize)
    {
      hide *;
      ValidFacts();
      ghost var t0 := nodes;
      NotRelocked(nodes, p, 1);
      delta := 0;
      var x := p;
      while x != []
        invariant x in nodes && WellFormed(nodes, page) && Relocked(t0, nodes, p, x, 1)
        invariant Sized(nodes, evictableSize, protectedSize, evictableLeaves)
        invariant delta == evictableSize - old(evictableSize)
        invariant evictableSize + protectedSize == old(evictableSize + protectedSize)
        invariant held == old(held)
        decreases |x|
      {
        var k := nodes[x].lockRef;
        RelockStep(t0, nodes, page, p, x, 1);
        SetLockWellFormed(nodes, page, x, k + 1);
        SetLockSized(nodes, page, x, k + 1, evictableSize, protectedSize, evictableLeaves);
        var len := |x| - |nodes[x].parent|;
        if k == 0 {
          evictableSize := evictableSize - len;
          protectedSize := protectedSize + len;
          delta := delta - len;
        }
        SetLockRef(x, k + 1);
        x := nodes[x].parent;
      }
      held := held + [p];
      TakeLock(t0, nodes, p, old(held));
      OnlyLocksWhenRelocked(t0, nodes, p, x, 1);
      OnlyLocksSameContents(t0, nodes, page);
      SizedIsConsistent(nodes, page, held, evictableSize, protectedSize, evictableLeaves);
      ConsistentIsValid();
    }

    /** The holder of lock `i`, taken on node `p`, releases it. */
    method DecLockRef(p: Key, ghost i: nat) returns (delta: int)
      requires Valid() && i < |held| && held[i] == p
      modifies this
      ensures Valid() && held == Without(old(held), i)
      ensures OnlyLocks(old(nodes), nodes) && SameContents(old(nodes), nodes, page)
      ensures delta == evictableSize - old(evictableSize)
      ensures evictableSize + protectedSize == old(evictableSize + protectedSize)
    {
      hide *;
      ValidFacts();
      ghost var t0 := nodes;
      HeldInTree(nodes, held, i);
      NotRelocked(nodes, p, -1);
      delta := 0;
      var x := p;
      while x != []
        invariant x in nodes && WellFormed(nodes, page) && Relocked(t0, nodes, p, x, -1)
        invariant Sized(nodes, evictableSize, protectedSize, evictableLeaves)
        invariant delta == evictableSize - old(evictableSize)
        invariant evictableSize + protectedSize == old(evictableSize + protectedSize)
        invariant held == old(held)
        decreases |x|
      {
        LockedOnPath(t0, nodes, held, i, x);
        var k := nodes[x].lockRef;
        RelockStep(t0, nodes, page, p, x, -1);
        SetLockWellFormed(nodes, page, x, k - 1);
        SetLockSized(nodes, page, x, k - 1, evictableSize, protectedSize, evictableLeaves);
        var len := |x| - |nodes[x].parent|;
        if k == 1 {
          evictableSize := evictableSize + len;
          protectedSize := protectedSize - len;
          delta := delta + len;
        }
        SetLockRef(x, k - 1);
        x := nodes[x].parent;
      }
      held := Without(held, i);
      ReleaseLock(t0, nodes, old(held), i);
      OnlyLocksWhenRelocked(t0, nodes, p, x, -1);
      OnlyLocksSameContents(t0, nodes, page);
      SizedIsConsistent(nodes, page, held, evictableSize, protectedSize, evictableLeaves);
      ConsistentIsValid();
    }

    method SetLockRef(x: Key, k: nat)
      requires x in nodes && x != []
      modifies this`nodes, this`evictableLeaves
      ensures nodes == SetLock(old(nodes), x, k) && x in nodes && nodes[x].parent == old(nodes[x].parent)
      ensures evictableLeaves == old(evictableLeaves) - {x} + if Evictable(nodes, x) then {x} else {}
    {
      nodes := nodes[x := nodes[x].(lockRef := k)];
      UpdateLeafStatus(x);
    }

    /** Frees unlocked leaves until `num` tokens are free or none is left; no held prefix is touched. */
    method Evict(num: int) returns (evicted: nat, freed: seq<int>)
      requires Valid()
      modifies this`nodes, this`evictableSize, this`evictableLeaves
      ensures Valid() && evicted == |freed|
      ensures evicted >= num || evictableSize == 0
      ensures old(evictableSize) == evictableSize + evicted
      ensures Shrunk(old(nodes), nodes, page) && Pruned(old(nodes), nodes)
      ensures num <= 0 ==> evicted == 0
      ensures evicted > 0 ==> exists x :: NeededLast(old(nodes), nodes, x, evicted, num)
      ensures forall i | 0 <= i < |held| :: held[i] in nodes
      ensures forall v :: old(Slots(nodes, v)) == Slots(nodes, v) + Occurs(freed, v)
    {
      hide *;
      ValidFacts();
      ghost var t0 := nodes;
      ShrunkRefl(nodes, page);
      ghost var lastGone: Key := [];
      evicted, freed := 0, [];
      NothingFreed();
      var heap := evictableLeaves;
      while evicted < num && heap != {}
        invariant Valid() && heap == evictableLeaves && evicted == |freed|
        invariant old(evictableSize) == evictableSize + evicted
        invariant WellFormed(nodes, page) && Shrunk(t0, nodes, page) && Pruned(t0, nodes)
        invariant evicted > 0 ==> NeededLast(t0, nodes, lastGone, evicted, num)
        invariant evicted > 0 ==> num > 0
        invariant forall v :: old(Slots(nodes, v)) == Slots(nodes, v) + Occurs(freed, v)
        decreases |nodes|
      {
        var x :| x in heap;
        ghost var before := nodes;
        ValidFacts();
        EvictStep(t0, nodes, page, held, evictableSize, protectedSize, evictableLeaves, x, freed);
        freed := freed + nodes[x].value;
        evicted := evicted + |nodes[x].value|;
        var d := nodes[x].parent;
        heap := heap - {x};
        DeleteLeaf(x);
        ConsistentIsValid();
        ValidFacts();
        if nodes[d].children == map[] && nodes[d].lockRef == 0 {
          heap := heap + {d};
        }
        ParentInHeap(before, nodes, page, held, x, d);
        lastGone := x;
        LastOneNeeded(t0, before, nodes, x, evicted, num);
      }
      ValidFacts();
      if heap == {} {
        NothingLeft(nodes, page, held);
      }
      AllHeldInTree(nodes, held);
    }

    method DeleteLeaf(x: Key)
      requires CanRemove(nodes, page, x) && [] in nodes && nodes[[]].lockRef > 0
      modifies this`nodes, this`evictableSize, this`evictableLeaves
      ensures nodes == RemoveLeaf(old(nodes), page, x)
      ensures evictableSize == old(evictableSize - (|x| - |nodes[x].parent|))
      ensures old(nodes[x].parent) in nodes
      ensures evictableLeaves == old(evictableLeaves) - {x} - {old(nodes[x].parent)}
                                 + if Evictable(nodes, old(nodes[x].parent)) then {old(nodes[x].parent)} else {}
    {
      hide PageAt;
      var d := nodes[x].parent;
      var file := nodes[d].children - {PageAt(x, |d|, page)};
      nodes := (nodes - {x})[d := nodes[d].(children := file)];
      evictableSize := evictableSize - (|x| - |d|);
      evictableLeaves := evictableLeaves - {x};
      UpdateLeafStatus(d);
    }

    lemma ValidFacts()
      requires Valid()
      ensures Consistent(nodes, page, held, evictableSize, protectedSize, evictableLeaves)
      ensures WellFormed(nodes, page) && page > 0
      ensures Locked(nodes, held) && evictableSize == Tokens(nodes, false) && protectedSize == Tokens(nodes, true)
      ensures evictableLeaves == Leaves(nodes)
      ensures Sized(nodes, evictableSize, protectedSize, evictableLeaves)
    {
    }

    lemma ConsistentIsValid()
      requires Consistent(nodes, page, held, evictableSize, protectedSize, evictableLeaves)
      ensures Valid()
    {
    }
  }

  lemma RootLocked(t: Tree, held: seq<Key>)
    requires Locked(t, held)
    ensures [] in t ==> t[[]].lockRef == 1
  {
  }

  // ----- Lock bookkeeping -----------------------------------------------------------------------

  lemma NotRelocked(t: Tree, p: Key, delta: int)
    ensures Relocked(t, t, p, p, delta)
  {
  }

  lemma OnlyLocksWhenRelocked(t0: Tree, t: Tree, p: Key, x: Key, delta: int)
    requires Relocked(t0, t, p, x, delta)
    ensures OnlyLocks(t0, t)
  {
  }

  ghost predicate Sized(t: Tree, free: int, kept: int, leaves: set<Key>) {
    free == Tokens(t, false) && kept == Tokens(t, true) && leaves == Leaves(t)
  }

  lemma SetLockSized(t: Tree, page: nat, x: Key, k: nat, free: int, kept: int, leaves: set<Key>)
    requires WellFormed(t, page) && x in t && x != [] && Sized(t, free, kept, leaves)
    ensures var t', len, lock := SetLock(t, x, k), |x| - |t[x].parent|, t[x].lockRef;
            var moved := if lock == 0 && k > 0 then -len else if lock > 0 && k == 0 then len else 0;
            Sized(t', free + moved, kept - moved, leaves - {x} + if Evictable(t', x) then {x} else {})
  {
    hide WellFormed, Tokens, Leaves, Evictable;
    NodeFacts(t, page, x);
    SetLockTokens(t, x, k, false);
    SetLockTokens(t, x, k, true);
    SetLockLeaves(t, x, k);
  }

  lemma SizedIsConsistent(t: Tree, page: nat, held: seq<Key>, free: int, kept: int, leaves: set<Key>)
    requires WellFormed(t, page) && Locked(t, held) && Sized(t, free, kept, leaves)
    ensures Consistent(t, page, held, free, kept, leaves)
  {
  }

  lemma TakeLock(t0: Tree, t: Tree, p: Key, held: seq<Key>)
    requires Relocked(t0, t, p, [], 1) && Locked(t0, held) && p in t0
    ensures Locked(t, held + [p])
  {
    hide Relocked, Locked, Holders;
    forall y: Key ensures Holders(held + [p], y) == Holders(held, y) + if y <= p then 1 else 0 {
      HoldersAppend(held, p, y);
    }
    RelockedAll(t0, t, p, 1, held, held + [p]);
  }

  lemma ReleaseLock(t0: Tree, t: Tree, held: seq<Key>, i: nat)
    requires i < |held| && Relocked(t0, t, held[i], [], -1) && Locked(t0, held)
    ensures Locked(t, Without(held, i))
  {
    HeldInTree(t0, held, i);
    hide Relocked, Locked, Holders;
    forall y: Key ensures Holders(Without(held, i), y) == Holders(held, y) + if y <= held[i] then -1 else 0 {
      HoldersWithout(held, i, y);
    }
    RelockedAll(t0, t, held[i], -1, held, Without(held, i));
  }

  lemma HeldInTree(t: Tree, held: seq<Key>, i: nat)
    requires Locked(t, held) && i < |held|
    ensures held[i] in t
  {
  }

  lemma AllHeldInTree(t: Tree, held: seq<Key>)
    requires Locked(t, held)
    ensures forall i | 0 <= i < |held| :: held[i] in t
  {
  }

  /** On the way up from a held node every counter is still positive. */
  lemma LockedOnPath(t0: Tree, t: Tree, held: seq<Key>, i: nat, x: Key)
    requires Locked(t0, held) && i < |held| && Relocked(t0, t, held[i], x, -1) && x in t && x != []
    ensures t[x].lockRef >= 1
  {
    hide Holders;
    HoldersOf(held, x, i);
  }

  // ----- Eviction ----------------------------------------------------------------------------------

  /** What `t'` still has, it has from `t`, node by node with the same slots. */
  ghost predicate Shrunk(t: Tree, t': Tree, page: nat)
    requires WellFormed(t, page) && WellFormed(t', page)
  {
    forall x | x in t' :: x in t && PathValue(t', page, x) == PathValue(t, page, x)
  }

  /** Only unlocked nodes are gone; the others have their segment and their locks. */
  ghost predicate Pruned(t: Tree, t': Tree) {
    && (forall x | x in t' :: x in t && t'[x].value == t[x].value && t'[x].lockRef == t[x].lockRef)
    && (forall x | x in t && x !in t' :: t[x].lockRef == 0)
  }

  /** Without node `x`, which is gone, less than `num` tokens would have been freed. */
  ghost predicate NeededLast(t: Tree, t': Tree, x: Key, evicted: nat, num: int) {
    x in t && x !in t' && evicted - |t[x].value| < num
  }

  lemma LastOneNeeded(t0: Tree, t: Tree, t': Tree, x: Key, evicted: nat, num: int)
    requires Pruned(t0, t) && x in t && x !in t' && evicted - |t[x].value| < num
    ensures NeededLast(t0, t', x, evicted, num)
  {
  }

  lemma RemovePrunes(t0: Tree, t: Tree, page: nat, x: Key)
    requires Pruned(t0, t) && CanRemove(t, page, x) && t[x].lockRef == 0
    ensures Pruned(t0, RemoveLeaf(t, page, x)) && x !in RemoveLeaf(t, page, x)
  {
    hide RemoveLeaf, PageAt;
    var t' := RemoveLeaf(t, page, x);
    RemoveNodes(t, page, x, x);
    forall y | y in t' ensures y in t0 && t'[y].value == t0[y].value && t'[y].lockRef == t0[y].lockRef {
      RemoveNodes(t, page, x, y);
    }
    forall y | y in t0 && y !in t' ensures t0[y].lockRef == 0 { RemoveNodes(t, page, x, y); }
  }

  lemma ShrunkRefl(t: Tree, page: nat)
    requires WellFormed(t, page)
    ensures Shrunk(t, t, page) && Pruned(t, t)
  {
  }

  lemma NothingFreed()
    ensures forall v :: Occurs([], v) == 0
  {
  }

  lemma FreedMore(freed: seq<int>, more: seq<int>, v: int)
    ensures Occurs(freed + more, v) == Occurs(freed, v) + Occurs(more, v)
  {
  }

  lemma RemoveShrinks(t0: Tree, t: Tree, page: nat, x: Key)
    requires WellFormed(t0, page) && WellFormed(t, page) && Shrunk(t0, t, page)
    requires CanRemove(t, page, x) && WellFormed(RemoveLeaf(t, page, x), page)
    ensures Shrunk(t0, RemoveLeaf(t, page, x), page)
    ensures |RemoveLeaf(t, page, x)| < |t|
  {
    hide WellFormed, PathValue, RemoveLeaf, CanRemove;
    var t' := RemoveLeaf(t, page, x);
    forall y | y in t' ensures y in t0 && PathValue(t', page, y) == PathValue(t0, page, y) {
      RemovePathValue(t, page, x, y);
    }
    Fewer(t, page, x);
  }

  lemma Fewer(t: Tree, page: nat, x: Key)
    requires CanRemove(t, page, x)
    ensures |RemoveLeaf(t, page, x)| < |t|
  {
    hide RemoveLeaf, PageAt;
    var t' := RemoveLeaf(t, page, x);
    forall y ensures y in t' <==> y in t && y != x { RemoveNodes(t, page, x, y); }
    assert t'.Keys == t.Keys - {x};
    assert |t'.Keys| < |t.Keys|;
  }

  lemma EvictStep(t0: Tree, t: Tree, page: nat, held: seq<Key>, free: int, kept: int, leaves: set<Key>, x: Key,
                  freed: seq<int>)
    requires WellFormed(t0, page) && WellFormed(t, page) && Shrunk(t0, t, page) && Pruned(t0, t)
    requires Consistent(t, page, held, free, kept, leaves) && x in leaves
    ensures CanRemove(t, page, x) && [] in t && t[[]].lockRef > 0 && x in t && x != [] && t[x].parent in t
    ensures Pruned(t0, RemoveLeaf(t, page, x)) && x !in RemoveLeaf(t, page, x)
    ensures var t', d := RemoveLeaf(t, page, x), t[x].parent;
            && d in t' && |x| - |d| == |t[x].value| && WellFormed(t', page) && Shrunk(t0, t', page) && |t'| < |t|
            && Consistent(t', page, held, free - (|x| - |d|), kept,
                          leaves - {x} - {d} + if Evictable(t', d) then {d} else {})
    ensures forall v :: Slots(t, v) + Occurs(freed, v) == Slots(RemoveLeaf(t, page, x), v) + Occurs(freed + t[x].value, v)
  {
    hide *;
    ConsistentFacts(t, page, held, free, kept, leaves);
    LeafIsRemovable(t, page, x);
    RemoveConsistent(t, page, held, free, kept, leaves, x);
    RootFacts(t, page);
    RootLocked(t, held);
    RemovedParent(t, page, x);
    NodeFacts(t, page, x);
    RemoveWellFormed(t, page, x);
    RemoveShrinks(t0, t, page, x);
    RemovePrunes(t0, t, page, x);
    forall v ensures Slots(t, v) + Occurs(freed, v)
                     == Slots(RemoveLeaf(t, page, x), v) + Occurs(freed + t[x].value, v) {
      RemoveSlots(t, page, x, v);
      FreedMore(freed, t[x].value, v);
    }
  }

  /** The parent of a removed leaf was no leaf, and is pushed exactly when it has become evictable. */
  lemma ParentInHeap(t: Tree, t': Tree, page: nat, held: seq<Key>, x: Key, d: Key)
    requires WellFormed(t, page) && x in t && x != [] && t[x].parent == d && d in t && d in t'
    requires Locked(t', held)
    ensures d !in Leaves(t)
    ensures Evictable(t', d) <==> t'[d].children == map[] && t'[d].lockRef == 0
  {
    hide WellFormed;
    NodeFacts(t, page, x);
  }

  lemma NothingLeft(t: Tree, page: nat, held: seq<Key>)
    requires WellFormed(t, page) && Locked(t, held) && Leaves(t) == {}
    ensures Tokens(t, false) == 0
  {
    hide WellFormed, Locked, Leaves, Tokens;
    if Tokens(t, false) > 0 {
      SomethingToEvict(t, page, held);
    }
  }

  // ----- What an insertion leaves behind ------------------------------------------------------

  /** `t'` holds what `t` holds, and the prefixes of `key`. */
  ghost predicate Extended(t: Tree, t': Tree, page: nat, key: Key)
    requires WellFormed(t, page) && WellFormed(t', page)
  {
    && key in t'
    && (forall s :: Covered(t', s) <==> Covered(t, s) || s <= key)
    && (forall s, v :: Holds(t', page, s, v) <==>
                       Holds(t, page, s, v) || (s <= key && v == PathValue(t', page, key)[..|s|]))
  }

  /** The first `n` slots of `key` were cached before, the others are those of `value`. */
  ghost predicate Filled(t: Tree, t': Tree, page: nat, key: Key, n: nat, value: seq<int>)
    requires WellFormed(t, page) && WellFormed(t', page) && n <= |key| <= |value|
  {
    && key in t'
    && var slots := PathValue(t', page, key);
       Holds(t, page, key[..n], slots[..n]) && slots[n..] == value[n..|key|]
  }

  lemma AddAtStop(t0: Tree, t: Tree, page: nat, d: Key, key: Key, vals: seq<int>, value: seq<int>)
    requires WellFormed(t0, page) && WellFormed(t, page) && SameContents(t0, t, page)
    requires page > 0 && d in t && d <= key && |d| + page <= |key| <= |value| && vals == value[|d|..|key|]
    requires Aligned(|key|, page) && PageAt(key, |d|, page) !in t[d].children
    ensures CanAdd(t, page, d, key, vals)
    ensures var t' := AddLeaf(t, page, d, key, vals);
            WellFormed(t', page) && Extended(t0, t', page, key) && Filled(t0, t', page, key, |d|, value)
    ensures forall v :: Slots(AddLeaf(t, page, d, key, vals), v) == Slots(t, v) + Occurs(vals, v)
  {
    hide WellFormed, Aligned, PageAt, AddLeaf, PathValue, Covered, Holds, Slots, Occurs;
    AddWellFormed(t, page, d, key, vals);
    AddPathValue(t, page, d, key, vals, d);
    var t' := AddLeaf(t, page, d, key, vals);
    forall s ensures Covered(t', s) <==> Covered(t0, s) || s <= key { AddHolds(t, page, d, key, vals, s, []); }
    forall s, v ensures Holds(t', page, s, v) <==>
                        Holds(t0, page, s, v) || (s <= key && v == PathValue(t', page, key)[..|s|]) {
      AddHolds(t, page, d, key, vals, s, v);
    }
    forall v ensures Slots(t', v) == Slots(t, v) + Occurs(vals, v) { AddSlots(t, page, d, key, vals, v); }
    ReadOff(t, page, d);
    assert key[..|d|] == d;
    assert PathValue(t', page, key)[..|d|] == PathValue(t, page, d);
  }

  lemma NothingToAdd(t0: Tree, t: Tree, page: nat, key: Key, value: seq<int>)
    requires WellFormed(t0, page) && WellFormed(t, page) && SameContents(t0, t, page)
    requires key in t && |key| <= |value|
    ensures Extended(t0, t, page, key) && Filled(t0, t, page, key, |key|, value)
    ensures forall v :: Occurs(value[|key|..|key|], v) == 0
  {
    hide WellFormed, PathValue, Aligned, PageAt;
    ReadOff(t, page, key);
    assert key[..|key|] == key && PathValue(t, page, key)[..|key|] == PathValue(t, page, key);
    forall s | s <= key ensures Covered(t, s) && Holds(t, page, s, PathValue(t, page, key)[..|s|]) {
    }
    assert value[|key|..|key|] == [];
  }

  // ----- Across operations -----------------------------------------------------------------------

  /** A match right after an insertion finds the whole key: the slots inserted, behind those cached before. */
  lemma MatchAfterInsert(t: Tree, t': Tree, page: nat, key: Key, n: nat, value: seq<int>, last: Key, slots: seq<int>)
    requires WellFormed(t, page) && WellFormed(t', page) && page > 0 && Aligned(|key|, page) && n <= |key| <= |value|
    requires Extended(t, t', page, key) && Filled(t, t', page, key, n, value)
    requires Longest(t', page, key, last) && Holds(t', page, last, slots)
    ensures last == key && |slots| == |key|
    ensures slots[n..] == value[n..|key|] && Holds(t, page, key[..n], slots[..n])
  {
    hide WellFormed, Aligned, PathValue, Holds;
    ReadOff(t', page, key);
    assert last == key;
    HoldsUnique(t', page, key, slots, PathValue(t', page, key));
  }

  /** Evicting takes nothing from a request that holds a lock: all its prefixes keep their slots. */
  lemma HeldPrefixSurvives(t: Tree, t': Tree, page: nat, held: seq<Key>, i: nat, s: Key, v: seq<int>)
    requires WellFormed(t, page) && WellFormed(t', page) && Shrunk(t, t', page) && Locked(t', held)
    requires i < |held| && s <= held[i] && Aligned(|s|, page)
    ensures Holds(t, page, s, v) <==> Holds(t', page, s, v)
  {
    hide WellFormed, Aligned, PathValue;
    HeldInTree(t', held, i);
    var kept := PathValue(t', page, held[i])[..|s|];
    assert held[i] in t && Holds(t, page, s, kept) && Holds(t', page, s, kept);
    if Holds(t, page, s, v) {
      HoldsUnique(t, page, s, v, kept);
    }
    if Holds(t', page, s, v) {
      HoldsUnique(t', page, s, v, kept);
    }
  }

  lemma EmptyTree(t: Tree, page: nat)
    requires page > 0 && t == map[[] := Node([], [], 1, map[])]
    ensures Consistent(t, page, [], 0, 0, {})
  {
    assert t.Keys == {[]};
    forall locked ensures Tokens(t, locked) == 0 {
      SumTake(t.Keys, Weights(t, locked), []);
    }
  }

  lemma RootFacts(t: Tree, page: nat)
    requires WellFormed(t, page)
    ensures [] in t && PathValue(t, page, []) == []
  {
  }

  lemma SameContentsRefl(t: Tree, page: nat)
    requires WellFormed(t, page)
    ensures SameContents(t, t, page)
  {
  }

  lemma SameHolds(t: Tree, t': Tree, page: nat, s: Key, v: seq<int>)
    requires WellFormed(t, page) && WellFormed(t', page) && SameContents(t, t', page) && Holds(t', page, s, v)
    ensures Holds(t, page, s, v)
  {
  }

  lemma ReadOff(t: Tree, page: nat, d: Key)
    requires WellFormed(t, page) && d in t
    ensures Holds(t, page, d, PathValue(t, page, d)) && Covered(t, d)
  {
    assert PathValue(t, page, d)[..|d|] == PathValue(t, page, d);
  }

  lemma EdgeMatchIs(q: Key, key: Key, n0: nat, page: nat)
    requires page > 0 && n0 <= |q| && n0 <= |key|
    ensures EdgeMatch(q, key, n0, page) == n0 + MatchLen(q[n0..], key[n0..], page)
  {
  }

  /** What one comparison along the walk settles: the walk ends inside the edge, or goes on below it. */
  lemma MatchStep(t: Tree, page: nat, key: Key, d: Key, q: Key)
    requires WellFormed(t, page) && page > 0 && d in t && d <= key && Aligned(|key|, page) && |d| + page <= |key|
    requires PageAt(key, |d|, page) in t[d].children && q == t[d].children[PageAt(key, |d|, page)]
    ensures q in t && q != [] && t[q].parent == d && d < q && |d| <= |key|
    ensures var m := MatchLen(q[|d|..], key[|d|..], page);
            && 0 < m <= |q| - |d| && |d| + m <= |key| && q[..|d| + m] == key[..|d| + m]
            && (m < |q| - |d| ==> CanSplit(t, page, q, |d| + m) && Longest(t, page, key, q[..|d| + m]))
            && (m == |q| - |d| ==> q <= key && PathValue(t, page, q) == PathValue(t, page, d) + t[q].value
                                   && (|q| < |key| ==> |q| + page <= |key|))
  {
    hide *;
    StepFacts(t, page, key, d);
    EdgeMatchIs(q, key, |d|, page);
    var m := MatchLen(q[|d|..], key[|d|..], page);
    if m < |q| - |d| {
      DivergesInEdge(t, page, key, d, q, |d| + m);
    } else {
      PathValueStep(t, page, q);
      StillAligned(t, page, key, q);
    }
  }

  lemma StillAligned(t: Tree, page: nat, key: Key, d: Key)
    requires WellFormed(t, page) && page > 0 && d in t && d <= key && Aligned(|key|, page)
    ensures |d| < |key| ==> |d| + page <= |key|
  {
    NodeFacts(t, page, d);
    if |d| < |key| {
      AlignedPages(key, d, page);
    }
  }

  /** Without a child on the way, the walk has reached the longest cached prefix. */
  lemma StopsHere(t: Tree, page: nat, key: Key, d: Key)
    requires WellFormed(t, page) && page > 0 && d in t && d <= key && Aligned(|key|, page)
    requires |d| + page <= |key| ==> PageAt(key, |d|, page) !in t[d].children
    ensures Longest(t, page, key, d)
  {
    hide WellFormed, Aligned, PageAt, Longest;
    StoppedAtLongest(t, page, key, d);
  }
}
