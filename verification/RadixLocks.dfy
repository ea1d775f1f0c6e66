/** Locks and sizes of the radix tree (python/sglang/srt/mem_cache/radix_cache.py). A running request
    holds the node its prefix ends in; every node counts the holders at or below it, and the
    cache keeps the number of unlocked and of locked tokens. */
module RadixLocks {
  import opened Common
  import opened Pages
  import opened RadixTree

  import opened RadixOps

  // ----- Holders ---------------------------------------------------------------------------

  /** How many held nodes are at or below `p`. */
  function Holders(held: seq<Key>, p: Key): nat {
    if held == [] then 0
    else Holders(held[..|held| - 1], p) + if p <= held[|held| - 1] then 1 else 0
  }

  /** Lock counters tell the truth, and held nodes are in the tree. */
  ghost predicate Locked(t: Tree, held: seq<Key>) {
    && (forall p | p in t && p != [] :: t[p].lockRef == Holders(held, p))
    && (forall i | 0 <= i < |held| :: held[i] in t)
    && ([] in t ==> t[[]].lockRef == 1)
  }

  lemma {:induction false} HoldersSame(held: seq<Key>, p: Key, q: Key)
    requires forall i | 0 <= i < |held| :: p <= held[i] <==> q <= held[i]
    ensures Holders(held, p) == Holders(held, q)
  {
    if held != [] {
      HoldersSame(held[..|held| - 1], p, q);
    }
  }

  lemma {:induction false} NoHolders(held: seq<Key>, p: Key)
    requires forall i | 0 <= i < |held| :: !(p <= held[i])
    ensures Holders(held, p) == 0
  {
    if held != [] {
      NoHolders(held[..|held| - 1], p);
    }
  }

  lemma {:induction false} HoldersOf(held: seq<Key>, p: Key, i: nat)
    requires i < |held| && p <= held[i]
    ensures Holders(held, p) >= 1
  {
    if i < |held| - 1 {
      HoldersOf(held[..|held| - 1], p, i);
    }
  }

  /** A node below has no more holders than a node above. */
  lemma {:induction false} FewerBelow(held: seq<Key>, d: Key, p: Key)
    requires d <= p
    ensures Holders(held, p) <= Holders(held, d)
  {
    if held != [] {
      FewerBelow(held[..|held| - 1], d, p);
      if p <= held[|held| - 1] {
        assert d <= held[|held| - 1];
      }
    }
  }

  lemma HoldersAppend(held: seq<Key>, h: Key, p: Key)
    ensures Holders(held + [h], p) == Holders(held, p) + if p <= h then 1 else 0
  {
    assert (held + [h])[..|held|] == held;
  }

  lemma {:induction false} HoldersWithout(held: seq<Key>, i: nat, p: Key)
    requires i < |held|
    ensures Holders(held, p) == Holders(Without(held, i), p) + if p <= held[i] then 1 else 0
  {
    hide Without;
    var n := |held| - 1;
    WithoutSnoc(held, i);
    if i < n {
      HoldersWithout(held[..n], i, p);
      HoldersAppend(Without(held[..n], i), held[n], p);
    }
  }

  // ----- Tree changes and locks ---------------------------------------------------------------

  /** A held node below the upper half of a split edge is below the lower half too. */
  lemma BelowSplit(t: Tree, page: nat, q: Key, n: nat, h: Key)
    requires WellFormed(t, page) && CanSplit(t, page, q, n) && h in t
    ensures q[..n] <= h <==> q <= h
  {
    hide WellFormed, Aligned, PageAt;
    var d, u := t[q].parent, q[..n];
    SplitNames(t, page, q, n);
    if u <= h {
      assert u != h && d < h;
      ChildToward(t, page, d, h);
      PageOfPrefix(u, h, |d|, page);
      NodeFacts(t, page, q);
    }
  }

  lemma SplitKeepsLocks(t: Tree, page: nat, q: Key, n: nat, held: seq<Key>)
    requires WellFormed(t, page) && CanSplit(t, page, q, n) && Locked(t, held)
    ensures Locked(Split(t, page, q, n), held)
  {
    hide WellFormed, Split, Aligned, PageAt, Holders;
    var t', u := Split(t, page, q, n), q[..n];
    forall i | 0 <= i < |held| ensures held[i] in t' { SplitNodes(t, page, q, n, held[i]); }
    SplitNodes(t, page, q, n, []);
    SplitNames(t, page, q, n);
    forall p | p in t' && p != [] ensures t'[p].lockRef == Holders(held, p) {
      SplitNodes(t, page, q, n, p);
      if p == u {
        forall i | 0 <= i < |held| ensures u <= held[i] <==> q <= held[i] { BelowSplit(t, page, q, n, held[i]); }
        HoldersSame(held, u, q);
      }
    }
  }

  lemma AddKeepsLocks(t: Tree, page: nat, d: Key, key: Key, vals: seq<int>, held: seq<Key>)
    requires WellFormed(t, page) && CanAdd(t, page, d, key, vals) && Locked(t, held)
    ensures Locked(AddLeaf(t, page, d, key, vals), held)
  {
    hide WellFormed, AddLeaf, Aligned, PageAt, Holders;
    var t' := AddLeaf(t, page, d, key, vals);
    forall i | 0 <= i < |held| ensures held[i] in t' && !(key <= held[i]) {
      AddNodes(t, page, d, key, vals, held[i]);
      if key <= held[i] {
        ChildToward(t, page, d, held[i]);
        PageOfPrefix(key, held[i], |d|, page);
      }
    }
    AddNodes(t, page, d, key, vals, []);
    NoHolders(held, key);
    forall p | p in t' && p != [] ensures t'[p].lockRef == Holders(held, p) {
      AddNodes(t, page, d, key, vals, p);
    }
  }

  lemma RemoveKeepsLocks(t: Tree, page: nat, p: Key, held: seq<Key>)
    requires WellFormed(t, page) && CanRemove(t, page, p) && Locked(t, held) && t[p].lockRef == 0
    ensures Locked(RemoveLeaf(t, page, p), held)
  {
    hide WellFormed, RemoveLeaf, Aligned, PageAt, Holders;
    var t' := RemoveLeaf(t, page, p);
    forall i | 0 <= i < |held| ensures held[i] in t' {
      RemoveNodes(t, page, p, held[i]);
      if held[i] == p {
        HoldersOf(held, p, i);
      }
    }
    RemoveNodes(t, page, p, []);
    forall x | x in t' && x != [] ensures t'[x].lockRef == Holders(held, x) {
      RemoveNodes(t, page, p, x);
    }
  }

  // ----- Sizes ------------------------------------------------------------------------------------

  ghost function SumOver(keys: set<Key>, w: map<Key, nat>): nat
    requires keys <= w.Keys
  {
    if keys == {} then 0
    else
      var p :| p in keys;
      w[p] + SumOver(keys - {p}, w)
  }

  lemma {:induction false} SumTake(keys: set<Key>, w: map<Key, nat>, x: Key)
    requires keys <= w.Keys && x in keys
    ensures SumOver(keys, w) == w[x] + SumOver(keys - {x}, w)
    decreases keys
  {
    var p :| p in keys && SumOver(keys, w) == w[p] + SumOver(keys - {p}, w);
    if p != x {
      SumTake(keys - {p}, w, x);
      SumTake(keys - {x}, w, p);
      assert keys - {p} - {x} == keys - {x} - {p};
    }
  }

  lemma {:induction false} SumSame(keys: set<Key>, w: map<Key, nat>, w': map<Key, nat>)
    requires keys <= w.Keys && keys <= w'.Keys && forall p | p in keys :: w[p] == w'[p]
    ensures SumOver(keys, w) == SumOver(keys, w')
    decreases keys
  {
    if p :| p in keys {
      SumTake(keys, w, p);
      SumTake(keys, w', p);
      SumSame(keys - {p}, w, w');
    }
  }

  lemma {:induction false} SumPositive(keys: set<Key>, w: map<Key, nat>)
    requires keys <= w.Keys && SumOver(keys, w) > 0
    ensures exists p :: p in keys && w[p] > 0
    decreases keys
  {
    if p :| p in keys {
      SumTake(keys, w, p);
      if w[p] == 0 {
        SumPositive(keys - {p}, w);
      }
    }
  }

  /** The tokens of a node, if it is locked or not as asked. */
  function WeightOf(n: Node, p: Key, locked: bool): nat {
    if p != [] && (n.lockRef > 0) == locked then |n.value| else 0
  }

  function Weights(t: Tree, locked: bool): (w: map<Key, nat>)
    ensures w.Keys == t.Keys
  {
    map p | p in t :: WeightOf(t[p], p, locked)
  }

  /** Tokens in locked, or in unlocked, nodes. */
  ghost function Tokens(t: Tree, locked: bool): nat {
    SumOver(t.Keys, Weights(t, locked))
  }

  lemma SplitTokens(t: Tree, page: nat, q: Key, n: nat, locked: bool)
    requires WellFormed(t, page) && CanSplit(t, page, q, n)
    ensures Tokens(Split(t, page, q, n), locked) == Tokens(t, locked)
  {
    hide WellFormed, Split, Aligned, PageAt, SumOver;
    var t', d, u := Split(t, page, q, n), t[q].parent, q[..n];
    SplitNames(t, page, q, n);
    var w, w' := Weights(t, locked), Weights(t', locked);
    forall p ensures p in t' <==> p in t || p == u { SplitNodes(t, page, q, n, p); }
    assert t'.Keys == t.Keys + {u};
    var rest := t.Keys - {q};
    assert t'.Keys - {u} == t.Keys && t'.Keys - {u} - {q} == rest;
    SumTake(t.Keys, w, q);
    SumTake(t'.Keys, w', u);
    SumTake(t'.Keys - {u}, w', q);
    SplitNodes(t, page, q, n, u);
    SplitNodes(t, page, q, n, q);
    assert w'[u] + w'[q] == w[q];
    forall p | p in rest ensures w[p] == w'[p] { SplitNodes(t, page, q, n, p); }
    SumSame(rest, w, w');
  }

  lemma AddTokens(t: Tree, page: nat, d: Key, key: Key, vals: seq<int>, locked: bool)
    requires WellFormed(t, page) && CanAdd(t, page, d, key, vals)
    ensures Tokens(AddLeaf(t, page, d, key, vals), locked) == Tokens(t, locked) + if locked then 0 else |vals|
  {
    hide WellFormed, AddLeaf, Aligned, PageAt, SumOver;
    var t' := AddLeaf(t, page, d, key, vals);
    var w, w' := Weights(t, locked), Weights(t', locked);
    forall p ensures p in t' <==> p in t || p == key { AddNodes(t, page, d, key, vals, p); }
    AddNodes(t, page, d, key, vals, key);
    assert t'.Keys == t.Keys + {key} && t'.Keys - {key} == t.Keys;
    SumTake(t'.Keys, w', key);
    forall p | p in t.Keys ensures w[p] == w'[p] { AddNodes(t, page, d, key, vals, p); }
    SumSame(t.Keys, w, w');
  }

  lemma RemoveTokens(t: Tree, page: nat, p: Key, locked: bool)
    requires CanRemove(t, page, p)
    ensures Tokens(t, locked) == Tokens(RemoveLeaf(t, page, p), locked) + WeightOf(t[p], p, locked)
  {
    hide RemoveLeaf, Aligned, PageAt, SumOver;
    var t' := RemoveLeaf(t, page, p);
    var w, w' := Weights(t, locked), Weights(t', locked);
    forall x ensures x in t' <==> x in t && x != p { RemoveNodes(t, page, p, x); }
    assert t'.Keys == t.Keys - {p};
    SumTake(t.Keys, w, p);
    forall x | x in t'.Keys ensures w[x] == w'[x] { RemoveNodes(t, page, p, x); }
    SumSame(t'.Keys, w, w');
  }

  // ----- Slots ------------------------------------------------------------------------------------

  /** How often `v` occurs in `s`. */
  function Occurs(s: seq<int>, v: int): nat { multiset(s)[v] }

  function SlotWeights(t: Tree, v: int): (w: map<Key, nat>)
    ensures w.Keys == t.Keys
  {
    map p | p in t :: Occurs(t[p].value, v)
  }

  /** How often slot `v` is stored in the tree. */
  ghost function Slots(t: Tree, v: int): nat {
    SumOver(t.Keys, SlotWeights(t, v))
  }

  lemma SlotsOfParts(s: seq<int>, k: nat, v: int)
    requires k <= |s|
    ensures Occurs(s, v) == Occurs(s[..k], v) + Occurs(s[k..], v)
  {
    assert s == s[..k] + s[k..];
  }

  lemma SplitSlots(t: Tree, page: nat, q: Key, n: nat, v: int)
    requires WellFormed(t, page) && CanSplit(t, page, q, n)
    ensures Slots(Split(t, page, q, n), v) == Slots(t, v)
  {
    hide WellFormed, Split, Aligned, PageAt, SumOver, Occurs;
    var t', d, u := Split(t, page, q, n), t[q].parent, q[..n];
    SplitNames(t, page, q, n);
    var w, w' := SlotWeights(t, v), SlotWeights(t', v);
    forall p ensures p in t' <==> p in t || p == u { SplitNodes(t, page, q, n, p); }
    var rest := t.Keys - {q};
    assert t'.Keys - {u} == t.Keys && t'.Keys - {u} - {q} == rest;
    SumTake(t.Keys, w, q);
    SumTake(t'.Keys, w', u);
    SumTake(t'.Keys - {u}, w', q);
    SplitNodes(t, page, q, n, u);
    SplitNodes(t, page, q, n, q);
    SlotsOfParts(t[q].value, n - |d|, v);
    forall p | p in rest ensures w[p] == w'[p] { SplitNodes(t, page, q, n, p); }
    SumSame(rest, w, w');
  }

  lemma AddSlots(t: Tree, page: nat, d: Key, key: Key, vals: seq<int>, v: int)
    requires WellFormed(t, page) && CanAdd(t, page, d, key, vals)
    ensures Slots(AddLeaf(t, page, d, key, vals), v) == Slots(t, v) + Occurs(vals, v)
  {
    hide WellFormed, AddLeaf, Aligned, PageAt, SumOver, Occurs;
    var t' := AddLeaf(t, page, d, key, vals);
    var w, w' := SlotWeights(t, v), SlotWeights(t', v);
    forall p ensures p in t' <==> p in t || p == key { AddNodes(t, page, d, key, vals, p); }
    AddNodes(t, page, d, key, vals, key);
    assert t'.Keys - {key} == t.Keys;
    SumTake(t'.Keys, w', key);
    forall p | p in t.Keys ensures w[p] == w'[p] { AddNodes(t, page, d, key, vals, p); }
    SumSame(t.Keys, w, w');
  }

  lemma RemoveSlots(t: Tree, page: nat, p: Key, v: int)
    requires CanRemove(t, page, p)
    ensures Slots(t, v) == Slots(RemoveLeaf(t, page, p), v) + Occurs(t[p].value, v)
  {
    hide RemoveLeaf, Aligned, PageAt, SumOver, Occurs;
    var t' := RemoveLeaf(t, page, p);
    var w, w' := SlotWeights(t, v), SlotWeights(t', v);
    forall x ensures x in t' <==> x in t && x != p { RemoveNodes(t, page, p, x); }
    assert t'.Keys == t.Keys - {p};
    SumTake(t.Keys, w, p);
    forall x | x in t'.Keys ensures w[x] == w'[x] { RemoveNodes(t, page, p, x); }
    SumSame(t'.Keys, w, w');
  }

  // ----- Changing a lock counter --------------------------------------------------------------------

  function SetLock(t: Tree, x: Key, k: nat): Tree
    requires x in t
  {
    t[x := t[x].(lockRef := k)]
  }

  lemma SetLockWellFormed(t: Tree, page: nat, x: Key, k: nat)
    requires WellFormed(t, page) && x in t
    ensures WellFormed(SetLock(t, x, k), page)
  {
    hide Aligned, PageAt;
    var t' := SetLock(t, x, k);
    assert t'.Keys == t.Keys;
    forall p | p in t' ensures Attached(t', page, p) { assert Attached(t, page, p); }
    forall p | p in t' ensures Filed(t', page, p) { assert Filed(t, page, p); }
  }

  lemma SetLockTokens(t: Tree, x: Key, k: nat, locked: bool)
    requires x in t
    ensures Tokens(SetLock(t, x, k), locked) + WeightOf(t[x], x, locked)
            == Tokens(t, locked) + WeightOf(SetLock(t, x, k)[x], x, locked)
  {
    hide SumOver;
    var t' := SetLock(t, x, k);
    var w, w' := Weights(t, locked), Weights(t', locked);
    assert t'.Keys == t.Keys;
    SumTake(t.Keys, w, x);
    SumTake(t'.Keys, w', x);
    SumSame(t.Keys - {x}, w, w');
  }
}
