/** Who owns a KV slot (python/sglang/srt/mem_cache/radix_cache.py): the free pool, the prefix cache, or the private
    tail of one running request. A request's row begins with the slots of its locked prefix, which belong to
    the cache; what follows is its own until it is handed to the cache or freed. */
module SlotOwnership {
  import opened Common
  import opened Pages
  import opened RadixTree
  import opened RadixOps
  import opened RadixLocks
  import opened RadixWalk
  import opened RadixCache

  /** A running request: its tokens, its row of slots, and how much of the row the cache owns. */
  datatype Req = Req(key: Key, row: seq<int>, protectedLen: nat, lastNode: Key)

  /** The slots that the request alone answers for. */
  function Tail(r: Req): seq<int> {
    if r.protectedLen <= |r.row| then r.row[r.protectedLen..] else []
  }

  /** How often slot `v` is in some private tail. */
  function Tails(reqs: seq<Req>, v: int): nat {
    if reqs == [] then 0 else Tails(reqs[..|reqs| - 1], v) + Occurs(Tail(reqs[|reqs| - 1]), v)
  }

  /** The protected part of the row is what the cache holds for the locked prefix. */
  ghost predicate Settled(t: Tree, page: nat, r: Req)
    requires WellFormed(t, page)
  {
    && |r.key| == |r.row| && r.protectedLen <= |r.row|
    && r.lastNode in t && r.lastNode == r.key[..r.protectedLen]
    && r.row[..r.protectedLen] == PathValue(t, page, r.lastNode)
  }

  /** Request `i` holds lock `i`, and every slot of the pool is accounted for. */
  ghost predicate Accounted(t: Tree, page: nat, held: seq<Key>, free: multiset<int>, reqs: seq<Req>, total: multiset<int>) {
    && WellFormed(t, page) && |reqs| == |held|
    && (forall i | 0 <= i < |reqs| :: Settled(t, page, reqs[i]) && reqs[i].lastNode == held[i])
    && (forall v :: free[v] + Slots(t, v) + Tails(reqs, v) == total[v])
  }

  // ----- Tails ----------------------------------------------------------------------------------

  lemma TailsAppend(reqs: seq<Req>, r: Req, v: int)
    ensures Tails(reqs + [r], v) == Tails(reqs, v) + Occurs(Tail(r), v)
  {
    hide Occurs, Tail;
    assert (reqs + [r])[..|reqs|] == reqs;
  }

  lemma {:induction false} TailsWithout(reqs: seq<Req>, i: nat, v: int)
    requires i < |reqs|
    ensures Tails(reqs, v) == Tails(Without(reqs, i), v) + Occurs(Tail(reqs[i]), v)
  {
    hide Without, Occurs, Tail;
    var n := |reqs| - 1;
    WithoutSnoc(reqs, i);
    if i < n {
      TailsWithout(reqs[..n], i, v);
      TailsAppend(Without(reqs[..n], i), reqs[n], v);
    }
  }

  lemma {:induction false} TailsUpdate(reqs: seq<Req>, i: nat, r: Req, v: int)
    requires i < |reqs|
    ensures Tails(reqs[i := r], v) + Occurs(Tail(reqs[i]), v) == Tails(reqs, v) + Occurs(Tail(r), v)
  {
    hide Occurs, Tail;
    var n := |reqs| - 1;
    if i < n {
      TailsUpdate(reqs[..n], i, r, v);
      assert reqs[i := r][..n] == reqs[..n][i := r];
    } else {
      assert reqs[i := r][..n] == reqs[..n];
    }
  }

  lemma OccursConcat(a: seq<int>, b: seq<int>, v: int)
    ensures Occurs(a + b, v) == Occurs(a, v) + Occurs(b, v)
  {
  }

  // ----- Requests are not disturbed -----------------------------------------------------------------

  /** What the cache holds for `p` it still holds in `t'`. */
  ghost predicate StillHolds(t: Tree, t': Tree, page: nat, p: Key)
    requires WellFormed(t, page) && WellFormed(t', page)
  {
    p in t' && forall v :: Holds(t, page, p, v) ==> Holds(t', page, p, v)
  }

  lemma StaysSettled(t: Tree, t': Tree, page: nat, r: Req)
    requires WellFormed(t, page) && WellFormed(t', page) && Settled(t, page, r) && StillHolds(t, t', page, r.lastNode)
    ensures Settled(t', page, r)
  {
    hide WellFormed, PathValue, Holds, Aligned;
    var p := r.lastNode;
    NodeFacts(t, page, p);
    ReadOff(t, page, p);
    ReadOff(t', page, p);
    HoldsUnique(t', page, p, PathValue(t, page, p), PathValue(t', page, p));
  }

  /** A change of the tree that takes nothing from the requests, and moves slots between tree and pool. */
  lemma TreeChanges(t: Tree, t': Tree, page: nat, held: seq<Key>, free: multiset<int>, free': multiset<int>,
                    reqs: seq<Req>, total: multiset<int>)
    requires Accounted(t, page, held, free, reqs, total) && WellFormed(t', page)
    requires forall i | 0 <= i < |held| :: StillHolds(t, t', page, held[i])
    requires forall v :: free[v] + Slots(t, v) == free'[v] + Slots(t', v)
    ensures Accounted(t', page, held, free', reqs, total)
  {
    hide WellFormed, Settled, StillHolds, Slots, Tails;
    forall i | 0 <= i < |reqs| ensures Settled(t', page, reqs[i]) {
      assert StillHolds(t, t', page, held[i]);
      StaysSettled(t, t', page, reqs[i]);
    }
  }

  lemma SameContentsStillHolds(t: Tree, t': Tree, page: nat, held: seq<Key>)
    requires WellFormed(t, page) && WellFormed(t', page) && SameContents(t, t', page)
    requires forall i | 0 <= i < |held| :: held[i] in t'
    ensures forall i | 0 <= i < |held| :: StillHolds(t, t', page, held[i])
  {
    hide WellFormed, Holds, Covered;
  }

  lemma ExtendedStillHolds(t: Tree, t': Tree, page: nat, key: Key, held: seq<Key>)
    requires WellFormed(t, page) && WellFormed(t', page) && Extended(t, t', page, key)
    requires forall i | 0 <= i < |held| :: held[i] in t'
    ensures forall i | 0 <= i < |held| :: StillHolds(t, t', page, held[i])
  {
    hide WellFormed, Holds, Covered, PathValue;
  }

  lemma ShrunkStillHolds(t: Tree, t': Tree, page: nat, held: seq<Key>)
    requires WellFormed(t, page) && WellFormed(t', page) && Shrunk(t, t', page) && Locked(t', held)
    ensures forall i | 0 <= i < |held| :: StillHolds(t, t', page, held[i])
  {
    hide WellFormed, PathValue, Aligned, Holds;
    forall i | 0 <= i < |held| ensures StillHolds(t, t', page, held[i]) {
      HeldInTree(t', held, i);
      NodeFacts(t', page, held[i]);
      forall v ensures Holds(t, page, held[i], v) ==> Holds(t', page, held[i], v) {
        HeldPrefixSurvives(t, t', page, held, i, held[i], v);
      }
    }
  }

  // ----- Exactly one owner ------------------------------------------------------------------------------

  /** Slot `v` is in the tail of request `i`. */
  predicate InTail(reqs: seq<Req>, i: nat, v: int) { i < |reqs| && Occurs(Tail(reqs[i]), v) > 0 }

  lemma {:induction false} SomeTail(reqs: seq<Req>, v: int) returns (i: nat)
    requires Tails(reqs, v) > 0
    ensures InTail(reqs, i, v)
  {
    hide Occurs, Tail;
    var n := |reqs| - 1;
    if Occurs(Tail(reqs[n]), v) > 0 {
      i := n;
    } else {
      i := SomeTail(reqs[..n], v);
    }
  }

  lemma TwoTails(reqs: seq<Req>, i: nat, j: nat, v: int)
    requires InTail(reqs, i, v) && InTail(reqs, j, v) && i < j
    ensures Tails(reqs, v) >= 2
  {
    hide Occurs, Tail;
    TailsWithout(reqs, j, v);
    TailsWithout(Without(reqs, j), i, v);
  }

  /** A slot that exists once is free, in the cache, or in the tail of exactly one request, and in only one of these. */
  lemma OneOwner(t: Tree, page: nat, held: seq<Key>, free: multiset<int>, reqs: seq<Req>, total: multiset<int>, v: int)
    requires Accounted(t, page, held, free, reqs, total) && total[v] == 1
    ensures free[v] == 1 || Slots(t, v) == 1 || exists i: nat :: InTail(reqs, i, v)
    ensures free[v] > 0 ==> Slots(t, v) == 0 && forall i: nat :: !InTail(reqs, i, v)
    ensures Slots(t, v) > 0 ==> forall i: nat :: !InTail(reqs, i, v)
    ensures forall i: nat, j: nat | InTail(reqs, i, v) && InTail(reqs, j, v) :: i == j && Occurs(Tail(reqs[i]), v) == 1
  {
    hide WellFormed, Settled, Slots, Tails, Occurs, Tail;
    if Tails(reqs, v) > 0 {
      var i := SomeTail(reqs, v);
    }
    forall i: nat | InTail(reqs, i, v) ensures Tails(reqs, v) >= Occurs(Tail(reqs[i]), v) > 0 { TailsWithout(reqs, i, v); }
    forall i: nat, j: nat | InTail(reqs, i, v) && InTail(reqs, j, v) ensures i == j {
      if i < j {
        TwoTails(reqs, i, j, v);
      } else if j < i {
        TwoTails(reqs, j, i, v);
      }
    }
  }

  // ----- One request is handed to the cache ---------------------------------------------------------------

  lemma AlignedTwice(key: Key, page: nat)
    requires page > 0
    ensures PageAligned(PageAligned(key, page), page) == PageAligned(key, page)
  {
    var a := PageAligned(key, page);
    var b := PageAligned(a, page);
    assert a <= a && a <= b;
  }

  /** The locked prefix was cached, so an insertion reports at least that much. */
  lemma ProtectedIsCached(t: Tree, page: nat, r: Req, prefixLen: nat)
    requires WellFormed(t, page) && page > 0 && Settled(t, page, r)
    requires var full := PageAligned(r.key, page); prefixLen <= |full| && Longest(t, page, full, full[..prefixLen])
    ensures r.protectedLen <= prefixLen && r.lastNode <= PageAligned(r.key, page)
  {
    hide WellFormed, PathValue, Aligned, PageAligned;
    NodeFacts(t, page, r.lastNode);
    ReadOff(t, page, r.lastNode);
    assert r.lastNode <= r.key;
  }

  /** The slots of a row between two positions. */
  function Segment(r: Req, lo: nat, hi: nat): seq<int> {
    if lo <= hi <= |r.row| then r.row[lo..hi] else []
  }

  /** A private tail, cut where the cache's prefix and the aligned key end. */
  lemma TailParts(r: Req, a: nat, b: nat, v: int)
    requires r.protectedLen <= a <= b <= |r.row|
    ensures Occurs(Tail(r), v)
            == Occurs(Segment(r, r.protectedLen, a), v) + Occurs(Segment(r, a, b), v) + Occurs(Segment(r, b, |r.row|), v)
  {
    hide Occurs;
    var p := r.protectedLen;
    var x, y, z := r.row[p..a], r.row[a..b], r.row[b..];
    assert Tail(r) == x + y + z;
    OccursConcat(x + y, z, v);
    OccursConcat(x, y, v);
    assert r.row[b..|r.row|] == z;
  }

  /** The row rewritten to the cache's slots up to the end of the aligned key. */
  function Rewritten(r: Req, slots: seq<int>, last: Key): Req
    requires r.protectedLen <= |slots| <= |r.row|
  {
    r.(row := r.row[..r.protectedLen] + slots[r.protectedLen..] + r.row[|slots|..],
       protectedLen := |slots|, lastNode := last)
  }

  lemma RewrittenSettled(t: Tree, page: nat, r: Req, slots: seq<int>, last: Key)
    requires WellFormed(t, page) && Settled(t, page, r) && last in t && slots == PathValue(t, page, last)
    requires r.lastNode <= last <= r.key
    ensures r.protectedLen <= |slots| <= |r.row| && Settled(t, page, Rewritten(r, slots, last))
    ensures Tail(Rewritten(r, slots, last)) == Segment(r, |slots|, |r.row|)
    ensures Rewritten(r, slots, last) == Req(r.key, slots + r.row[|slots|..], |slots|, last)
  {
    hide WellFormed, PathValue;
    PathValuePrefix(t, page, r.lastNode, last);
    var p := r.protectedLen;
    assert slots[..p] == r.row[..p];
    var row := r.row[..p] + slots[p..] + r.row[|slots|..];
    assert row == slots + r.row[|slots|..];
    assert row[..|slots|] == slots && row[|slots|..] == r.row[|slots|..];
  }

  lemma OnlyLocksSlots(t: Tree, t': Tree, v: int)
    requires OnlyLocks(t, t')
    ensures Slots(t', v) == Slots(t, v)
  {
    hide SumOver, Occurs;
    SumSame(t.Keys, SlotWeights(t, v), SlotWeights(t', v));
  }

  /** Locking and unlocking leave the accounts alone. */
  lemma LocksChange(t: Tree, t': Tree, page: nat, held: seq<Key>, free: multiset<int>, reqs: seq<Req>, total: multiset<int>)
    requires Accounted(t, page, held, free, reqs, total) && WellFormed(t', page) && OnlyLocks(t, t')
    requires SameContents(t, t', page)
    ensures Accounted(t', page, held, free, reqs, total)
  {
    hide WellFormed, Slots, Tails, SameContents, StillHolds;
    forall i | 0 <= i < |held| ensures held[i] in t' { assert Settled(t, page, reqs[i]); }
    SameContentsStillHolds(t, t', page, held);
    forall v ensures free[v] + Slots(t, v) == free[v] + Slots(t', v) { OnlyLocksSlots(t, t', v); }
    hide Accounted, OnlyLocks;
    TreeChanges(t, t', page, held, free, free, reqs, total);
  }

  /** A request leaves: the cache may have taken the part of its tail from `a` to `b`, the pool gets the rest. */
  lemma RequestLeaves(t: Tree, t': Tree, page: nat, held: seq<Key>, free: multiset<int>, reqs: seq<Req>,
                      total: multiset<int>, i: nat, a: nat, b: nat)
    requires Accounted(t, page, held, free, reqs, total) && WellFormed(t', page) && i < |reqs|
    requires forall j | 0 <= j < |held| :: StillHolds(t, t', page, held[j])
    requires reqs[i].protectedLen <= a <= b <= |reqs[i].row|
    requires forall v :: Slots(t', v) == Slots(t, v) + Occurs(Segment(reqs[i], a, b), v)
    ensures i < |held|
    ensures var r := reqs[i];
            Accounted(t', page, Without(held, i), free + multiset(Freed(r, a, b)), Without(reqs, i), total)
  {
    hide WellFormed, Settled, StillHolds, Slots, Tails, Occurs, Segment, Freed;
    var r, held', reqs' := reqs[i], Without(held, i), Without(reqs, i);
    forall j | 0 <= j < |reqs'| ensures Settled(t', page, reqs'[j]) && reqs'[j].lastNode == held'[j] {
      var k := if j < i then j else j + 1;
      assert reqs'[j] == reqs[k] && held'[j] == held[k];
      assert StillHolds(t, t', page, held[k]);
      StaysSettled(t, t', page, reqs[k]);
    }
    forall v ensures (free + multiset(Freed(r, a, b)))[v] + Slots(t', v) + Tails(reqs', v) == total[v] {
      TailsWithout(reqs, i, v);
      TailParts(r, a, b, v);
      FreedParts(r, a, b, v);
      OccursIs(Freed(r, a, b), v);
    }
  }

  /** The tail without its part from `a` to `b`. */
  function Freed(r: Req, a: nat, b: nat): seq<int> {
    Segment(r, r.protectedLen, a) + Segment(r, b, |r.row|)
  }

  lemma FreedParts(r: Req, a: nat, b: nat, v: int)
    ensures Occurs(Freed(r, a, b), v) == Occurs(Segment(r, r.protectedLen, a), v) + Occurs(Segment(r, b, |r.row|), v)
  {
    hide Occurs, Segment;
    OccursConcat(Segment(r, r.protectedLen, a), Segment(r, b, |r.row|), v);
  }

  /** A request arrives with a tail taken from the pool. */
  lemma RequestArrives(t: Tree, page: nat, held: seq<Key>, free: multiset<int>, reqs: seq<Req>, total: multiset<int>,
                       r: Req, free': multiset<int>)
    requires Accounted(t, page, held, free, reqs, total) && Settled(t, page, r)
    requires free == free' + multiset(Tail(r))
    ensures Accounted(t, page, held + [r.lastNode], free', reqs + [r], total)
  {
    hide WellFormed, Settled, Slots, Tails, Occurs, Tail;
    forall v ensures free'[v] + Slots(t, v) + Tails(reqs + [r], v) == total[v] {
      TailsAppend(reqs, r, v);
      OccursIs(Tail(r), v);
    }
  }

  /** A request grows by slots taken from the pool. */
  lemma RequestGrows(t: Tree, page: nat, held: seq<Key>, free: multiset<int>, reqs: seq<Req>, total: multiset<int>,
                     i: nat, units: Key, slots: seq<int>, free': multiset<int>)
    requires Accounted(t, page, held, free, reqs, total) && i < |reqs| && |units| == |slots|
    requires free == free' + multiset(slots)
    ensures var r := reqs[i].(key := reqs[i].key + units, row := reqs[i].row + slots);
            Accounted(t, page, held, free', reqs[i := r], total)
  {
    hide WellFormed, Slots, Tails, Occurs, PathValue;
    var r := reqs[i].(key := reqs[i].key + units, row := reqs[i].row + slots);
    assert Settled(t, page, reqs[i]);
    assert r.key[..r.protectedLen] == reqs[i].key[..r.protectedLen];
    assert r.row[..r.protectedLen] == reqs[i].row[..r.protectedLen];
    assert Tail(r) == Tail(reqs[i]) + slots;
    forall v ensures free'[v] + Slots(t, v) + Tails(reqs[i := r], v) == total[v] {
      TailsUpdate(reqs, i, r, v);
      OccursConcat(Tail(reqs[i]), slots, v);
      OccursIs(slots, v);
    }
  }

  // ----- The operations ---------------------------------------------------------------------------------------

  class KvManager {
    const cache: Cache
    var free: multiset<int>
    var reqs: seq<Req>
    ghost const total: multiset<int>

    ghost predicate Valid()
      reads this, cache
    {
      cache.Valid() && Accounted(cache.nodes, cache.page, cache.held, free, reqs, total)
    }

    lemma Facts()
      requires Valid()
      ensures cache.Valid() && WellFormed(cache.nodes, cache.page) && cache.page > 0 && |reqs| == |cache.held|
      ensures Locked(cache.nodes, cache.held)
      ensures Accounted(cache.nodes, cache.page, cache.held, free, reqs, total)
      ensures forall i | 0 <= i < |reqs| :: Settled(cache.nodes, cache.page, reqs[i]) && reqs[i].lastNode == cache.held[i]
    {
    }

    lemma FactsAt(i: nat)
      requires Valid() && i < |reqs|
      ensures cache.Valid() && WellFormed(cache.nodes, cache.page) && cache.page > 0 && |reqs| == |cache.held|
      ensures Accounted(cache.nodes, cache.page, cache.held, free, reqs, total)
      ensures Settled(cache.nodes, cache.page, reqs[i]) && reqs[i].lastNode == cache.held[i]
    {
    }

    lemma HeldFacts()
      requires Valid()
      ensures Locked(cache.nodes, cache.held)
    {
    }

    lemma MakeValid()
      requires cache.Valid() && Accounted(cache.nodes, cache.page, cache.held, free, reqs, total)
      ensures Valid()
    {
    }

    constructor (cache: Cache, slots: multiset<int>)
      requires cache.Valid() && cache.held == [] && forall v :: Slots(cache.nodes, v) == 0
      ensures Valid() && this.cache == cache && free == total == slots && reqs == []
    {
      this.cache, free, reqs, total := cache, slots, [], slots;
    }

    /** Eviction gives slots back to the pool. */
    method Evict(num: int) returns (evicted: nat)
      requires Valid()
      modifies this`free, cache
      ensures Valid() && reqs == old(reqs)
      ensures evicted >= num || cache.evictableSize == 0
      ensures |free| == |old(free)| + evicted
      ensures WellFormed(old(cache.nodes), cache.page) && WellFormed(cache.nodes, cache.page)
      ensures Shrunk(old(cache.nodes), cache.nodes, cache.page) && Pruned(old(cache.nodes), cache.nodes)
      ensures num <= 0 ==> evicted == 0
      ensures evicted > 0 ==> exists x :: NeededLast(old(cache.nodes), cache.nodes, x, evicted, num)
    {
      hide *;
      Facts();
      var freed;
      evicted, freed := cache.Evict(num);
      cache.ValidFacts();
      ShrunkStillHolds(old(cache.nodes), cache.nodes, cache.page, cache.held);
      forall v ensures free[v] + Slots(old(cache.nodes), v) == (free + multiset(freed))[v] + Slots(cache.nodes, v) {
        OccursIs(freed, v);
      }
      TreeChanges(old(cache.nodes), cache.nodes, cache.page, cache.held, free, free + multiset(freed), reqs, total);
      free := free + multiset(freed);
      MakeValid();
    }

    /** A request is admitted with the longest cached prefix of its prompt, and locks it. */
    method Admit(key: Key)
      requires Valid()
      modifies this`reqs, cache
      ensures Valid() && |reqs| == |old(reqs)| + 1 && reqs[..|old(reqs)|] == old(reqs)
      ensures var r := reqs[|old(reqs)|];
              && cache.page > 0 && r.key == r.lastNode && r.protectedLen == |r.row|
              && Longest(old(cache.nodes), cache.page, PageAligned(key, cache.page), r.lastNode)
      ensures WellFormed(old(cache.nodes), cache.page) && WellFormed(cache.nodes, cache.page)
      ensures SameContents(old(cache.nodes), cache.nodes, cache.page)
    {
      hide *;
      Facts();
      ghost var t0, t1;
      t0 := cache.nodes;
      var slots, last := cache.MatchPrefix(key);
      t1 := cache.nodes;
      cache.ValidFacts();
      AllHeldInTree(t1, cache.held);
      ContentsSame(t0, t1, cache.page, cache.held, free, reqs, total);
      var delta := cache.IncLockRef(last);
      cache.ValidFacts();
      LocksChange(t1, cache.nodes, cache.page, old(cache.held), free, reqs, total);
      SameContentsTrans(t0, t1, cache.nodes, cache.page);
      var r := Req(last, slots, |slots|, last);
      WholePrefix(t1, cache.nodes, cache.page, r);
      RequestArrives(cache.nodes, cache.page, old(cache.held), free, reqs, total, r, free);
      reqs := reqs + [r];
      MakeValid();
    }

    /** New tokens get slots from the pool. */
    method Extend(i: nat, units: Key, slots: seq<int>)
      requires Valid() && i < |reqs| && |units| == |slots| && multiset(slots) <= free
      modifies this
      ensures Valid() && free + multiset(slots) == old(free)
      ensures reqs == old(reqs)[i := old(reqs)[i].(key := old(reqs)[i].key + units, row := old(reqs)[i].row + slots)]
    {
      Facts();
      hide *;
      RequestGrows(cache.nodes, cache.page, cache.held, free, reqs, total, i, units, slots, free - multiset(slots));
      free := free - multiset(slots);
      reqs := reqs[i := reqs[i].(key := reqs[i].key + units, row := reqs[i].row + slots)];
      MakeValid();
    }

    /** cache_finished_req: the whole pages of the row go to the cache, behind the prefix that was cached already;
        duplicates and the unaligned end go to the pool. Without insertion the whole tail goes to the pool. */
    method CacheFinishedReq(i: nat, isInsert: bool) returns (freedEnd: nat)
      requires Valid() && i < |reqs|
      modifies this, cache
      ensures Valid() && reqs == Without(old(reqs), i)
      ensures WellFormed(old(cache.nodes), cache.page) && WellFormed(cache.nodes, cache.page)
      ensures isInsert ==> CachedFrom(old(cache.nodes), cache.nodes, cache.page, old(reqs)[i], freedEnd)
      ensures !isInsert ==> SameContents(old(cache.nodes), cache.nodes, cache.page)
      ensures !isInsert ==> free == old(free) + multiset(Tail(old(reqs)[i]))
      ensures cache.page > 0 && old(reqs)[i].protectedLen <= freedEnd <= |PageAligned(old(reqs)[i].key, cache.page)| <= |old(reqs)[i].row|
      ensures var r, full := old(reqs)[i], PageAligned(old(reqs)[i].key, cache.page);
              free == old(free) + multiset(r.row[r.protectedLen..freedEnd] + r.row[|full|..])
    {
      hide *;
      FactsAt(i);
      HeldFacts();
      ghost var t0 := cache.nodes;
      var r, full := reqs[i], PageAligned(reqs[i].key, cache.page);
      ProtectedFits(t0, cache.page, r);
      WholeTailFreed(r, |full|);
      freedEnd := |full|;
      if isInsert {
        freedEnd := InsertRow(i, full);
      } else {
        NothingTaken(t0, cache.page, cache.held, reqs, i, |full|);
      }
      RequestLeaves(t0, cache.nodes, cache.page, cache.held, free, reqs, total, i, freedEnd, |full|);
      FreedIsSegments(r, freedEnd, |full|);
      ghost var t1 := cache.nodes;
      Release(i, r.row[r.protectedLen..freedEnd] + r.row[|full|..]);
      if isInsert {
        CachedAcrossLocks(t0, t1, cache.nodes, cache.page, r, freedEnd);
      }
    }

    /** Frees slots of request `i`, unlocks its prefix and forgets it. */
    method Release(i: nat, freed: seq<int>)
      requires cache.Valid() && i < |reqs| == |cache.held| && reqs[i].lastNode == cache.held[i]
      requires Accounted(cache.nodes, cache.page, Without(cache.held, i), free + multiset(freed), Without(reqs, i), total)
      modifies this, cache
      ensures Valid() && reqs == Without(old(reqs), i) && free == old(free) + multiset(freed)
      ensures OnlyLocks(old(cache.nodes), cache.nodes) && WellFormed(old(cache.nodes), cache.page)
      ensures WellFormed(cache.nodes, cache.page) && SameContents(old(cache.nodes), cache.nodes, cache.page)
    {
      hide *;
      cache.ValidFacts();
      free := free + multiset(freed);
      var delta := cache.DecLockRef(reqs[i].lastNode, i);
      cache.ValidFacts();
      LocksChange(old(cache.nodes), cache.nodes, cache.page, cache.held, free, Without(reqs, i), total);
      reqs := Without(reqs, i);
      MakeValid();
    }

    /** cache_unfinished_req: the whole pages of the row go to the cache, duplicates to the pool; the row is
        rewritten to the cache's slots, and the request holds the longer prefix from now on. */
    method CacheUnfinishedReq(i: nat) returns (prefixLen: nat)
      requires Valid() && i < |reqs|
      modifies this, cache
      ensures Valid() && cache.page > 0
      ensures WellFormed(old(cache.nodes), cache.page) && WellFormed(cache.nodes, cache.page)
      ensures CachedFrom(old(cache.nodes), cache.nodes, cache.page, old(reqs)[i], prefixLen)
      ensures old(reqs)[i].protectedLen <= prefixLen <= |old(reqs)[i].row|
      ensures free == old(free) + multiset(old(reqs)[i].row[old(reqs)[i].protectedLen..prefixLen])
      ensures |reqs| == |old(reqs)| && reqs[..|reqs| - 1] == Without(old(reqs), i)
      ensures IsRewritten(old(reqs)[i], reqs[|reqs| - 1], cache.page, prefixLen)
    {
      hide *;
      FactsAt(i);
      ghost var before, t0 := reqs, cache.nodes;
      var r';
      r', prefixLen := InsertAndMatch(i);
      ghost var t2 := cache.nodes;
      Relock(i, r');
      Replaced(before, i, r');
      CachedAcrossLocks(t0, t2, cache.nodes, cache.page, before[i], prefixLen);
    }

    /** The first half: insert, free duplicates, and read the row back from the cache. */
    method InsertAndMatch(i: nat) returns (r': Req, prefixLen: nat)
      requires Valid() && i < |reqs|
      modifies this`free, cache`nodes, cache`evictableSize, cache`evictableLeaves
      ensures cache.Valid() && |reqs| == |cache.held| && reqs[i].lastNode == cache.held[i]
      ensures WellFormed(old(cache.nodes), cache.page) && WellFormed(cache.nodes, cache.page)
      ensures Settled(cache.nodes, cache.page, r')
      ensures CachedFrom(old(cache.nodes), cache.nodes, cache.page, reqs[i], prefixLen)
      ensures reqs[i].protectedLen <= prefixLen <= |reqs[i].row|
      ensures free == old(free) + multiset(reqs[i].row[reqs[i].protectedLen..prefixLen])
      ensures Accounted(cache.nodes, cache.page, Without(cache.held, i), free + multiset(Tail(r')), Without(reqs, i), total)
      ensures IsRewritten(reqs[i], r', cache.page, prefixLen)
    {
      hide *;
      var full;
      full, prefixLen := InsertAndFree(i);
      ghost var t1 := cache.nodes;
      r' := ReadBack(i, full);
      CachedSame(old(cache.nodes), t1, cache.nodes, cache.page, reqs[i], prefixLen);
      RewrittenFromCache(old(cache.nodes), cache.nodes, cache.page, reqs[i], r', prefixLen);
    }

    /** Inserts the whole pages, and frees the slots that were cached already. */
    method InsertAndFree(i: nat) returns (full: Key, prefixLen: nat)
      requires Valid() && i < |reqs|
      modifies this`free, cache`nodes, cache`evictableSize, cache`evictableLeaves
      ensures cache.Valid() && |reqs| == |cache.held| && reqs[i].lastNode == cache.held[i]
      ensures WellFormed(old(cache.nodes), cache.page)
      ensures WellFormed(cache.nodes, cache.page) && cache.page > 0 && Settled(cache.nodes, cache.page, reqs[i])
      ensures full == PageAligned(reqs[i].key, cache.page) && full in cache.nodes && reqs[i].lastNode <= full
      ensures CachedFrom(old(cache.nodes), cache.nodes, cache.page, reqs[i], prefixLen)
      ensures reqs[i].protectedLen <= prefixLen <= |reqs[i].row|
      ensures free == old(free) + multiset(reqs[i].row[reqs[i].protectedLen..prefixLen])
      ensures Accounted(cache.nodes, cache.page, Without(cache.held, i),
                        free + multiset(Segment(reqs[i], |full|, |reqs[i].row|)), Without(reqs, i), total)
    {
      hide *;
      FactsAt(i);
      ghost var t0 := cache.nodes;
      var r := reqs[i];
      full := PageAligned(reqs[i].key, cache.page);
      prefixLen := InsertRow(i, full);
      assert StillHolds(t0, cache.nodes, cache.page, cache.held[i]);
      StaysSettled(t0, cache.nodes, cache.page, r);
      RequestLeaves(t0, cache.nodes, cache.page, cache.held, free, reqs, total, i, prefixLen, |full|);
      RowMultiset(free, r, prefixLen, |full|);
      free := free + multiset(r.row[r.protectedLen..prefixLen]);
    }

    /** Reads the row of request `i` back from the cache. */
    method ReadBack(i: nat, full: Key) returns (r': Req)
      requires cache.Valid() && i < |reqs| == |cache.held| && reqs[i].lastNode == cache.held[i]
      requires WellFormed(cache.nodes, cache.page) && cache.page > 0 && Settled(cache.nodes, cache.page, reqs[i])
      requires full == PageAligned(reqs[i].key, cache.page) && full in cache.nodes && reqs[i].lastNode <= full
      requires Accounted(cache.nodes, cache.page, Without(cache.held, i),
                         free + multiset(Segment(reqs[i], |full|, |reqs[i].row|)), Without(reqs, i), total)
      modifies cache`nodes
      ensures cache.Valid() && WellFormed(cache.nodes, cache.page) && Settled(cache.nodes, cache.page, r')
      ensures SameContents(old(cache.nodes), cache.nodes, cache.page) && full in cache.nodes
      ensures Accounted(cache.nodes, cache.page, Without(cache.held, i), free + multiset(Tail(r')), Without(reqs, i), total)
      ensures |full| <= |reqs[i].row| && r' == Req(reqs[i].key, PathValue(cache.nodes, cache.page, full) + reqs[i].row[|full|..], |full|, full)
    {
      hide *;
      ghost var t1 := cache.nodes;
      var r := reqs[i];
      var slots, last := cache.MatchPrefix(full);
      cache.ValidFacts();
      FoundAll(t1, cache.page, r.key, full, last);
      MatchedRow(t1, cache.nodes, cache.page, cache.held, i, r, slots, last);
      r' := Rewritten(r, slots, last);
      HeldWithout(cache.nodes, cache.held, i);
      ContentsSame(t1, cache.nodes, cache.page, Without(cache.held, i), free + multiset(Tail(r')), Without(reqs, i), total);
    }

    /** The second half: let go of the old prefix and hold the new one. */
    method Relock(i: nat, r': Req)
      requires cache.Valid() && i < |reqs| == |cache.held| && reqs[i].lastNode == cache.held[i]
      requires WellFormed(cache.nodes, cache.page) && Settled(cache.nodes, cache.page, r')
      requires Accounted(cache.nodes, cache.page, Without(cache.held, i), free + multiset(Tail(r')), Without(reqs, i), total)
      modifies this`reqs, cache
      ensures Valid() && reqs == Without(old(reqs), i) + [r']
      ensures WellFormed(old(cache.nodes), cache.page) && WellFormed(cache.nodes, cache.page)
      ensures SameContents(old(cache.nodes), cache.nodes, cache.page) && OnlyLocks(old(cache.nodes), cache.nodes)
    {
      hide *;
      ghost var t2, held, all := cache.nodes, Without(cache.held, i), free + multiset(Tail(r'));
      InTreeWhenSettled(t2, cache.page, r');
      var delta := cache.DecLockRef(reqs[i].lastNode, i);
      cache.ValidFacts();
      ghost var t3 := cache.nodes;
      LocksChange(t2, t3, cache.page, held, all, Without(reqs, i), total);
      StaysAcrossLocks(t2, t3, cache.page, r');
      delta := cache.IncLockRef(r'.lastNode);
      cache.ValidFacts();
      LocksChange(t3, cache.nodes, cache.page, held, all, Without(reqs, i), total);
      StaysAcrossLocks(t3, cache.nodes, cache.page, r');
      SameContentsTrans(t2, t3, cache.nodes, cache.page);
      OnlyLocksTrans(t2, t3, cache.nodes);
      RequestArrives(cache.nodes, cache.page, held, all, Without(reqs, i), total, r', free);
      reqs := Without(reqs, i) + [r'];
      MakeValid();
    }

    /** Inserts the whole pages of request `i` into the cache. */
    method InsertRow(i: nat, full: Key) returns (prefixLen: nat)
      requires Valid() && i < |reqs| && cache.page > 0 && full == PageAligned(reqs[i].key, cache.page)
      modifies cache`nodes, cache`evictableSize, cache`evictableLeaves
      ensures cache.Valid() && WellFormed(cache.nodes, cache.page) && WellFormed(old(cache.nodes), cache.page)
      ensures reqs[i].protectedLen <= prefixLen <= |full| <= |reqs[i].row|
      ensures forall j | 0 <= j < |cache.held| :: StillHolds(old(cache.nodes), cache.nodes, cache.page, cache.held[j])
      ensures forall v :: Slots(cache.nodes, v) == Slots(old(cache.nodes), v) + Occurs(Segment(reqs[i], prefixLen, |full|), v)
      ensures reqs[i].lastNode <= full && full in cache.nodes
      ensures CachedFrom(old(cache.nodes), cache.nodes, cache.page, reqs[i], prefixLen)
    {
      Facts();
      var r := reqs[i];
      assert |r.key| == |r.row| && |full| <= |r.key|;
      hide *;
      AlignedTwice(r.key, cache.page);
      var last;
      prefixLen, last := cache.Insert(full, r.row[..|full|]);
      cache.ValidFacts();
      ProtectedIsCached(old(cache.nodes), cache.page, r, prefixLen);
      AllHeldInTree(cache.nodes, cache.held);
      ExtendedStillHolds(old(cache.nodes), cache.nodes, cache.page, full, cache.held);
      ExtendedHas(old(cache.nodes), cache.nodes, cache.page, full);
      SegmentOf(r, prefixLen, |full|);
      MakeCached(old(cache.nodes), cache.nodes, cache.page, r, prefixLen, full);
    }
  }

  /** The whole pages of the request's row are in the cache: up to `prefixLen`, the longest prefix cached before, with
      the slots they had, and from there on with those of the row. Nothing else has changed. */
  ghost predicate CachedFrom(t: Tree, t': Tree, page: nat, r: Req, prefixLen: nat)
    requires WellFormed(t, page) && WellFormed(t', page)
  {
    && page > 0
    && var full := PageAligned(r.key, page);
       && prefixLen <= |full| <= |r.row| && Longest(t, page, full, full[..prefixLen])
       && Extended(t, t', page, full) && Filled(t, t', page, full, prefixLen, r.row)
  }

  lemma MakeCached(t: Tree, t': Tree, page: nat, r: Req, prefixLen: nat, full: Key)
    requires WellFormed(t, page) && WellFormed(t', page) && page > 0 && full == PageAligned(r.key, page)
    requires prefixLen <= |full| <= |r.row| && Longest(t, page, full, full[..prefixLen])
    requires Extended(t, t', page, full) && Filled(t, t', page, full, prefixLen, r.row[..|full|])
    ensures CachedFrom(t, t', page, r, prefixLen)
  {
    hide WellFormed, Extended, Longest, PathValue, Holds, PageAligned;
    assert r.row[..|full|][prefixLen..|full|] == r.row[prefixLen..|full|];
  }

  /** A tree that holds the same has cached the row just as well. */
  lemma CachedSame(t: Tree, t1: Tree, t2: Tree, page: nat, r: Req, prefixLen: nat)
    requires WellFormed(t, page) && WellFormed(t1, page) && WellFormed(t2, page)
    requires CachedFrom(t, t1, page, r, prefixLen) && SameContents(t1, t2, page)
    requires page > 0 && PageAligned(r.key, page) in t2
    ensures CachedFrom(t, t2, page, r, prefixLen)
  {
    hide WellFormed, Longest, PathValue, Holds, PageAligned, Covered, Aligned;
    var full := PageAligned(r.key, page);
    NodeFacts(t2, page, full);
    ReadOff(t1, page, full);
    ReadOff(t2, page, full);
    HoldsUnique(t2, page, full, PathValue(t1, page, full), PathValue(t2, page, full));
  }

  lemma CachedAcrossLocks(t: Tree, t1: Tree, t2: Tree, page: nat, r: Req, prefixLen: nat)
    requires WellFormed(t, page) && WellFormed(t1, page) && WellFormed(t2, page)
    requires CachedFrom(t, t1, page, r, prefixLen) && SameContents(t1, t2, page) && OnlyLocks(t1, t2)
    ensures CachedFrom(t, t2, page, r, prefixLen)
  {
    hide WellFormed, Longest, PathValue, Holds, PageAligned, Covered, Filled, SameContents;
    CachedSame(t, t1, t2, page, r, prefixLen);
  }

  lemma OnlyLocksTrans(t: Tree, t': Tree, t'': Tree)
    requires OnlyLocks(t, t') && OnlyLocks(t', t'')
    ensures OnlyLocks(t, t'')
  {
  }

  /** `r'` is `r` holding its whole pages, with its row read back from the cache: from the prefix that was cached
      before on, it is the row it was. */
  ghost predicate IsRewritten(r: Req, r': Req, page: nat, prefixLen: nat) {
    && page > 0 && r'.key == r.key && r'.lastNode == PageAligned(r.key, page) && r'.protectedLen == |r'.lastNode|
    && |r'.row| == |r.row| && prefixLen <= |r.row| && r'.row[prefixLen..] == r.row[prefixLen..]
  }

  lemma RewrittenFromCache(t: Tree, t': Tree, page: nat, r: Req, r': Req, n: nat)
    requires WellFormed(t, page) && WellFormed(t', page) && CachedFrom(t, t', page, r, n)
    requires page > 0 && PageAligned(r.key, page) in t' && |PageAligned(r.key, page)| <= |r.row|
    requires var full := PageAligned(r.key, page);
             r' == Req(r.key, PathValue(t', page, full) + r.row[|full|..], |full|, full)
    ensures IsRewritten(r, r', page, n)
  {
    hide WellFormed, Longest, PathValue, Holds, PageAligned, Covered, Extended;
    var full := PageAligned(r.key, page);
    var slots := PathValue(t', page, full);
    assert slots[n..] == r.row[n..|full|];
    assert r'.row[n..] == slots[n..] + r.row[|full|..] == r.row[n..];
  }

  lemma Replaced(reqs: seq<Req>, i: nat, r': Req)
    requires i < |reqs|
    ensures var after := Without(reqs, i) + [r'];
            |after| == |reqs| && after[..|after| - 1] == Without(reqs, i) && after[|after| - 1] == r'
  {
  }

  /** The match right after the insertion finds the whole aligned key. */
  lemma FoundAll(t: Tree, page: nat, key: Key, full: Key, last: Key)
    requires WellFormed(t, page) && page > 0 && full == PageAligned(key, page) && full in t
    requires Longest(t, page, PageAligned(full, page), last)
    ensures last == full
  {
    hide WellFormed, PageAligned;
    AlignedTwice(key, page);
    assert Covered(t, full);
    assert full <= full;
  }

  lemma MatchedRow(t1: Tree, t2: Tree, page: nat, held: seq<Key>, i: nat, r: Req, slots: seq<int>, last: Key)
    requires WellFormed(t1, page) && WellFormed(t2, page) && page > 0 && SameContents(t1, t2, page)
    requires Settled(t1, page, r) && Locked(t2, held) && i < |held| && r.lastNode == held[i]
    requires last in t2 && slots == PathValue(t2, page, last) && r.lastNode <= last == PageAligned(r.key, page)
    ensures r.protectedLen <= |slots| <= |r.row| && |slots| == |last|
    ensures var r' := Rewritten(r, slots, last);
            && Settled(t2, page, r') && Tail(r') == Segment(r, |slots|, |r.row|)
            && r' == Req(r.key, slots + r.row[|slots|..], |slots|, last)
  {
    hide WellFormed, PathValue, PageAligned, SameContents, Settled;
    HeldInTree(t2, held, i);
    SameContentsStillHolds(t1, t2, page, [held[i]]);
    assert StillHolds(t1, t2, page, [held[i]][0]);
    StaysSettled(t1, t2, page, r);
    RewrittenSettled(t2, page, r, slots, last);
  }

  lemma HeldWithout(t: Tree, held: seq<Key>, i: nat)
    requires Locked(t, held) && i < |held|
    ensures forall j | 0 <= j < |held| - 1 :: Without(held, i)[j] in t
    ensures |Without(held, i)| == |held| - 1
  {
    forall j | 0 <= j < |held| - 1 ensures Without(held, i)[j] in t {
      assert Without(held, i)[j] == held[if j < i then j else j + 1];
    }
  }

  lemma RowMultiset(free: multiset<int>, r: Req, a: nat, b: nat)
    requires r.protectedLen <= a <= b <= |r.row|
    ensures free + multiset(Freed(r, a, b))
            == free + multiset(r.row[r.protectedLen..a]) + multiset(Segment(r, b, |r.row|))
    ensures free <= free + multiset(r.row[r.protectedLen..a])
  {
  }

  lemma InTreeWhenSettled(t: Tree, page: nat, r: Req)
    requires WellFormed(t, page) && Settled(t, page, r)
    ensures r.lastNode in t
  {
  }

  lemma StaysAcrossLocks(t: Tree, t': Tree, page: nat, r: Req)
    requires WellFormed(t, page) && WellFormed(t', page) && OnlyLocks(t, t') && Settled(t, page, r)
    ensures Settled(t', page, r) && r.lastNode in t'
  {
    hide WellFormed, PathValue;
    OnlyLocksPathValue(t, t', page, r.lastNode);
  }

  lemma ExtendedHas(t: Tree, t': Tree, page: nat, key: Key)
    requires WellFormed(t, page) && WellFormed(t', page) && Extended(t, t', page, key)
    ensures key in t'
  {
  }

  lemma SegmentOf(r: Req, a: nat, b: nat)
    requires a <= b <= |r.row|
    ensures r.row[..b][a..b] == Segment(r, a, b)
  {
  }

  lemma FreedIsSegments(r: Req, a: nat, b: nat)
    requires r.protectedLen <= a <= b <= |r.row|
    ensures Freed(r, a, b) == r.row[r.protectedLen..a] + r.row[b..]
  {
  }

  lemma WholeTailFreed(r: Req, b: nat)
    requires r.protectedLen <= b <= |r.row|
    ensures r.row[r.protectedLen..b] + r.row[b..] == Tail(r)
  {
  }

  lemma ProtectedFits(t: Tree, page: nat, r: Req)
    requires WellFormed(t, page) && page > 0 && Settled(t, page, r)
    ensures r.protectedLen <= |PageAligned(r.key, page)| <= |r.row| == |r.key|
    ensures r.lastNode <= PageAligned(r.key, page)
  {
    hide WellFormed, PathValue, Aligned, PageAligned;
    NodeFacts(t, page, r.lastNode);
    assert r.lastNode <= r.key;
  }

  lemma NothingTaken(t: Tree, page: nat, held: seq<Key>, reqs: seq<Req>, i: nat, b: nat)
    requires WellFormed(t, page) && Locked(t, held) && i < |reqs| && b <= |reqs[i].row|
    ensures forall j | 0 <= j < |held| :: StillHolds(t, t, page, held[j])
    ensures forall v :: Slots(t, v) == Slots(t, v) + Occurs(Segment(reqs[i], b, b), v)
  {
    hide WellFormed, Holds, Holders, Slots;
    assert Segment(reqs[i], b, b) == [];
  }

  lemma ContentsSame(t: Tree, t': Tree, page: nat, held: seq<Key>, free: multiset<int>, reqs: seq<Req>, total: multiset<int>)
    requires Accounted(t, page, held, free, reqs, total) && WellFormed(t', page) && WellFormed(t, page)
    requires SameContents(t, t', page)
    requires (forall i | 0 <= i < |held| :: held[i] in t') && forall v :: Slots(t', v) == Slots(t, v)
    ensures Accounted(t', page, held, free, reqs, total)
  {
    hide *;
    SameContentsStillHolds(t, t', page, held);
    TreeChanges(t, t', page, held, free, free, reqs, total);
  }

  lemma WholePrefix(t: Tree, t': Tree, page: nat, r: Req)
    requires WellFormed(t, page) && WellFormed(t', page) && OnlyLocks(t, t') && r.lastNode in t
    requires r.key == r.lastNode && r.protectedLen == |r.row| && r.row == PathValue(t, page, r.lastNode)
    ensures Settled(t', page, r) && Tail(r) == []
  {
    hide WellFormed, PathValue;
    OnlyLocksPathValue(t, t', page, r.lastNode);
  }

  lemma OccursIs(s: seq<int>, v: int)
    ensures Occurs(s, v) == multiset(s)[v]
  {
  }
}
