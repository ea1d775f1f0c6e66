/** The span forest (scripts/convert_otel_2_perfetto.py).

    Spans arrive with arbitrary ids and parent ids: parents may be missing, shared,
    duplicated, cyclic, or the span itself. The walks recurse over the child lists
    without any visited set. This module shows why that is sound: whatever the ids,
    what hangs below the root spans is a forest. Spans are named by their position
    in the input list; the objects are in SpanObjects. */
module SpanForest {
  import opened Common

  /** What the tree construction reads of a span. */
  datatype Record = Record(spanId: string, parentId: string, moduleName: string) {
    predicate IsRoot() { moduleName == "sglang::request" || moduleName == "sglang::mooncake" }
  }

  /** The span an id stands for: the last one that carries it. */
  function Owner(rs: seq<Record>, id: string): (r: Option<nat>)
    ensures r.Some? ==> r.value < |rs| && rs[r.value].spanId == id
  {
    if rs == [] then None
    else if rs[|rs| - 1].spanId == id then Some(|rs| - 1)
    else Owner(rs[..|rs| - 1], id)
  }

  /** `i` is the last span that carries `id`. */
  ghost predicate LastOwner(rs: seq<Record>, id: string, i: nat) {
    i < |rs| && rs[i].spanId == id && forall j | i < j < |rs| :: rs[j].spanId != id
  }

  /** An id stands for a span exactly when some span carries it, and then for the last one. */
  lemma {:induction false} OwnerIff(rs: seq<Record>, id: string)
    ensures Owner(rs, id).Some? <==> exists i :: 0 <= i < |rs| && rs[i].spanId == id
    ensures forall i: nat :: Owner(rs, id) == Some(i) <==> LastOwner(rs, id, i)
  {
    if rs != [] {
      var n := |rs| - 1;
      OwnerIff(rs[..n], id);
      if rs[n].spanId != id {
        forall i: nat ensures LastOwner(rs, id, i) <==> LastOwner(rs[..n], id, i) {
          if LastOwner(rs[..n], id, i) {
            forall j | i < j < |rs| ensures rs[j].spanId != id { assert j < n ==> rs[..n][j] == rs[j]; }
          }
          if LastOwner(rs, id, i) {
            forall j | i < j < n ensures rs[..n][j].spanId != id { assert rs[..n][j] == rs[j]; }
          }
        }
        if i :| 0 <= i < |rs| && rs[i].spanId == id {
          assert rs[..n][i].spanId == id;
        }
      }
    }
  }

  /** The span to whose child list span `i` is appended; roots are appended to none. */
  function Parent(rs: seq<Record>, i: nat): (p: Option<nat>)
    requires i < |rs|
    ensures p.Some? ==> p.value < |rs|
  {
    if rs[i].IsRoot() then None else Owner(rs, rs[i].parentId)
  }

  /** The first `n` spans that are appended to the child list of span `i`. */
  function KidsUpTo(rs: seq<Record>, i: nat, n: nat): (ks: seq<nat>)
    requires n <= |rs|
    ensures forall k | k in ks :: k < n && Parent(rs, k) == Some(i)
    ensures forall k: nat | k < n && Parent(rs, k) == Some(i) :: k in ks
    ensures Distinct(ks)
  {
    if n == 0 then []
    else KidsUpTo(rs, i, n - 1) + if Parent(rs, n - 1) == Some(i) then [n - 1] else []
  }

  function Kids(rs: seq<Record>, i: nat): seq<nat> {
    KidsUpTo(rs, i, |rs|)
  }

  function RootsUpTo(rs: seq<Record>, n: nat): (ks: seq<nat>)
    requires n <= |rs|
    ensures forall k | k in ks :: k < n && rs[k].IsRoot()
    ensures forall k: nat | k < n && rs[k].IsRoot() :: k in ks
    ensures Distinct(ks)
  {
    if n == 0 then []
    else RootsUpTo(rs, n - 1) + if rs[n - 1].IsRoot() then [n - 1] else []
  }

  /** Span `k` is in the child list of span `i`: it is no request and no transfer span, and `i` is the last span with
      the id that `k` names as its parent. */
  ghost predicate ChildOf(rs: seq<Record>, k: nat, i: nat) {
    && k < |rs| && i < |rs|
    && rs[k].moduleName != "sglang::request" && rs[k].moduleName != "sglang::mooncake"
    && rs[k].parentId == rs[i].spanId
    && forall j | i < j < |rs| :: rs[j].spanId != rs[k].parentId
  }

  ghost predicate Ascending(s: seq<nat>) {
    forall a, b | 0 <= a < b < |s| :: s[a] < s[b]
  }

  /** The child lists hold exactly these spans, in the order of the input. */
  lemma KidsAreChildren(rs: seq<Record>, i: nat)
    ensures forall k: nat :: k in Kids(rs, i) <==> ChildOf(rs, k, i)
    ensures Ascending(Kids(rs, i))
  {
    forall k: nat ensures k in Kids(rs, i) <==> ChildOf(rs, k, i) {
      if k < |rs| {
        OwnerIff(rs, rs[k].parentId);
        assert ChildOf(rs, k, i) <==> !rs[k].IsRoot() && LastOwner(rs, rs[k].parentId, i);
      }
    }
    KidsAscend(rs, i, |rs|);
  }

  lemma {:induction false} KidsAscend(rs: seq<Record>, i: nat, n: nat)
    requires n <= |rs|
    ensures Ascending(KidsUpTo(rs, i, n))
  {
    if n > 0 {
      KidsAscend(rs, i, n - 1);
      var ks, all := KidsUpTo(rs, i, n - 1), KidsUpTo(rs, i, n);
      forall a, b | 0 <= a < b < |all| ensures all[a] < all[b] {
        assert a < |ks| && all[a] == ks[a] && ks[a] in ks;
        assert b < |ks| ==> all[b] == ks[b];
      }
    }
  }

  ghost predicate Distinct(s: seq<nat>) {
    forall i, j | 0 <= i < j < |s| :: s[i] != s[j]
  }

  // ----- Ancestors ------------------------------------------------------------------

  /** The span reached from `x` by following `k` parents. */
  function Up(rs: seq<Record>, x: nat, k: nat): (r: Option<nat>)
    requires x < |rs|
    ensures r.Some? ==> r.value < |rs|
    decreases k
  {
    if k == 0 then Some(x)
    else if Parent(rs, x).None? then None
    else Up(rs, Parent(rs, x).value, k - 1)
  }

  /** `x` hangs `d` levels below a root. */
  ghost predicate AtDepth(rs: seq<Record>, x: nat, d: nat) {
    x < |rs| && Up(rs, x, d).Some? && rs[Up(rs, x, d).value].IsRoot()
  }

  lemma {:induction false} UpUp(rs: seq<Record>, x: nat, j: nat, k: nat)
    requires x < |rs| && Up(rs, x, j).Some?
    ensures Up(rs, x, j + k) == Up(rs, Up(rs, x, j).value, k)
    decreases j
  {
    if j > 0 {
      UpUp(rs, Parent(rs, x).value, j - 1, k);
    }
  }

  /** Nothing hangs at two depths, cycles notwithstanding: a root has no parent. */
  lemma DepthIsUnique(rs: seq<Record>, x: nat, d: nat, e: nat)
    requires AtDepth(rs, x, d) && AtDepth(rs, x, e)
    ensures d == e
  {
    var lo, hi := if d < e then d else e, if d < e then e else d;
    assert Parent(rs, Up(rs, x, lo).value).None?;
    UpUp(rs, x, lo, hi - lo);
  }

  lemma AncestorDepth(rs: seq<Record>, x: nat, k: nat, y: nat, d: nat)
    requires x < |rs| && Up(rs, x, k) == Some(y) && AtDepth(rs, y, d)
    ensures AtDepth(rs, x, k + d)
  {
    UpUp(rs, x, k, d);
  }

  lemma KidDepth(rs: seq<Record>, i: nat, d: nat, c: nat)
    requires AtDepth(rs, i, d) && c in Kids(rs, i)
    ensures AtDepth(rs, c, d + 1)
  {
  }

  lemma {:induction false} LastStep(rs: seq<Record>, x: nat, k: nat)
    requires x < |rs| && k > 0 && Up(rs, x, k).Some?
    ensures Up(rs, x, k - 1).Some?
    decreases k
  {
    if k > 1 {
      LastStep(rs, Parent(rs, x).value, k - 1);
    }
  }

  lemma {:induction false} EarlierSteps(rs: seq<Record>, x: nat, j: nat, k: nat)
    requires x < |rs| && j <= k && Up(rs, x, k).Some?
    ensures Up(rs, x, j).Some?
    decreases k
  {
    if j < k {
      LastStep(rs, x, k);
      EarlierSteps(rs, x, j, k - 1);
    }
  }

  lemma {:induction false} Pigeonhole(s: seq<nat>, n: nat)
    requires Distinct(s) && forall i | 0 <= i < |s| :: s[i] < n
    ensures |s| <= n
    decreases n
  {
    if s != [] {
      assert s[0] < n;
      if i :| 0 <= i < |s| && s[i] == n - 1 {
        Pigeonhole(s[..i] + s[i + 1..], n - 1);
      } else {
        Pigeonhole(s, n - 1);
      }
    }
  }

  /** Depths are below the number of spans: an ancestor line cannot repeat a span. */
  lemma DepthBound(rs: seq<Record>, x: nat, d: nat)
    requires AtDepth(rs, x, d)
    ensures d < |rs|
  {
    forall e: nat | e <= d
      ensures Up(rs, x, e).Some? && AtDepth(rs, Up(rs, x, e).value, d - e)
    {
      EarlierSteps(rs, x, e, d);
      UpUp(rs, x, e, d - e);
    }
    var line := seq(d + 1, e requires 0 <= e <= d => Up(rs, x, e).value);
    forall i, j | 0 <= i < j < |line|
      ensures line[i] != line[j]
    {
      if line[i] == line[j] {
        DepthIsUnique(rs, line[i], d - i, d - j);
      }
    }
    Pigeonhole(line, |rs|);
  }

  // ----- Walks -------------------------------------------------------------------------

  /** The order in which a recursive walk from span `i` visits spans. */
  ghost function Walk(rs: seq<Record>, i: nat, d: nat): (w: seq<nat>)
    requires AtDepth(rs, i, d)
    decreases |rs| - d, 0
  {
    DepthBound(rs, i, d);
    assert forall c | c in Kids(rs, i) :: AtDepth(rs, c, d + 1) by {
      forall c | c in Kids(rs, i) ensures AtDepth(rs, c, d + 1) { KidDepth(rs, i, d, c); }
    }
    [i] + WalkAll(rs, Kids(rs, i), d + 1)
  }

  /** The walks from several spans of the same depth, one after the other. */
  ghost function WalkAll(rs: seq<Record>, ks: seq<nat>, d: nat): (w: seq<nat>)
    requires forall c | c in ks :: AtDepth(rs, c, d)
    decreases |rs| - d, 1 + |ks|
  {
    if ks == [] then []
    else
      assert ks[|ks| - 1] in ks;
      WalkAll(rs, ks[..|ks| - 1], d) + Walk(rs, ks[|ks| - 1], d)
  }

  lemma NextUp(rs: seq<Record>, x: nat, k: nat)
    requires x < |rs| && Up(rs, x, k).Some?
    ensures Up(rs, x, k + 1) == Parent(rs, Up(rs, x, k).value)
  {
    UpUp(rs, x, k, 1);
    var p := Parent(rs, Up(rs, x, k).value);
    assert p.Some? ==> Up(rs, p.value, 0) == p;
  }

  lemma NoSteps(rs: seq<Record>, x: nat)
    requires x < |rs|
    ensures Up(rs, x, 0) == Some(x)
  {
  }

  lemma KidIff(rs: seq<Record>, i: nat, c: nat)
    ensures c in Kids(rs, i) <==> c < |rs| && Parent(rs, c) == Some(i)
  {
  }

  /** A walk visits exactly the spans below its start. */
  lemma {:induction false} WalkVisits(rs: seq<Record>, i: nat, d: nat, x: nat)
    requires AtDepth(rs, i, d)
    ensures x in Walk(rs, i, d) <==> x < |rs| && exists k: nat :: Up(rs, x, k) == Some(i)
    decreases |rs| - d, 0
  {
    assert i < |rs| && Up(rs, i, 0) == Some(i);
    hide Up, Parent, Kids, AtDepth, WalkAll;
    DepthBound(rs, i, d);
    var ks := Kids(rs, i);
    forall c | c in ks ensures AtDepth(rs, c, d + 1) { KidDepth(rs, i, d, c); }
    WalkAllVisits(rs, ks, d + 1, x);
    if x in WalkAll(rs, ks, d + 1) {
      var k: nat :| Up(rs, x, k).Some? && Up(rs, x, k).value in ks;
      NextUp(rs, x, k);
      KidIff(rs, i, Up(rs, x, k).value);
    }
    if x != i && x < |rs| && exists k: nat :: Up(rs, x, k) == Some(i) {
      var k: nat :| Up(rs, x, k) == Some(i);
      NoSteps(rs, x);
      LastStep(rs, x, k);
      NextUp(rs, x, k - 1);
      KidIff(rs, i, Up(rs, x, k - 1).value);
    }
  }

  lemma {:induction false} WalkAllVisits(rs: seq<Record>, ks: seq<nat>, d: nat, x: nat)
    requires forall c | c in ks :: AtDepth(rs, c, d)
    ensures x in WalkAll(rs, ks, d) <==>
            x < |rs| && exists k: nat :: Up(rs, x, k).Some? && Up(rs, x, k).value in ks
    decreases |rs| - d, 1 + |ks|
  {
    if ks != [] {
      var front, c := ks[..|ks| - 1], ks[|ks| - 1];
      assert c in ks && forall y :: y in ks <==> y in front || y == c;
      WalkAllVisits(rs, front, d, x);
      WalkVisits(rs, c, d, x);
    }
  }

  lemma DistinctConcat(a: seq<nat>, b: seq<nat>)
    requires Distinct(a) && Distinct(b) && forall x | x in a :: x !in b
    ensures Distinct(a + b)
  {
    forall i, j | 0 <= i < j < |a + b|
      ensures (a + b)[i] != (a + b)[j]
    {
      if i < |a| <= j {
        assert a[i] in a && b[j - |a|] in b;
      }
    }
  }

  /** No walk visits a span twice. */
  lemma {:induction false} WalkDistinct(rs: seq<Record>, i: nat, d: nat)
    requires AtDepth(rs, i, d)
    ensures Distinct(Walk(rs, i, d))
    decreases |rs| - d, 0
  {
    DepthBound(rs, i, d);
    var ks := Kids(rs, i);
    forall c | c in ks ensures AtDepth(rs, c, d + 1) { KidDepth(rs, i, d, c); }
    WalkAllDistinct(rs, ks, d + 1);
    WalkAllVisits(rs, ks, d + 1, i);
    if i in WalkAll(rs, ks, d + 1) {
      var k: nat :| Up(rs, i, k).Some? && Up(rs, i, k).value in ks;
      AncestorDepth(rs, i, k, Up(rs, i, k).value, d + 1);
      DepthIsUnique(rs, i, d, k + d + 1);
    }
  }

  lemma {:induction false} WalkAllDistinct(rs: seq<Record>, ks: seq<nat>, d: nat)
    requires (forall c | c in ks :: AtDepth(rs, c, d)) && Distinct(ks)
    ensures Distinct(WalkAll(rs, ks, d))
    decreases |rs| - d, 1 + |ks|
  {
    hide Up, Walk, AtDepth;
    if ks != [] {
      var front, c := ks[..|ks| - 1], ks[|ks| - 1];
      assert c in ks && c !in front;
      WalkAllDistinct(rs, front, d);
      WalkDistinct(rs, c, d);
      forall x | x in WalkAll(rs, front, d)
        ensures x !in Walk(rs, c, d)
      {
        WalkAllVisits(rs, front, d, x);
        WalkVisits(rs, c, d, x);
        if x in Walk(rs, c, d) {
          var j: nat :| Up(rs, x, j).Some? && Up(rs, x, j).value in front;
          var k: nat :| Up(rs, x, k) == Some(c);
          AncestorDepth(rs, x, j, Up(rs, x, j).value, d);
          AncestorDepth(rs, x, k, c, d);
          DepthIsUnique(rs, x, j + d, k + d);
        }
      }
      DistinctConcat(WalkAll(rs, front, d), Walk(rs, c, d));
    }
  }

  // ----- The whole conversion -----------------------------------------------------------

  /** The child lists of several spans, one after the other. */
  function Below(rs: seq<Record>, ks: seq<nat>): (r: seq<nat>)
    ensures forall k | k in r :: k < |rs|
  {
    if ks == [] then []
    else Below(rs, ks[..|ks| - 1]) + Kids(rs, ks[|ks| - 1])
  }

  lemma {:induction false} BelowConcat(rs: seq<Record>, a: seq<nat>, b: seq<nat>)
    ensures Below(rs, a + b) == Below(rs, a) + Below(rs, b)
  {
    if b == [] {
      assert a + b == a;
    } else {
      assert (a + b)[..|a + b| - 1] == a + b[..|b| - 1];
      BelowConcat(rs, a, b[..|b| - 1]);
    }
  }

  lemma {:induction false} BelowAreKids(rs: seq<Record>, ks: seq<nat>)
    ensures forall x: nat :: x in Below(rs, ks) <==> x < |rs| && Parent(rs, x).Some? && Parent(rs, x).value in ks
    ensures Distinct(ks) ==> Distinct(Below(rs, ks))
  {
    if ks != [] {
      var front, c := ks[..|ks| - 1], ks[|ks| - 1];
      assert forall y :: y in ks <==> y in front || y == c;
      BelowAreKids(rs, front);
      if Distinct(ks) {
        assert c !in front;
        DistinctConcat(Below(rs, front), Kids(rs, c));
      }
    }
  }

  /** The spans that are given a line: below the threads below the roots. */
  function LaidOut(rs: seq<Record>): seq<nat> {
    Below(rs, Below(rs, RootsUpTo(rs, |rs|)))
  }

  lemma LaidOutIsDepthTwo(rs: seq<Record>)
    ensures Distinct(LaidOut(rs))
    ensures forall x: nat :: x in LaidOut(rs) <==> AtDepth(rs, x, 2)
  {
    var roots := RootsUpTo(rs, |rs|);
    BelowAreKids(rs, roots);
    BelowAreKids(rs, Below(rs, roots));
    forall x: nat
      ensures x in LaidOut(rs) <==> AtDepth(rs, x, 2)
    {
      if x < |rs| && Parent(rs, x).Some? {
        var p := Parent(rs, x).value;
        assert Up(rs, x, 2) == Up(rs, p, 1);
        if Parent(rs, p).Some? {
          assert Up(rs, p, 1) == Up(rs, Parent(rs, p).value, 0);
        }
      }
    }
  }

  lemma VisitedFromDepthTwo(rs: seq<Record>, order: seq<nat>, x: nat)
    requires forall y: nat :: y in order <==> AtDepth(rs, y, 2)
    ensures x in WalkAll(rs, order, 2) <==> exists d: nat :: d >= 2 && AtDepth(rs, x, d)
  {
    WalkAllVisits(rs, order, 2, x);
    if x in WalkAll(rs, order, 2) {
      var k: nat :| Up(rs, x, k).Some? && Up(rs, x, k).value in order;
      AncestorDepth(rs, x, k, Up(rs, x, k).value, 2);
      assert AtDepth(rs, x, k + 2);
    }
    if d: nat :| d >= 2 && AtDepth(rs, x, d) {
      EarlierSteps(rs, x, d - 2, d);
      UpUp(rs, x, d - 2, 2);
      assert AtDepth(rs, Up(rs, x, d - 2).value, 2);
    }
  }

  /** For every list of spans, and whatever order the laid-out spans are sorted into: the walks
      over them visit no span twice, and visit exactly the spans two or more levels below
      a root. So each of those is converted once and emitted once, and no other is. */
  lemma VisitedExactlyOnce(rs: seq<Record>, order: seq<nat>)
    requires multiset(order) == multiset(LaidOut(rs))
    ensures forall x | x in order :: AtDepth(rs, x, 2)
    ensures Distinct(WalkAll(rs, order, 2))
    ensures forall x: nat :: x in WalkAll(rs, order, 2) <==> exists d: nat :: d >= 2 && AtDepth(rs, x, d)
  {
    hide WalkAll, AtDepth, LaidOut;
    LaidOutIsDepthTwo(rs);
    SameElements(order, LaidOut(rs));
    WalkAllDistinct(rs, order, 2);
    forall x: nat
      ensures x in WalkAll(rs, order, 2) <==> exists d: nat :: d >= 2 && AtDepth(rs, x, d)
    {
      VisitedFromDepthTwo(rs, order, x);
    }
  }

  lemma SameElements(a: seq<nat>, b: seq<nat>)
    requires multiset(a) == multiset(b) && Distinct(b)
    ensures Distinct(a) && forall x :: x in a <==> x in b
  {
    forall x ensures x in a <==> x in b {
      assert x in multiset(a) <==> x in multiset(b);
    }
    forall i, j | 0 <= i < j < |a| ensures a[i] != a[j] {
      if a[i] == a[j] {
        Twice(a, i, j);
        DistinctOnce(b, a[i]);
      }
    }
  }

  lemma Twice(s: seq<nat>, i: nat, j: nat)
    requires i < j < |s| && s[i] == s[j]
    ensures multiset(s)[s[i]] >= 2
  {
    assert s == s[..j] + [s[j]] + s[j + 1..];
    assert s[i] in s[..j];
  }

  lemma {:induction false} DistinctOnce(s: seq<nat>, x: nat)
    requires Distinct(s)
    ensures multiset(s)[x] <= 1
  {
    if s != [] {
      var front := s[..|s| - 1];
      assert s == front + [s[|s| - 1]];
      DistinctOnce(front, x);
      if s[|s| - 1] == x {
        assert x !in front;
      }
    }
  }
}
