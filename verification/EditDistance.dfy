/** The character-level edit distance of the OCR evaluation (benchmark/ocr/eval_utils.py).

    The program fills one row of the Wagner-Fischer table in place, and on equal
    characters takes the diagonal entry without comparing it with its neighbours.
    The reference point is independent of any table: an edit script is a list of
    operations, and the distance is the least cost of a script that rewrites one
    string into the other. */
module EditDistance {
  import opened Common

  // ----- Edit scripts ---------------------------------------------------------

  /** One operation of a script that reads the source string from left to right. */
  datatype Edit = Keep | Delete | Insert(c: char) | Substitute(c: char)

  /** The string a script produces; None when it does not consume exactly `s`. */
  function Apply(script: seq<Edit>, s: string): Option<string> {
    if script == [] then
      if s == [] then Some([]) else None
    else
      var front, op := script[..|script| - 1], script[|script| - 1];
      if op.Insert? then
        var r := Apply(front, s);
        if r.None? then None else Some(r.value + [op.c])
      else if s == [] then None
      else
        var r := Apply(front, Init(s));
        if r.None? then None
        else match op
          case Keep => Some(r.value + [Last(s)])
          case Substitute(c) => Some(r.value + [c])
          case _ => r
  }

  /** Every operation but Keep costs one. */
  function Cost(script: seq<Edit>): nat {
    if script == [] then 0
    else Cost(script[..|script| - 1]) + if script[|script| - 1].Keep? then 0 else 1
  }

  ghost predicate Rewrites(script: seq<Edit>, a: string, b: string) {
    Apply(script, a) == Some(b)
  }

  /** `d` is the least cost of a script rewriting `a` into `b`. */
  ghost predicate IsLeastCost(d: nat, a: string, b: string) {
    && (exists script :: Rewrites(script, a, b) && Cost(script) == d)
    && (forall script :: Rewrites(script, a, b) ==> d <= Cost(script))
  }

  // ----- The recurrence -------------------------------------------------------

  function Init(s: string): string
    requires s != []
  {
    s[..|s| - 1]
  }

  function Last(s: string): char
    requires s != []
  {
    s[|s| - 1]
  }

  function Min(x: nat, y: nat): nat { if x <= y then x else y }

  function Max(x: nat, y: nat): nat { if x <= y then y else x }

  /** The table entry for prefixes `a` and `b`: on equal last characters the
      diagonal alone, otherwise one more than the least of the three neighbours. */
  function Distance(a: string, b: string): nat
    decreases |a| + |b|
  {
    if a == [] then |b|
    else if b == [] then |a|
    else if Last(a) == Last(b) then Distance(Init(a), Init(b))
    else 1 + Min(Distance(Init(a), Init(b)), Min(Distance(Init(a), b), Distance(a, Init(b))))
  }

  // ----- Metric laws ----------------------------------------------------------

  lemma {:induction false} Symmetric(a: string, b: string)
    ensures Distance(a, b) == Distance(b, a)
    decreases |a| + |b|
  {
    if a != [] && b != [] {
      Symmetric(Init(a), Init(b));
      Symmetric(Init(a), b);
      Symmetric(a, Init(b));
    }
  }

  /** Dropping the last character moves the distance by at most one. */
  lemma {:induction false} DropLast(a: string, b: string)
    requires a != []
    ensures Distance(Init(a), b) <= Distance(a, b) + 1
    ensures Distance(a, b) <= Distance(Init(a), b) + 1
    decreases |a| + |b|
  {
    if b != [] {
      Symmetric(Init(a), b);
      Symmetric(Init(a), Init(b));
      DropLast(b, Init(a));
      DropLast(a, Init(b));
    }
  }

  /** Why no minimum is needed on a match: with or without equal last characters
      the entry is bounded by every neighbour, so the diagonal alone is optimal. */
  lemma {:induction false} BoundedByNeighbours(a: string, b: string)
    requires a != [] && b != []
    ensures Distance(a, b) <= Distance(Init(a), b) + 1
    ensures Distance(a, b) <= Distance(a, Init(b)) + 1
    ensures Distance(a, b) <= Distance(Init(a), Init(b)) + if Last(a) == Last(b) then 0 else 1
  {
    DropLast(a, b);
    DropLast(b, a);
    Symmetric(a, b);
    Symmetric(a, Init(b));
  }

  lemma {:induction false} ZeroOnlyOnEqual(a: string, b: string)
    ensures Distance(a, b) == 0 <==> a == b
    decreases |a| + |b|
  {
    if a != [] && b != [] && Last(a) == Last(b) {
      ZeroOnlyOnEqual(Init(a), Init(b));
      assert a == Init(a) + [Last(a)] && b == Init(b) + [Last(b)];
    }
  }

  lemma {:induction false} AtMostLonger(a: string, b: string)
    ensures Distance(a, b) <= Max(|a|, |b|)
    decreases |a| + |b|
  {
    if a != [] && b != [] {
      AtMostLonger(Init(a), Init(b));
    }
  }

  lemma {:induction false} AtLeastLengthGap(a: string, b: string)
    ensures |a| <= |b| + Distance(a, b) && |b| <= |a| + Distance(a, b)
    decreases |a| + |b|
  {
    if a != [] && b != [] {
      AtLeastLengthGap(Init(a), Init(b));
      AtLeastLengthGap(Init(a), b);
      AtLeastLengthGap(a, Init(b));
    }
  }

  lemma {:induction false} Triangle(a: string, b: string, c: string)
    ensures Distance(a, c) <= Distance(a, b) + Distance(b, c)
    decreases |a| + |b| + |c|
  {
    if a == [] {
      AtLeastLengthGap(b, c);
    } else if c == [] {
      AtLeastLengthGap(a, b);
    } else if b == [] {
      AtMostLonger(a, c);
    } else {
      BoundedByNeighbours(a, c);
      Triangle(Init(a), b, c);
      Triangle(a, b, Init(c));
      Triangle(a, Init(b), c);
      Triangle(Init(a), Init(b), Init(c));
      Triangle(a, Init(b), Init(c));
      Triangle(Init(a), Init(b), c);
    }
  }

  // ----- The recurrence computes least script costs ------------------------------

  lemma Snoc(script: seq<Edit>, op: Edit)
    ensures (script + [op])[..|script|] == script && (script + [op])[|script|] == op
  {
  }

  /** No script beats the recurrence. */
  lemma {:induction false} NoCheaperScript(script: seq<Edit>, a: string, b: string)
    requires Rewrites(script, a, b)
    ensures Distance(a, b) <= Cost(script)
    decreases |script|
  {
    if script != [] {
      var front, op := script[..|script| - 1], script[|script| - 1];
      match op
      case Insert(c) =>
        var r := Apply(front, a).value;
        assert Init(b) == r;
        NoCheaperScript(front, a, r);
        if a != [] { BoundedByNeighbours(a, b); }
      case Delete =>
        NoCheaperScript(front, Init(a), b);
        DropLast(a, b);
      case _ =>
        var r := Apply(front, Init(a)).value;
        assert Init(b) == r;
        NoCheaperScript(front, Init(a), r);
        BoundedByNeighbours(a, b);
    }
  }

  /** Some script attains the recurrence. */
  lemma {:induction false} AttainingScript(a: string, b: string) returns (script: seq<Edit>)
    ensures Rewrites(script, a, b) && Cost(script) == Distance(a, b)
    decreases |a| + |b|
  {
    if a == [] && b == [] {
      script := [];
    } else if a == [] || (b != [] && Last(a) != Last(b) && Distance(a, b) == 1 + Distance(a, Init(b))) {
      var front := AttainingScript(a, Init(b));
      script := front + [Insert(Last(b))];
      Snoc(front, Insert(Last(b)));
      assert Init(b) + [Last(b)] == b;
    } else if b == [] || (Last(a) != Last(b) && Distance(a, b) == 1 + Distance(Init(a), b)) {
      var front := AttainingScript(Init(a), b);
      script := front + [Delete];
      Snoc(front, Delete);
    } else {
      var front := AttainingScript(Init(a), Init(b));
      var op := if Last(a) == Last(b) then Keep else Substitute(Last(b));
      script := front + [op];
      Snoc(front, op);
      assert Init(b) + [Last(b)] == b;
    }
  }

  /** The recurrence is the least cost of an insert/delete/substitute script. */
  lemma DistanceIsLeastCost(a: string, b: string)
    ensures IsLeastCost(Distance(a, b), a, b)
  {
    var script := AttainingScript(a, b);
    forall other | Rewrites(other, a, b)
      ensures Distance(a, b) <= Cost(other)
    {
      NoCheaperScript(other, a, b);
    }
  }

  // ----- The program ------------------------------------------------------------

  /** The entry of row `i`, column `j`. */
  function Entry(a: string, b: string, i: nat, j: nat): nat
    requires i <= |a| && j <= |b|
  {
    Distance(a[..i], b[..j])
  }

  lemma EntryStep(a: string, b: string, i: nat, j: nat)
    requires 1 <= i <= |a| && 1 <= j <= |b|
    ensures Entry(a, b, i, j) ==
            if a[i - 1] == b[j - 1] then Entry(a, b, i - 1, j - 1)
            else 1 + Min(Entry(a, b, i - 1, j - 1), Min(Entry(a, b, i - 1, j), Entry(a, b, i, j - 1)))
  {
    assert Init(a[..i]) == a[..i - 1] && Init(b[..j]) == b[..j - 1];
  }

  /** The single-row loop: `dp` holds row i up to column j and row i-1 beyond it,
      and `prev` the entry of row i-1 that was overwritten last. */
  method EditDistance(pred: string, ref: string) returns (d: nat)
    ensures IsLeastCost(d, pred, ref)
    ensures d == Distance(pred, ref)
  {
    var m, n := |pred|, |ref|;
    var dp := new nat[n + 1](j => j);
    for i := 1 to m + 1
      invariant forall k :: 0 <= k <= n ==> dp[k] == Entry(pred, ref, i - 1, k)
    {
      var prev := dp[0];
      dp[0] := i;
      for j := 1 to n + 1
        invariant prev == Entry(pred, ref, i - 1, j - 1)
        invariant forall k :: 0 <= k < j ==> dp[k] == Entry(pred, ref, i, k)
        invariant forall k :: j <= k <= n ==> dp[k] == Entry(pred, ref, i - 1, k)
      {
        var temp := dp[j];
        EntryStep(pred, ref, i, j);
        if pred[i - 1] == ref[j - 1] {
          dp[j] := prev;
        } else {
          dp[j] := 1 + Min(prev, Min(dp[j], dp[j - 1]));
        }
        prev := temp;
      }
    }
    d := dp[n];
    assert pred[..m] == pred && ref[..n] == ref;
    DistanceIsLeastCost(pred, ref);
  }

  /** The reported ratio. `normalize` stands for `strip` followed by
      `normalize_text`, which are not modelled. */
  method NormalizedEditDistance(normalize: string -> string, pred: string, ref: string)
    returns (ratio: real)
    ensures ratio == Ratio(normalize(pred), normalize(ref))
    ensures 0.0 <= ratio <= 1.0
    ensures ratio == 0.0 <==> normalize(pred) == normalize(ref)
  {
    var p, r := normalize(pred), normalize(ref);
    RatioLaws(p, r);
    if r == [] && p == [] {
      return 0.0;
    }
    if r == [] || p == [] {
      return 1.0;
    }
    var d := EditDistance(p, r);
    ratio := d as real / Max(|p|, |r|) as real;
  }

  /** Least script cost relative to the longer string; two empty strings agree. */
  ghost function Ratio(p: string, r: string): real {
    if p == [] && r == [] then 0.0
    else LeastCost(p, r) as real / Max(|p|, |r|) as real
  }

  ghost function LeastCost(a: string, b: string): (d: nat)
    ensures IsLeastCost(d, a, b)
  {
    DistanceIsLeastCost(a, b);
    var d: nat :| IsLeastCost(d, a, b);
    d
  }

  lemma LeastCostIsUnique(d: nat, a: string, b: string)
    requires IsLeastCost(d, a, b)
    ensures d == Distance(a, b)
  {
    DistanceIsLeastCost(a, b);
    var s :| Rewrites(s, a, b) && Cost(s) == d;
    var t :| Rewrites(t, a, b) && Cost(t) == Distance(a, b);
  }

  lemma Quotient(d: nat, m: nat)
    requires d <= m && 0 < m
    ensures 0.0 <= d as real / m as real <= 1.0
    ensures d as real / m as real == 0.0 <==> d == 0
    ensures d == m ==> d as real / m as real == 1.0
  {
    var q := d as real / m as real;
    assert q * m as real == d as real;
  }

  /** The ratio lies in [0, 1], is 0 exactly on equal strings, is symmetric, and is
      1 whenever exactly one string is empty. */
  lemma RatioLaws(p: string, r: string)
    ensures 0.0 <= Ratio(p, r) <= 1.0
    ensures Ratio(p, r) == 0.0 <==> p == r
    ensures Ratio(p, r) == Ratio(r, p)
    ensures (p == []) != (r == []) ==> Ratio(p, r) == 1.0
    ensures p != [] || r != [] ==> Ratio(p, r) == Distance(p, r) as real / Max(|p|, |r|) as real
  {
    LeastCostIsUnique(LeastCost(p, r), p, r);
    LeastCostIsUnique(LeastCost(r, p), r, p);
    AtMostLonger(p, r);
    ZeroOnlyOnEqual(p, r);
    Symmetric(p, r);
    if p != [] || r != [] {
      Quotient(Distance(p, r), Max(|p|, |r|));
    }
  }

  // ----- What a ratio of one means --------------------------------------------------

  ghost predicate NothingInCommon(a: string, b: string) {
    forall i, j | 0 <= i < |a| && 0 <= j < |b| :: a[i] != b[j]
  }

  lemma {:induction false} NothingInCommonIsFarthest(a: string, b: string)
    requires NothingInCommon(a, b)
    ensures Distance(a, b) == Max(|a|, |b|)
    decreases |a| + |b|
  {
    if a != [] && b != [] {
      NothingInCommonIsFarthest(Init(a), Init(b));
      NothingInCommonIsFarthest(Init(a), b);
      NothingInCommonIsFarthest(a, Init(b));
      assert a[|a| - 1] != b[|b| - 1];
    }
  }

  function Keeps(script: seq<Edit>): nat {
    if script == [] then 0
    else Keeps(script[..|script| - 1]) + if script[|script| - 1].Keep? then 1 else 0
  }

  function Deletes(script: seq<Edit>): nat {
    if script == [] then 0
    else Deletes(script[..|script| - 1]) + if script[|script| - 1].Delete? then 1 else 0
  }

  function Inserts(script: seq<Edit>): nat {
    if script == [] then 0
    else Inserts(script[..|script| - 1]) + if script[|script| - 1].Insert? then 1 else 0
  }

  /** Every script consumes one string and produces the other, so its cost is settled by what it keeps. */
  lemma {:induction false} CostByKeeps(script: seq<Edit>, a: string, b: string)
    requires Rewrites(script, a, b)
    ensures Cost(script) + Keeps(script) == |b| + Deletes(script) == |a| + Inserts(script)
    decreases |script|
  {
    if script != [] {
      var front, op := script[..|script| - 1], script[|script| - 1];
      var a' := if op.Insert? then a else Init(a);
      CostByKeeps(front, a', Apply(front, a').value);
    }
  }

  /** A way to keep characters that pays: more of them than it deletes, or than it inserts. */
  ghost predicate Pays(script: seq<Edit>) {
    Keeps(script) > Deletes(script) || Keeps(script) > Inserts(script)
  }

  /** The ratio is one exactly when keeping characters never pays: every rewriting keeps at most as many as
      it deletes, and at most as many as it inserts. */
  lemma RatioOneIff(p: string, r: string)
    requires p != [] || r != []
    ensures Ratio(p, r) == 1.0 <==> forall script :: Rewrites(script, p, r) ==> !Pays(script)
  {
    RatioLaws(p, r);
    DistanceIsLeastCost(p, r);
    AtMostLonger(p, r);
    var d, m := Distance(p, r), Max(|p|, |r|);
    Quotient(d, m);
    if d < m {
      BelowOne(d, m);
    }
    forall script | Rewrites(script, p, r) ensures Pays(script) <==> Cost(script) < m {
      CostByKeeps(script, p, r);
    }
  }

  lemma BelowOne(d: nat, m: nat)
    requires d < m
    ensures d as real / m as real < 1.0
  {
    var q := d as real / m as real;
    assert q * m as real == d as real;
  }

  /** Strings without a common character have ratio one, as documented ("completely different"). */
  lemma CompletelyDifferent(p: string, r: string)
    requires NothingInCommon(p, r) && (p != [] || r != [])
    ensures Ratio(p, r) == 1.0
  {
    NothingInCommonIsFarthest(p, r);
    RatioLaws(p, r);
    Quotient(Distance(p, r), Max(|p|, |r|));
  }

  /** The converse fails: swapping two characters already gives ratio one. */
  lemma RatioOneIsNotCompletelyDifferent()
    ensures Ratio("ab", "ba") == 1.0 && !NothingInCommon("ab", "ba")
  {
    var p, r := "ab", "ba";
    assert Init(p) == "a" && Init(r) == "b" && Last(p) == 'b' && Last(r) == 'a';
    assert Init("a") == "" && Init("b") == "";
    assert Distance("a", "b") == 1;
    assert Distance("a", "ba") == Distance("", "b") == 1;
    assert Distance("ab", "b") == Distance("a", "") == 1;
    assert Distance(p, r) == 2;
    RatioLaws(p, r);
    Quotient(2, 2);
    assert p[0] == r[1];
  }
}
