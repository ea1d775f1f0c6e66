/** Replacing the generated block between two markers (docs/scripts/update_lmsys_sglang_blogs.py). */
module MarkerBlock {
  import opened Common

  datatype Markers = Markers(begin: string, end: string)

  /** The markers of the documentation's index page. */
  function BlogMarkers(): Markers {
    Markers("{" + BeginName() + " */}", "{" + EndName() + " */}")
  }

  function BeginName(): string { "/* BEGIN_LMSYS_SGLANG_BLOG_CARDS" }

  function EndName(): string { "/* END_LMSYS_SGLANG_BLOG_CARDS" }

  /** Markers that cannot run into themselves: the first character of the end marker is unique. */
  ghost predicate Simple(m: Markers) {
    m.begin != [] && m.end != [] && forall k | 0 < k < |m.end| :: m.end[k] != m.end[0]
  }

  lemma NoBrace()
    ensures '{' !in EndName() && '{' !in " */}"
  {
  }

  lemma BlogMarkersAreSimple()
    ensures Simple(BlogMarkers())
  {
    NoBrace();
    hide EndName, BeginName;
    var rest := EndName() + " */}";
    var e := BlogMarkers().end;
    assert e == "{" + rest;
    forall k | 0 < k < |e| ensures e[k] != e[0] {
      assert e[k] == rest[k - 1];
    }
  }

  predicate OccursAt(text: string, pat: string, i: nat) {
    i + |pat| <= |text| && text[i..i + |pat|] == pat
  }

  ghost predicate Contains(text: string, pat: string) { exists i :: OccursAt(text, pat, i) }

  /** The first occurrence at or after `i`. */
  function Find(text: string, pat: string, i: nat): (r: Option<nat>)
    ensures r.Some? ==> i <= r.value && OccursAt(text, pat, r.value)
    ensures r.Some? ==> forall k: nat | i <= k < r.value :: !OccursAt(text, pat, k)
    ensures r.None? ==> forall k: nat | i <= k :: !OccursAt(text, pat, k)
    decreases |text| - i
  {
    if i >= |text| then (if OccursAt(text, pat, i) then Some(i) else None)
    else if OccursAt(text, pat, i) then Some(i)
    else Find(text, pat, i + 1)
  }

  function Block(m: Markers, cards: string): string {
    m.begin + "\n" + cards + "\n" + m.end
  }

  function NoBlock(): string { "Could not find exactly one marker block" }

  /** The non-greedy substitution, at most once: from the first begin marker to the first end marker
      after it. */
  function Replaced(m: Markers, text: string, cards: string): Result<string> {
    var i := Find(text, m.begin, 0);
    if i.None? then Err(NoBlock())
    else
      var j := Find(text, m.end, i.value + |m.begin|);
      if j.None? then Err(NoBlock())
      else Ok(text[..i.value] + Block(m, cards) + text[j.value + |m.end|..])
  }

  /** If the first begin marker is not followed by an end marker, no other one is: looking at the first
      is enough for a leftmost match. */
  lemma FirstBeginSuffices(m: Markers, text: string, i: nat, k: nat)
    requires Find(text, m.begin, 0) == Some(i) && OccursAt(text, m.begin, k)
    requires Find(text, m.end, i + |m.begin|).None?
    ensures Find(text, m.end, k + |m.begin|).None?
  {
    assert i <= k;
    forall p: nat | k + |m.begin| <= p ensures !OccursAt(text, m.end, p) {}
  }

  /** The replacement succeeds exactly when some begin marker has an end marker after it. */
  lemma ReplacedOkIff(m: Markers, text: string, cards: string)
    ensures Replaced(m, text, cards).Ok? <==>
            exists i: nat, j: nat :: OccursAt(text, m.begin, i) && OccursAt(text, m.end, j) && i + |m.begin| <= j
  {
    hide Block, NoBlock;
    var first := Find(text, m.begin, 0);
    if i: nat, j: nat :| OccursAt(text, m.begin, i) && OccursAt(text, m.end, j) && i + |m.begin| <= j {
      assert first.Some? && first.value <= i;
      var last := Find(text, m.end, first.value + |m.begin|);
      assert last.Some?;
    }
    if Replaced(m, text, cards).Ok? {
      var i, j := Locate(m, text, cards);
      assert OccursAt(text, m.begin, i) && OccursAt(text, m.end, j);
    }
  }

  /** Where the markers are when the replacement succeeds. */
  lemma Locate(m: Markers, text: string, cards: string) returns (i: nat, j: nat)
    requires Replaced(m, text, cards).Ok?
    ensures Find(text, m.begin, 0) == Some(i) && Find(text, m.end, i + |m.begin|) == Some(j)
  {
    hide Find, Block;
    i := Find(text, m.begin, 0).value;
    j := Find(text, m.end, i + |m.begin|).value;
  }

  lemma FindBounds(text: string, pat: string, i: nat, r: nat)
    requires Find(text, pat, i) == Some(r)
    ensures i <= r && r + |pat| <= |text|
  {
  }

  /** What a replacement yields, given where the markers are. */
  lemma ReplacedAt(m: Markers, text: string, cards: string, i: nat, j: nat)
    requires Find(text, m.begin, 0) == Some(i) && Find(text, m.end, i + |m.begin|) == Some(j)
    ensures i + |m.begin| <= j && j + |m.end| <= |text|
    ensures Replaced(m, text, cards) == Ok(text[..i] + Block(m, cards) + text[j + |m.end|..])
  {
    hide Block, Find, OccursAt, NoBlock;
    FindBounds(text, m.begin, 0, i);
    FindBounds(text, m.end, i + |m.begin|, j);
  }

  /** Everything before the first begin marker and after its end marker is untouched, and the block is
      the new one. */
  lemma OutsideUnchanged(m: Markers, text: string, cards: string) returns (i: nat, j: nat)
    requires Replaced(m, text, cards).Ok?
    ensures Find(text, m.begin, 0) == Some(i) && Find(text, m.end, i + |m.begin|) == Some(j)
    ensures i <= j && j + |m.end| <= |text|
    ensures Replaced(m, text, cards).value == text[..i] + Block(m, cards) + text[j + |m.end|..]
  {
    hide *;
    i, j := Locate(m, text, cards);
    ReplacedAt(m, text, cards, i, j);
  }

  lemma OccursInPrefix(a: string, b: string, n: nat, pat: string, k: nat)
    requires n <= |a| && n <= |b| && a[..n] == b[..n] && k + |pat| <= n
    ensures OccursAt(a, pat, k) == OccursAt(b, pat, k)
  {
    assert a[k..k + |pat|] == a[..n][k..k + |pat|] && b[k..k + |pat|] == b[..n][k..k + |pat|];
  }

  /** Two texts that agree up to the end of the first marker have it at the same place. */
  lemma SameFirst(text: string, t: string, pat: string, i: nat)
    requires Find(text, pat, 0) == Some(i) && i + |pat| <= |t| && t[..i + |pat|] == text[..i + |pat|]
    ensures Find(t, pat, 0) == Some(i)
  {
    hide Find;
    forall k: nat | k <= i ensures OccursAt(t, pat, k) == OccursAt(text, pat, k) {
      OccursInPrefix(t, text, i + |pat|, pat, k);
    }
    assert OccursAt(t, pat, i);
  }

  /** The new text has its first begin marker where the old one had it. */
  lemma SameBegin(m: Markers, text: string, inside: string, i: nat, rest: string)
    requires Find(text, m.begin, 0) == Some(i)
    ensures i <= |text| && Find(text[..i] + m.begin + inside + rest, m.begin, 0) == Some(i)
  {
    hide Find;
    var b := m.begin;
    var t := text[..i] + b + inside + rest;
    assert text[i..i + |b|] == b;
    assert text[..i + |b|] == text[..i] + b;
    assert t[..i + |b|] == text[..i] + b;
    SameFirst(text, t, b, i);
  }

  /** An earlier occurrence cannot reach into the marker that follows, whose first character is unique. */
  lemma NoStraddling(head: string, inside: string, e: string, tail: string, q: nat)
    requires e != [] && forall k | 0 < k < |e| :: e[k] != e[0]
    requires |head| <= q < |head| + |inside| && OccursAt(head + inside + e + tail, e, q)
    ensures q + |e| <= |head| + |inside| && OccursAt(inside, e, q - |head|)
  {
    var t, at := head + inside + e + tail, |head| + |inside|;
    assert t[at] == e[0];
    assert q + |e| <= at;
    assert t[q..q + |e|] == inside[q - |head|..q - |head| + |e|];
  }

  /** In `head + inside + e + tail`, the first `e` after `head` is the one written there, unless
      `inside` holds one of its own. */
  lemma EndFound(head: string, inside: string, e: string, tail: string)
    requires e != [] && forall k | 0 < k < |e| :: e[k] != e[0]
    ensures var j := Find(head + inside + e + tail, e, |head|);
            && j.Some? && j.value <= |head| + |inside|
            && (j.value == |head| + |inside| <==> !Contains(inside, e))
            && (Contains(inside, e) ==> j.value + |e| <= |head| + |inside|)
  {
    hide Find;
    var t, at := head + inside + e + tail, |head| + |inside|;
    assert t[at..at + |e|] == e;
    assert OccursAt(t, e, at);
    var j := Find(t, e, |head|);
    if j.value < at {
      NoStraddling(head, inside, e, tail, j.value);
    }
    if k: nat :| OccursAt(inside, e, k) {
      assert t[|head| + k..|head| + k + |e|] == inside[k..k + |e|];
      assert OccursAt(t, e, |head| + k);
    }
  }

  lemma SimpleEnd(m: Markers)
    requires Simple(m)
    ensures m.end != [] && forall k | 0 < k < |m.end| :: m.end[k] != m.end[0]
  {
  }

  lemma BlockParts(m: Markers, cards: string, p: string, tail: string)
    ensures p + Block(m, cards) + tail == p + m.begin + ("\n" + cards + "\n") + (m.end + tail)
    ensures p + m.begin + ("\n" + cards + "\n") + (m.end + tail) == p + m.begin + ("\n" + cards + "\n") + m.end + tail
  {
    var b, e, s := m.begin, m.end, "\n" + cards + "\n";
    assert Block(m, cards) == b + s + e;
  }

  lemma Regrouped(a: string, b: string, c: string, d: string)
    ensures a + b + (c + d) == a + b + c + d && a + (b + c + d) == a + b + c + d
  {
  }

  lemma FrontOf(p: string, b: string, c: string)
    ensures (p + b + c)[..|p|] == p
  {
  }

  lemma Cut(a: string, b: string, e: string, c: string, k: nat)
    requires k + |e| <= |a + b + e|
    ensures k == |a| + |b| ==> (a + b + e + c)[k + |e|..] == c
    ensures k < |a| + |b| ==> |(a + b + e + c)[k + |e|..]| > |c|
  {
  }

  /** Replacing again, in a text made of the pieces of a first replacement: what remains behind the block
      is the old tail exactly when the inside holds no end marker. */
  lemma SecondPass(m: Markers, text: string, i: nat, inside: string, tail: string, second: string) returns (rest: string)
    requires Simple(m) && Find(text, m.begin, 0) == Some(i) && i <= |text|
    ensures var t := text[..i] + m.begin + inside + m.end + tail;
            Replaced(m, t, second) == Ok(text[..i] + Block(m, second) + rest)
    ensures rest == tail <==> !Contains(inside, m.end)
  {
    SimpleEnd(m);
    hide *;
    var head := text[..i] + m.begin;
    var t := head + inside + m.end + tail;
    var k := BothFound(m, text, i, inside, tail);
    FrontOf(text[..i], m.begin, inside + m.end + tail);
    Regrouped(head, inside, m.end, tail);
    ReplacedAt(m, t, second, i, k);
    rest := t[k + |m.end|..];
  }

  /** Where the markers are in such a text, and what follows the end marker found. */
  lemma BothFound(m: Markers, text: string, i: nat, inside: string, tail: string) returns (k: nat)
    requires m.end != [] && forall q | 0 < q < |m.end| :: m.end[q] != m.end[0]
    requires Find(text, m.begin, 0) == Some(i) && i <= |text|
    ensures var t := text[..i] + m.begin + inside + m.end + tail;
            && Find(t, m.begin, 0) == Some(i) && Find(t, m.end, i + |m.begin|) == Some(k) && k + |m.end| <= |t|
            && (t[k + |m.end|..] == tail <==> !Contains(inside, m.end))
  {
    hide *;
    var head := text[..i] + m.begin;
    Regrouped(head, inside, m.end, tail);
    SameBegin(m, text, inside, i, m.end + tail);
    EndFound(head, inside, m.end, tail);
    k := Find(head + inside + m.end + tail, m.end, |head|).value;
    Cut(head, inside, m.end, tail, k);
  }

  lemma Cancel(p: string, x: string, y: string)
    ensures p + x == p + y <==> x == y
  {
    if p + x == p + y {
      assert x == (p + x)[|p|..] && y == (p + y)[|p|..];
    }
  }

  /** Replacing twice is replacing once with the second cards, exactly when the first cards do not bring
      an end marker of their own. */
  lemma ReplaceTwiceIff(m: Markers, text: string, first: string, second: string)
    requires Simple(m) && Replaced(m, text, first).Ok?
    ensures Replaced(m, Replaced(m, text, first).value, second) == Replaced(m, text, second)
            <==> !Contains("\n" + first + "\n", m.end)
  {
    hide *;
    var i, j := Locate(m, text, first);
    ReplacedAt(m, text, first, i, j);
    ReplacedAt(m, text, second, i, j);
    var tail := text[j + |m.end|..];
    BlockParts(m, first, text[..i], tail);
    var rest := SecondPass(m, text, i, "\n" + first + "\n", tail, second);
    Cancel(text[..i] + Block(m, second), rest, tail);
  }

  /** Cards that bring an end marker do break it, in the smallest page there is. */
  lemma CardsWithEndMarker(second: string)
    ensures var m := BlogMarkers();
            var text := m.begin + m.end;
            && Replaced(m, text, m.end).Ok?
            && Replaced(m, Replaced(m, text, m.end).value, second) != Replaced(m, text, second)
  {
    var m := BlogMarkers();
    BlogMarkersAreSimple();
    hide *;
    MarkersAlone(m);
    EndInside(m.end);
    ReplaceTwiceIff(m, m.begin + m.end, m.end, second);
  }

  lemma MarkersAlone(m: Markers)
    ensures Replaced(m, m.begin + m.end, m.end).Ok?
  {
    hide NoBlock, Block;
    var text := m.begin + m.end;
    assert OccursAt(text, m.begin, 0) && OccursAt(text, m.end, |m.begin|);
  }

  lemma EndInside(e: string)
    ensures Contains("\n" + e + "\n", e)
  {
    assert OccursAt("\n" + e + "\n", e, 1);
  }
}
