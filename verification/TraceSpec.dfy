/** What a whole trace conversion emits (scripts/convert_otel_2_perfetto.py): the walks of SpanForest and
    the lines of SpanLayout put together, as far as it can be said without objects. */
module TraceSpec {
  import opened Common
  import opened SpanForest
  import opened SpanLayout
  import opened SpanObjects

  // ----- Lists of lists ---------------------------------------------------------------------

  function Flat(lists: seq<seq<nat>>): seq<nat> {
    if lists == [] then [] else Flat(lists[..|lists| - 1]) + lists[|lists| - 1]
  }

  lemma FlatSnoc(lists: seq<seq<nat>>, list: seq<nat>)
    ensures Flat([]) == [] && Flat(lists + [list]) == Flat(lists) + list
  {
    assert (lists + [list])[..|lists|] == lists;
  }

  lemma {:induction false} FlatConcat(a: seq<seq<nat>>, b: seq<seq<nat>>)
    ensures Flat(a + b) == Flat(a) + Flat(b)
  {
    if b == [] {
      assert a + b == a;
    } else {
      assert (a + b)[..|a + b| - 1] == a + b[..|b| - 1];
      FlatConcat(a, b[..|b| - 1]);
    }
  }

  /** Sorting every list sorts their concatenation. */
  lemma {:induction false} FlatPermuted(a: seq<seq<nat>>, b: seq<seq<nat>>)
    requires |a| == |b| && forall n | 0 <= n < |a| :: multiset(a[n]) == multiset(b[n])
    ensures multiset(Flat(a)) == multiset(Flat(b))
  {
    if a != [] {
      FlatPermuted(a[..|a| - 1], b[..|b| - 1]);
    }
  }

  /** The laid-out spans, root by root, are all laid-out spans. */
  lemma {:induction false} FlatUnderRoots(rs: seq<Record>, ks: seq<nat>, lists: seq<seq<nat>>)
    requires |lists| == |ks| && forall n | 0 <= n < |ks| :: lists[n] == UnderRoot(rs, ks, n)
    ensures Flat(lists) == Below(rs, Below(rs, ks))
  {
    hide Kids;
    if ks != [] {
      var n := |ks| - 1;
      assert forall m | 0 <= m < n :: UnderRoot(rs, ks[..n], m) == UnderRoot(rs, ks, m);
      FlatUnderRoots(rs, ks[..n], lists[..n]);
      BelowConcat(rs, Below(rs, ks[..n]), Kids(rs, ks[n]));
    }
  }

  // ----- Numbering ------------------------------------------------------------------------------

  /** The walk below each placed span gives it and its descendants the line of the placed span. */
  ghost function NumberedWalks(cells: seq<Cell>, rs: seq<Record>, placed: seq<nat>, lines: seq<nat>): (r: seq<Cell>)
    requires |placed| == |lines| && forall x | x in placed :: AtDepth(rs, x, 2)
    ensures |r| == |cells|
  {
    if placed == [] then cells
    else
      var n := |placed| - 1;
      assert placed[n] in placed;
      Applied(Numberer(lines[n]), NumberedWalks(cells, rs, placed[..n], lines[..n]), Walk(rs, placed[n], 2))
  }

  lemma NumberedSnoc(cells: seq<Cell>, rs: seq<Record>, placed: seq<nat>, lines: seq<nat>, x: nat, line: nat)
    requires |placed| == |lines| && (forall y | y in placed :: AtDepth(rs, y, 2)) && AtDepth(rs, x, 2)
    ensures forall y | y in placed + [x] :: AtDepth(rs, y, 2)
    ensures NumberedWalks(cells, rs, placed + [x], lines + [line])
            == Applied(Numberer(line), NumberedWalks(cells, rs, placed, lines), Walk(rs, x, 2))
  {
    hide AtDepth, Walk, Applied, Numberer;
    assert (placed + [x])[..|placed|] == placed && (lines + [line])[..|lines|] == lines;
  }

  /** Numbering changes nothing that the layout looks at. */
  lemma {:induction false} AppliedKeeps(line: nat, cells: seq<Cell>, w: seq<nat>, x: nat)
    requires x < |cells|
    ensures SpanOf(Applied(Numberer(line), cells, w)[x]) == SpanOf(cells[x])
  {
    if w != [] {
      AppliedKeeps(line, cells, w[..|w| - 1], x);
    }
  }

  /** The span as the layout sees it. */
  function SpanOf(c: Cell): Span {
    Span(Engine(if c.perfetto.Some? then c.perfetto.value.pid else 0), c.start, c.end)
  }

  lemma {:induction false} NumberedKeeps(cells: seq<Cell>, rs: seq<Record>, placed: seq<nat>, lines: seq<nat>, x: nat)
    requires |placed| == |lines| && (forall y | y in placed :: AtDepth(rs, y, 2)) && x < |cells|
    ensures SpanOf(NumberedWalks(cells, rs, placed, lines)[x]) == SpanOf(cells[x])
  {
    hide AtDepth, Walk, Applied, Numberer, SpanOf;
    if placed != [] {
      var n := |placed| - 1;
      assert placed[n] in placed;
      NumberedKeeps(cells, rs, placed[..n], lines[..n], x);
      AppliedKeeps(lines[n], NumberedWalks(cells, rs, placed[..n], lines[..n]), Walk(rs, placed[n], 2), x);
    }
  }

  /** Span `x` is visited from a span at depth two exactly when that is its ancestor there. */
  lemma VisitedFromAncestor(rs: seq<Record>, a: nat, x: nat, d: nat)
    requires AtDepth(rs, a, 2) && d >= 2 && AtDepth(rs, x, d)
    ensures x in Walk(rs, a, 2) <==> x < |rs| && Up(rs, x, d - 2) == Some(a)
  {
    assert x < |rs|;
    hide *;
    WalkVisits(rs, a, 2, x);
    if x in Walk(rs, a, 2) {
      var k: nat :| Up(rs, x, k) == Some(a);
      AncestorDepth(rs, x, k, a, 2);
      DepthIsUnique(rs, x, d, k + 2);
    }
  }

  /** Each span carries the line given to its ancestor at depth two. */
  lemma {:induction false} NumberedOnce(cells: seq<Cell>, rs: seq<Record>, placed: seq<nat>, lines: seq<nat>,
                                        x: nat, d: nat)
    requires |placed| == |lines| && Distinct(placed) && forall y | y in placed :: AtDepth(rs, y, 2)
    requires |cells| == |rs| && d >= 2 && x < |rs| && AtDepth(rs, x, d)
    ensures forall i | 0 <= i < |placed| && Up(rs, x, d - 2) == Some(placed[i]) ::
              NumberedWalks(cells, rs, placed, lines)[x] == Numberer(lines[i])(cells[x])
    ensures (forall i | 0 <= i < |placed| :: Up(rs, x, d - 2) != Some(placed[i])) ==>
              NumberedWalks(cells, rs, placed, lines)[x] == cells[x]
  {
    hide AtDepth, Walk, Applied, Numberer, Up;
    if placed != [] {
      var n := |placed| - 1;
      var a := placed[n];
      assert a in placed;
      NumberedOnce(cells, rs, placed[..n], lines[..n], x, d);
      VisitedFromAncestor(rs, a, x, d);
      WalkDistinct(rs, a, 2);
      AppliedOnce(Numberer(lines[n]), NumberedWalks(cells, rs, placed[..n], lines[..n]), Walk(rs, a, 2), x);
    }
  }

  // ----- The whole conversion --------------------------------------------------------------------

  /** The layout's log: each placed span, as converted, on its line. */
  function Placements(cells: seq<Cell>, placed: seq<nat>, lines: seq<nat>): (log: seq<Placement>)
    requires |placed| == |lines| && forall x | x in placed :: x < |cells|
    ensures |log| == |placed|
  {
    seq(|placed|, i requires 0 <= i < |placed| => assert placed[i] in placed; Placement(SpanOf(cells[placed[i]]), lines[i]))
  }

  /** What is emitted for span `x` at depth `d`: start and shortened duration, the process of the thread above it,
      and `line`. */
  ghost function Emission(spans: seq<OtelSpan>, before: seq<Cell>, x: nat, d: nat, line: nat): PerfettoSpan
    requires |before| == |spans| && x < |spans| && d >= 2 && AtDepth(Records(spans), x, d)
  {
    EarlierSteps(Records(spans), x, d - 1, d);
    var c, thread := before[x], Up(Records(spans), x, d - 1).value;
    PerfettoSpan(c.start, c.end - 1000 - c.start, spans[thread].pid, line)
  }

  /** `placed` lists the spans at depth two and `visited` those at depth two or more, each once; and the record emitted
      for a visited span carries the line of its ancestor among the placed ones. */
  ghost predicate EmitsAll(spans: seq<OtelSpan>, before: seq<Cell>, elems: seq<Option<PerfettoSpan>>,
                           visited: seq<nat>, placed: seq<nat>, lines: seq<nat>)
    requires |before| == |spans|
  {
    var rs := Records(spans);
    && |elems| == |visited| && |placed| == |lines|
    && Distinct(visited) && (forall x: nat :: x in visited <==> exists d: nat :: d >= 2 && AtDepth(rs, x, d))
    && Distinct(placed) && (forall x: nat :: x in placed <==> AtDepth(rs, x, 2))
    && (forall k, d: nat | 0 <= k < |visited| && d >= 2 && AtDepth(rs, visited[k], d) ::
          EmittedOn(spans, before, elems[k], visited[k], d, placed, lines))
  }

  /** The ancestor of `x` at depth two is placed, and `elem` is the record of `x` on its line. */
  ghost predicate EmittedOn(spans: seq<OtelSpan>, before: seq<Cell>, elem: Option<PerfettoSpan>, x: nat, d: nat,
                            placed: seq<nat>, lines: seq<nat>)
    requires |before| == |spans| && |placed| == |lines| && d >= 2 && AtDepth(Records(spans), x, d)
  {
    && x < |spans|
    && exists i :: 0 <= i < |placed| && Up(Records(spans), x, d - 2) == Some(placed[i])
                   && elem == Some(Emission(spans, before, x, d, lines[i]))
  }

  /** All threads, in the order of the loops. */
  function Threads(rs: seq<Record>): seq<nat> { Below(rs, RootsUpTo(rs, |rs|)) }

  lemma AncestorPlaced(rs: seq<Record>, x: nat, d: nat)
    requires d >= 2 && AtDepth(rs, x, d)
    ensures x < |rs| && Up(rs, x, d - 2).Some? && AtDepth(rs, Up(rs, x, d - 2).value, 2)
  {
    EarlierSteps(rs, x, d - 2, d);
    UpUp(rs, x, d - 2, 2);
  }

  lemma RecordOn(spans: seq<OtelSpan>, before: seq<Cell>, placed: seq<nat>, lines: seq<nat>, x: nat, d: nat)
    requires |before| == |spans| && |placed| == |lines| && d >= 2 && AtDepth(Records(spans), x, d)
    requires Distinct(placed) && (forall y: nat :: y in placed <==> AtDepth(Records(spans), y, 2))
    requires forall t | t in Threads(Records(spans)) :: AtDepth(Records(spans), t, 1)
    ensures x < |spans|
    ensures var after := NumberedWalks(ConvertedThreads(before, spans, Threads(Records(spans))), Records(spans),
                                       placed, lines);
            EmittedOn(spans, before, after[x].perfetto, x, d, placed, lines)
  {
    hide *;
    var rs := Records(spans);
    ThreadsOf(rs);
    var converted := ConvertedThreads(before, spans, Threads(rs));
    AncestorPlaced(rs, x, d);
    ConvertedExactlyOnce(before, spans, x, d);
    NumberedOnce(converted, rs, placed, lines, x, d);
    var a := Up(rs, x, d - 2).value;
    assert a in placed;
    var i :| 0 <= i < |placed| && placed[i] == a;
    assert Up(rs, x, d - 2) == Some(placed[i]);
    EmissionOf(spans, before, x, d, lines[i]);
    OnLine(spans, before, NumberedWalks(converted, rs, placed, lines)[x].perfetto, x, d, placed, lines, i);
  }

  lemma ThreadsOf(rs: seq<Record>)
    ensures Threads(rs) == Below(rs, RootsUpTo(rs, |rs|))
  {
  }

  lemma EmissionOf(spans: seq<OtelSpan>, before: seq<Cell>, x: nat, d: nat, line: nat)
    requires |before| == |spans| && x < |spans| && d >= 2 && AtDepth(Records(spans), x, d)
    ensures Up(Records(spans), x, d - 1).Some?
    ensures var t := Up(Records(spans), x, d - 1).value;
            Numberer(line)(Converter(spans[t].pid)(before[x])).perfetto == Some(Emission(spans, before, x, d, line))
  {
    EarlierSteps(Records(spans), x, d - 1, d);
  }

  lemma OnLine(spans: seq<OtelSpan>, before: seq<Cell>, elem: Option<PerfettoSpan>, x: nat, d: nat,
               placed: seq<nat>, lines: seq<nat>, i: nat)
    requires |before| == |spans| && |placed| == |lines| && d >= 2 && AtDepth(Records(spans), x, d)
    requires x < |spans| && i < |placed| && Up(Records(spans), x, d - 2) == Some(placed[i])
    requires elem == Some(Emission(spans, before, x, d, lines[i]))
    ensures EmittedOn(spans, before, elem, x, d, placed, lines)
  {
  }

  /** What the walks over the final cells emit. */
  lemma EmissionIsComplete(spans: seq<OtelSpan>, before: seq<Cell>, gathered: seq<nat>, placed: seq<nat>,
                           lines: seq<nat>)
    requires |before| == |spans| && |placed| == |lines|
    requires multiset(gathered) == multiset(placed) == multiset(LaidOut(Records(spans)))
    requires forall t | t in Threads(Records(spans)) :: AtDepth(Records(spans), t, 1)
    ensures (forall x | x in gathered :: AtDepth(Records(spans), x, 2)) && forall x | x in placed :: AtDepth(Records(spans), x, 2)
    ensures var rs := Records(spans);
            var visited := WalkAll(rs, gathered, 2);
            var after := NumberedWalks(ConvertedThreads(before, spans, Threads(rs)), rs, placed, lines);
            EmitsAll(spans, before, RecordsOf(after, visited), visited, placed, lines)
  {
    hide AtDepth, WalkAll, NumberedWalks, ConvertedThreads, LaidOut, EmittedOn, Threads, Distinct;
    var rs := Records(spans);
    VisitedExactlyOnce(rs, gathered);
    LaidOutIsDepthTwo(rs);
    SameElements(placed, LaidOut(rs));
    var visited := WalkAll(rs, gathered, 2);
    var after := NumberedWalks(ConvertedThreads(before, spans, Threads(rs)), rs, placed, lines);
    forall k, d: nat | 0 <= k < |visited| && d >= 2 && AtDepth(rs, visited[k], d)
      ensures EmittedOn(spans, before, RecordsOf(after, visited)[k], visited[k], d, placed, lines)
    {
      RecordOn(spans, before, placed, lines, visited[k], d);
    }
  }
}
