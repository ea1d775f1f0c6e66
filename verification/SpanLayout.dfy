/** Packing spans onto numbered lines (scripts/convert_otel_2_perfetto.py).

    Every process id owns an ordered dictionary of lines, and every line a sorted list of
    intervals. A line accepts a span when the neighbours found by bisection do not
    collide with it. This module is the value-level account: the bisection, the choice
    of a line, and whole runs of placements. The objects that the program updates in
    place are in LayoutObjects, proved against the functions given here. */
module SpanLayout {

  /** A stored span. The end has already been moved back by 1000 ns, so it may lie
      before the start. Python compares such pairs lexicographically. */
  datatype Interval = Interval(start: int, end: int)

  predicate Less(x: Interval, y: Interval) {
    x.start < y.start || (x.start == y.start && x.end < y.end)
  }

  // ----- Bisection ---------------------------------------------------------------

  ghost predicate DownClosed(s: seq<Interval>, below: Interval -> bool) {
    forall i, j | 0 <= i < j < |s| :: below(s[j]) ==> below(s[i])
  }

  ghost predicate SplitsAt(s: seq<Interval>, below: Interval -> bool, k: nat) {
    && k <= |s|
    && (forall i | 0 <= i < k :: below(s[i]))
    && (forall i | k <= i < |s| :: !below(s[i]))
  }

  /** bisect_left between `lo` and `hi`, `below` telling which entries come before the
      probe. Total on every list; on a list that `below` splits it finds the split. */
  function BisectLeft(s: seq<Interval>, below: Interval -> bool, lo: nat, hi: nat): (k: nat)
    requires lo <= hi <= |s|
    ensures lo <= k <= hi
    ensures DownClosed(s, below)
            && (forall i | 0 <= i < lo :: below(s[i]))
            && (forall i | hi <= i < |s| :: !below(s[i]))
            ==> SplitsAt(s, below, k)
    decreases hi - lo
  {
    if lo == hi then lo
    else
      var mid := (lo + hi) / 2;
      if below(s[mid]) then BisectLeft(s, below, mid + 1, hi)
      else BisectLeft(s, below, lo, mid)
  }

  /** check_overlap: look only at the two neighbours of the insertion point. */
  predicate NeighbourConflict(s: seq<Interval>, start: int, end: int) {
    var idx := BisectLeft(s, (x: Interval) => x.start < start, 0, |s|);
    || (idx > 0 && s[idx - 1].end > start)
    || (idx < |s| && s[idx].start < end)
  }

  /** insort_left. */
  function Insort(s: seq<Interval>, x: Interval): seq<Interval> {
    var k := BisectLeft(s, (y: Interval) => Less(y, x), 0, |s|);
    s[..k] + [x] + s[k..]
  }

  // ----- One line ----------------------------------------------------------------

  ghost predicate Sorted(s: seq<Interval>) {
    forall i, j | 0 <= i < j < |s| :: !Less(s[j], s[i])
  }

  /** `x` may be stored before `y`: sorted, and over when `y` starts. */
  predicate Before(x: Interval, y: Interval) {
    !Less(y, x) && x.end <= y.start
  }

  /** The layout invariant of a line: of two stored spans the earlier one ends before the
      later one starts. */
  ghost predicate Chained(s: seq<Interval>) {
    forall i, j | 0 <= i < j < |s| :: Before(s[i], s[j])
  }

  /** What the neighbour check is meant to find out about one stored span. */
  predicate Conflicts(x: Interval, start: int, end: int) {
    x.start < start < x.end || start <= x.start < end
  }

  ghost predicate ScanConflict(s: seq<Interval>, start: int, end: int) {
    exists i :: 0 <= i < |s| && Conflicts(s[i], start, end)
  }

  /** On a chained line the two neighbours speak for every stored span. */
  lemma NeighboursDecide(s: seq<Interval>, start: int, end: int)
    requires Chained(s)
    ensures NeighbourConflict(s, start, end) <==> ScanConflict(s, start, end)
  {
    var before := (x: Interval) => x.start < start;
    assert DownClosed(s, before);
    var idx := BisectLeft(s, before, 0, |s|);
    assert SplitsAt(s, before, idx);
    if idx > 0 && s[idx - 1].end > start {
      assert Conflicts(s[idx - 1], start, end);
    }
    if idx < |s| && s[idx].start < end {
      assert Conflicts(s[idx], start, end);
    }
    if i :| 0 <= i < |s| && Conflicts(s[i], start, end) {
      if i < idx {
        assert before(s[i]);
        assert i < idx - 1 ==> s[i].end <= s[idx - 1].start;
      } else {
        assert !before(s[i]);
        assert idx < i ==> !Less(s[i], s[idx]);
      }
    }
  }

  lemma InsortSplits(s: seq<Interval>, x: Interval) returns (k: nat)
    requires Sorted(s)
    ensures k <= |s| && Insort(s, x) == s[..k] + [x] + s[k..]
    ensures forall i | 0 <= i < k :: Less(s[i], x)
    ensures forall i | k <= i < |s| :: !Less(s[i], x)
  {
    var below := (y: Interval) => Less(y, x);
    k := BisectLeft(s, below, 0, |s|);
    assert DownClosed(s, below);
    assert SplitsAt(s, below, k);
    assert forall i | 0 <= i < |s| :: below(s[i]) == Less(s[i], x);
  }

  lemma InsortContents(s: seq<Interval>, x: Interval)
    ensures multiset(Insort(s, x)) == multiset(s) + multiset{x}
  {
    var k := BisectLeft(s, (y: Interval) => Less(y, x), 0, |s|);
    assert s == s[..k] + s[k..];
  }

  /** Two spans can share a line, in whichever order they are stored. */
  predicate Compatible(y: Interval, x: Interval) {
    if Less(y, x) then y.end <= x.start else x.end <= y.start
  }

  lemma InsertedAt(s: seq<Interval>, k: nat, x: Interval)
    requires k <= |s| && Chained(s)
    ensures Chained(s[..k] + [x] + s[k..])
            <==> (forall i | 0 <= i < k :: Before(s[i], x)) && (forall i | k <= i < |s| :: Before(x, s[i]))
  {
    var t := s[..k] + [x] + s[k..];
    assert forall i | 0 <= i < k :: t[i] == s[i];
    assert forall i | k < i < |t| :: t[i] == s[i - 1];
    if Chained(t) {
      forall i | 0 <= i < k ensures Before(s[i], x) { assert Before(t[i], t[k]); }
      forall i | k <= i < |s| ensures Before(x, s[i]) { assert Before(t[k], t[i + 1]); }
    }
  }

  /** Exactly when an insertion keeps the invariant. */
  lemma InsortKeepsChainIff(s: seq<Interval>, x: Interval)
    requires Chained(s)
    ensures Chained(Insort(s, x)) <==> forall i | 0 <= i < |s| :: Compatible(s[i], x)
  {
    var k := InsortSplits(s, x);
    InsertedAt(s, k, x);
    assert forall i | 0 <= i < k :: Compatible(s[i], x) <==> Before(s[i], x);
    assert forall i | k <= i < |s| :: Compatible(s[i], x) <==> Before(x, s[i]);
  }

  /** A span that passes the check can be stored, whatever its length: an adjusted end before
      the start does no harm. */
  lemma CheckedInsertionKeepsChain(s: seq<Interval>, x: Interval)
    requires Chained(s) && !NeighbourConflict(s, x.start, x.end)
    ensures Chained(Insort(s, x))
  {
    NeighboursDecide(s, x.start, x.end);
    forall i | 0 <= i < |s|
      ensures Compatible(s[i], x)
    {
      assert !Conflicts(s[i], x.start, x.end);
    }
    InsortKeepsChainIff(s, x);
  }

  /** For a span of adjusted length zero, which may be stored unchecked, the check is
      exactly the condition that was skipped. */
  lemma ZeroLengthInsertion(s: seq<Interval>, t: int)
    requires Chained(s)
    ensures Chained(Insort(s, Interval(t, t))) <==> !NeighbourConflict(s, t, t)
    ensures NeighbourConflict(s, t, t) <==> exists i :: 0 <= i < |s| && s[i].start < t < s[i].end
  {
    NeighboursDecide(s, t, t);
    InsortKeepsChainIff(s, Interval(t, t));
    assert forall i | 0 <= i < |s| :: Conflicts(s[i], t, t) <==> s[i].start < t < s[i].end;
    assert forall i | 0 <= i < |s| :: Compatible(s[i], Interval(t, t)) <==> !Conflicts(s[i], t, t);
  }

  // ----- The graph of lines ----------------------------------------------------------

  /** Engine spans carry a numeric process id, gateway spans all share one. */
  datatype Pid = Engine(id: int) | Smg

  datatype Span = Span(pid: Pid, start: int, end: int) {
    function Times(): Interval { Interval(start, end) }
  }

  /** A Python dictionary from line numbers to lists: keys in insertion order, and lookup. */
  datatype Lines = Lines(order: seq<nat>, at: map<nat, seq<Interval>>)

  datatype Slot = Slot(pid: Pid, line: nat)

  datatype Layout = Layout(graph: map<Pid, Lines>, slots: seq<Slot>)

  /** The line on which the current request last placed a span, per process. */
  type Status = map<Pid, nat>

  /** Lookups of known lines succeed. */
  ghost predicate Consistent(l: Layout, st: Status) {
    && (forall p | p in l.graph :: forall n | n in l.graph[p].order :: n in l.graph[p].at)
    && (forall p | p in st :: p in l.graph && st[p] in l.graph[p].at)
  }

  /** The first line in dictionary order, from position `k` on, that reports no conflict. */
  function FirstFree(lines: Lines, start: int, end: int, k: nat): (r: nat)
    requires k <= |lines.order| && forall n | n in lines.order :: n in lines.at
    ensures k <= r <= |lines.order|
    ensures forall i | k <= i < r :: NeighbourConflict(lines.at[lines.order[i]], start, end)
    ensures r < |lines.order| ==> !NeighbourConflict(lines.at[lines.order[r]], start, end)
    decreases |lines.order| - k
  {
    if k == |lines.order| || !NeighbourConflict(lines.at[lines.order[k]], start, end) then k
    else FirstFree(lines, start, end, k + 1)
  }

  /** Stay on the request's line if the span has length zero or fits there. */
  predicate Stays(l: Layout, st: Status, span: Span)
    requires Consistent(l, st)
  {
    && span.pid in st
    && (span.start == span.end
        || !NeighbourConflict(l.graph[span.pid].at[st[span.pid]], span.start, span.end))
  }

  /** The line that __find_line returns. */
  function ChooseLine(l: Layout, st: Status, span: Span): nat
    requires Consistent(l, st)
  {
    if Stays(l, st, span) then st[span.pid]
    else if span.pid !in l.graph then 1
    else
      var lines := l.graph[span.pid];
      var k := FirstFree(lines, span.start, span.end, 0);
      if k < |lines.order| then lines.order[k] else |lines.order| + 1
  }

  /** Does the process already have this line? */
  predicate HasLine(l: Layout, pid: Pid, line: nat) {
    pid in l.graph && line in l.graph[pid].at
  }

  /** A new empty line, with its slot record. */
  function OpenLine(l: Layout, pid: Pid, line: nat): Layout {
    var lines := if pid in l.graph then l.graph[pid] else Lines([], map[]);
    Layout(l.graph[pid := Lines(lines.order + [line], lines.at[line := []])],
           l.slots + [Slot(pid, line)])
  }

  function Store(l: Layout, pid: Pid, line: nat, x: Interval): Layout
    requires HasLine(l, pid, line)
  {
    var lines := l.graph[pid];
    l.(graph := l.graph[pid := lines.(at := lines.at[line := Insort(lines.at[line], x)])])
  }

  function PlaceSpan(l: Layout, st: Status, span: Span): Layout
    requires Consistent(l, st)
  {
    var line := ChooseLine(l, st, span);
    var grown := if HasLine(l, span.pid, line) then l else OpenLine(l, span.pid, line);
    Store(grown, span.pid, line, span.Times())
  }

  // ----- Runs --------------------------------------------------------------------------

  /** Each request starts with an empty status; the order of requests and of spans within a
      request is arbitrary here, so the results do not depend on how they were sorted. */
  datatype Event = NextRequest | Place(span: Span)

  datatype Placement = Placement(span: Span, line: nat)

  datatype State = State(layout: Layout, status: Status, log: seq<Placement>)

  const Start := State(Layout(map[], []), map[], [])

  function Step(s: State, e: Event): State
    requires Consistent(s.layout, s.status)
  {
    match e
    case NextRequest => s.(status := map[])
    case Place(span) =>
      var line := ChooseLine(s.layout, s.status, span);
      State(PlaceSpan(s.layout, s.status, span), s.status[span.pid := line], s.log + [Placement(span, line)])
  }

  /** Stored intervals of a line as a bag; empty for a line that does not exist. */
  ghost function Stored(l: Layout, pid: Pid, line: nat): multiset<Interval> {
    if HasLine(l, pid, line) then multiset(l.graph[pid].at[line]) else multiset{}
  }

  /** The spans that the log put on a line. */
  ghost function Assigned(log: seq<Placement>, pid: Pid, line: nat): multiset<Interval> {
    if log == [] then multiset{}
    else
      var p := log[|log| - 1];
      Assigned(log[..|log| - 1], pid, line)
      + if p.span.pid == pid && p.line == line then multiset{p.span.Times()} else multiset{}
  }

  function SlotLines(slots: seq<Slot>, pid: Pid): seq<nat> {
    if slots == [] then []
    else
      var s := slots[|slots| - 1];
      SlotLines(slots[..|slots| - 1], pid) + if s.pid == pid then [s.line] else []
  }

  ghost predicate OneToN(order: seq<nat>) {
    forall i | 0 <= i < |order| :: order[i] == i + 1
  }

  /** The lines of a process are exactly 1..n, in this order. */
  ghost predicate Numbered(lines: Lines) {
    OneToN(lines.order) && forall n :: n in lines.at <==> 1 <= n <= |lines.order|
  }

  function Order(l: Layout, pid: Pid): seq<nat> {
    if pid in l.graph then l.graph[pid].order else []
  }

  ghost predicate AllNumbered(l: Layout) {
    forall p | p in l.graph :: Numbered(l.graph[p])
  }

  /** Every line has exactly one slot record, in opening order. */
  ghost predicate OneSlotPerLine(l: Layout) {
    forall p :: SlotLines(l.slots, p) == Order(l, p)
  }

  /** A line holds exactly the spans that were assigned to it. */
  ghost predicate LogMatches(l: Layout, log: seq<Placement>) {
    forall p, n: nat :: Stored(l, p, n) == Assigned(log, p, n)
  }

  /** What every step keeps, zero-length spans included. */
  ghost predicate Invariant(s: State) {
    && Consistent(s.layout, s.status)
    && AllNumbered(s.layout)
    && OneSlotPerLine(s.layout)
    && LogMatches(s.layout, s.log)
  }

  ghost predicate AllChained(l: Layout) {
    forall p, n | HasLine(l, p, n) :: Chained(l.graph[p].at[n])
  }

  lemma OpenLineNumbers(l: Layout, st: Status, pid: Pid, line: nat)
    requires Consistent(l, st) && AllNumbered(l)
    requires line == |Order(l, pid)| + 1
    ensures !HasLine(l, pid, line)
    ensures Consistent(OpenLine(l, pid, line), st) && AllNumbered(OpenLine(l, pid, line))
    ensures HasLine(OpenLine(l, pid, line), pid, line)
  {
    var m := OpenLine(l, pid, line);
    forall p | p in m.graph
      ensures Numbered(m.graph[p]) && forall n | n in m.graph[p].order :: n in m.graph[p].at
    {
      if p == pid {
        assert m.graph[p].order == Order(l, pid) + [line];
      } else {
        assert p in l.graph && m.graph[p] == l.graph[p];
      }
    }
  }

  lemma OpenLineSlots(l: Layout, pid: Pid, line: nat)
    requires OneSlotPerLine(l)
    ensures OneSlotPerLine(OpenLine(l, pid, line))
  {
    var m := OpenLine(l, pid, line);
    assert m.slots[..|l.slots|] == l.slots;
    forall p
      ensures SlotLines(m.slots, p) == Order(m, p)
    {
      assert SlotLines(l.slots, p) == Order(l, p);
    }
  }

  lemma OpenLineStores(l: Layout, pid: Pid, line: nat, p: Pid, n: nat)
    requires !HasLine(l, pid, line)
    ensures Stored(OpenLine(l, pid, line), p, n) == Stored(l, p, n)
  {
    var m := OpenLine(l, pid, line);
    if p != pid {
      assert p in m.graph <==> p in l.graph;
    } else if n != line {
      assert n in m.graph[p].at <==> HasLine(l, p, n);
    } else {
      assert m.graph[p].at[n] == [];
    }
  }

  lemma OpenLineStored(l: Layout, log: seq<Placement>, pid: Pid, line: nat)
    requires LogMatches(l, log) && !HasLine(l, pid, line)
    ensures LogMatches(OpenLine(l, pid, line), log)
  {
    forall p, n: nat
      ensures Stored(OpenLine(l, pid, line), p, n) == Assigned(log, p, n)
    {
      OpenLineStores(l, pid, line, p, n);
    }
  }

  lemma StoreNumbers(l: Layout, st: Status, pid: Pid, line: nat, x: Interval)
    requires Consistent(l, st) && AllNumbered(l) && HasLine(l, pid, line)
    ensures Consistent(Store(l, pid, line, x), st[pid := line]) && AllNumbered(Store(l, pid, line, x))
  {
    var m := Store(l, pid, line, x);
    assert m.graph[pid].at.Keys == l.graph[pid].at.Keys;
    forall p | p in m.graph
      ensures Numbered(m.graph[p])
    {
      assert Numbered(l.graph[p]);
      assert forall n :: n in m.graph[p].at <==> n in l.graph[p].at;
    }
  }

  lemma StoreSlots(l: Layout, pid: Pid, line: nat, x: Interval)
    requires OneSlotPerLine(l) && HasLine(l, pid, line)
    ensures OneSlotPerLine(Store(l, pid, line, x))
  {
    forall p
      ensures SlotLines(l.slots, p) == Order(Store(l, pid, line, x), p)
    {
      assert SlotLines(l.slots, p) == Order(l, p);
    }
  }

  lemma StoreStored(l: Layout, log: seq<Placement>, span: Span, line: nat)
    requires LogMatches(l, log) && HasLine(l, span.pid, line)
    ensures LogMatches(Store(l, span.pid, line, span.Times()), log + [Placement(span, line)])
  {
    var m := Store(l, span.pid, line, span.Times());
    var longer := log + [Placement(span, line)];
    assert longer[..|log|] == log;
    InsortContents(l.graph[span.pid].at[line], span.Times());
    forall p, n: nat
      ensures Stored(m, p, n) == Assigned(longer, p, n)
    {
      assert Stored(l, p, n) == Assigned(log, p, n);
    }
  }

  /** The chosen line exists, or is the next number of its process. */
  lemma ChosenLine(l: Layout, st: Status, span: Span)
    requires Consistent(l, st) && AllNumbered(l)
    ensures var line := ChooseLine(l, st, span);
            HasLine(l, span.pid, line) || line == |Order(l, span.pid)| + 1
  {
  }

  lemma StepKeepsNumbers(s: State, e: Event)
    requires Consistent(s.layout, s.status) && AllNumbered(s.layout)
    ensures Consistent(Step(s, e).layout, Step(s, e).status) && AllNumbered(Step(s, e).layout)
  {
    if e.Place? {
      var span, l := e.span, s.layout;
      ChosenLine(l, s.status, span);
      var line := ChooseLine(l, s.status, span);
      if !HasLine(l, span.pid, line) {
        OpenLineNumbers(l, s.status, span.pid, line);
        l := OpenLine(l, span.pid, line);
      }
      StoreNumbers(l, s.status, span.pid, line, span.Times());
    }
  }

  lemma StepKeepsInvariant(s: State, e: Event)
    requires Invariant(s)
    ensures Invariant(Step(s, e))
  {
    StepKeepsNumbers(s, e);
    if e.Place? {
      var span, l := e.span, s.layout;
      ChosenLine(l, s.status, span);
      var line := ChooseLine(l, s.status, span);
      if !HasLine(l, span.pid, line) {
        OpenLineNumbers(l, s.status, span.pid, line);
        OpenLineSlots(l, span.pid, line);
        OpenLineStored(l, s.log, span.pid, line);
        l := OpenLine(l, span.pid, line);
      }
      StoreSlots(l, span.pid, line, span.Times());
      StoreStored(l, s.log, span, line);
    }
  }

  /** The state after any sequence of placements. */
  function Run(events: seq<Event>): (s: State)
    ensures Consistent(s.layout, s.status) && AllNumbered(s.layout)
  {
    if events == [] then
      Start
    else
      var s := Run(events[..|events| - 1]);
      StepKeepsNumbers(s, events[|events| - 1]);
      Step(s, events[|events| - 1])
  }

  /** After every run: lines numbered 1..n with one slot record each, and every line holding
      exactly the spans assigned to it. */
  lemma {:induction false} RunKeepsInvariant(events: seq<Event>)
    ensures Invariant(Run(events))
  {
    if events != [] {
      RunKeepsInvariant(events[..|events| - 1]);
      StepKeepsInvariant(Run(events[..|events| - 1]), events[|events| - 1]);
    }
  }

  // ----- Spans on one line do not overlap ---------------------------------------------------

  /** One of the two is over when the other starts. */
  predicate Apart(x: Span, y: Span) {
    x.end <= y.start || y.end <= x.start
  }

  /** Any two spans drawn on the same line of the same process are apart. */
  ghost predicate NoOverlap(log: seq<Placement>) {
    forall i, j | 0 <= i < j < |log| ::
      log[i].span.pid == log[j].span.pid && log[i].line == log[j].line ==> Apart(log[i].span, log[j].span)
  }

  /** The one way to go wrong: a span of adjusted length zero goes unchecked onto the
      request's line, and falls strictly inside a span stored there. */
  ghost predicate ShortcutHit(s: State, span: Span)
    requires Consistent(s.layout, s.status)
  {
    && span.start == span.end && span.pid in s.status
    && exists x :: x in s.layout.graph[span.pid].at[s.status[span.pid]] && x.start < span.start < x.end
  }

  ghost predicate NoShortcutHit(events: seq<Event>) {
    events != [] ==>
      var front, e := events[..|events| - 1], events[|events| - 1];
      NoShortcutHit(front) && (e.Place? ==> !ShortcutHit(Run(front), e.span))
  }

  lemma {:induction false} AssignedIndex(log: seq<Placement>, pid: Pid, line: nat, x: Interval) returns (i: nat)
    requires x in Assigned(log, pid, line)
    ensures i < |log| && log[i].span == Span(pid, x.start, x.end) && log[i].line == line
  {
    var p := log[|log| - 1];
    if p.span.pid == pid && p.line == line && p.span.Times() == x {
      i := |log| - 1;
    } else {
      i := AssignedIndex(log[..|log| - 1], pid, line, x);
    }
  }

  lemma {:induction false} AssignedContains(log: seq<Placement>, i: nat)
    requires i < |log|
    ensures log[i].span.Times() in Assigned(log, log[i].span.pid, log[i].line)
  {
    if i < |log| - 1 {
      AssignedContains(log[..|log| - 1], i);
    }
  }

  /** Without a hit the chosen line has no conflict with the span. */
  lemma NoConflictOnChosenLine(s: State, span: Span)
    requires Invariant(s) && AllChained(s.layout) && !ShortcutHit(s, span)
    ensures var line := ChooseLine(s.layout, s.status, span);
            HasLine(s.layout, span.pid, line) ==>
              !NeighbourConflict(s.layout.graph[span.pid].at[line], span.start, span.end)
  {
    var line := ChooseLine(s.layout, s.status, span);
    if HasLine(s.layout, span.pid, line) && Stays(s.layout, s.status, span) && span.start == span.end {
      ZeroLengthInsertion(s.layout.graph[span.pid].at[line], span.start);
    }
  }

  lemma StepKeepsChains(s: State, span: Span)
    requires Invariant(s) && AllChained(s.layout) && !ShortcutHit(s, span)
    ensures AllChained(Step(s, Place(span)).layout)
  {
    NoConflictOnChosenLine(s, span);
    ChosenLine(s.layout, s.status, span);
    var line := ChooseLine(s.layout, s.status, span);
    var row := if HasLine(s.layout, span.pid, line) then s.layout.graph[span.pid].at[line] else [];
    CheckedInsertionKeepsChain(row, span.Times());
    var t := Step(s, Place(span)).layout;
    forall p, n | HasLine(t, p, n)
      ensures Chained(t.graph[p].at[n])
    {
      if p != span.pid || n != line {
        assert HasLine(s.layout, p, n) && t.graph[p].at[n] == s.layout.graph[p].at[n];
      }
    }
  }

  lemma StepKeepsApart(s: State, span: Span)
    requires Invariant(s) && AllChained(s.layout) && NoOverlap(s.log) && !ShortcutHit(s, span)
    ensures NoOverlap(Step(s, Place(span)).log)
  {
    NoConflictOnChosenLine(s, span);
    var line := ChooseLine(s.layout, s.status, span);
    forall i | 0 <= i < |s.log| && s.log[i].span.pid == span.pid && s.log[i].line == line
      ensures Apart(s.log[i].span, span)
    {
      AssignedContains(s.log, i);
      assert Stored(s.layout, span.pid, line) == Assigned(s.log, span.pid, line);
      var row := s.layout.graph[span.pid].at[line];
      assert s.log[i].span.Times() in row;
      var k :| 0 <= k < |row| && row[k] == s.log[i].span.Times();
      NeighboursDecide(row, span.start, span.end);
      assert !Conflicts(row[k], span.start, span.end);
    }
  }

  lemma HitOverlaps(s: State, span: Span)
    requires Invariant(s) && ShortcutHit(s, span)
    ensures !NoOverlap(Step(s, Place(span)).log)
  {
    var line := s.status[span.pid];
    var x :| x in s.layout.graph[span.pid].at[line] && x.start < span.start < x.end;
    assert Stored(s.layout, span.pid, line) == Assigned(s.log, span.pid, line);
    assert x in Stored(s.layout, span.pid, line);
    var i := AssignedIndex(s.log, span.pid, line, x);
    var log := Step(s, Place(span)).log;
    assert !Apart(log[i].span, log[|s.log|].span);
  }

  /** Over every run, spans sharing a line are apart exactly when no zero-length span was
      dropped unchecked inside a stored one; and then every line keeps its invariant. */
  lemma {:induction false} NoOverlapIff(events: seq<Event>)
    ensures NoOverlap(Run(events).log) <==> NoShortcutHit(events)
    ensures NoShortcutHit(events) ==> AllChained(Run(events).layout)
  {
    if events != [] {
      var front, e := events[..|events| - 1], events[|events| - 1];
      var s := Run(front);
      NoOverlapIff(front);
      RunKeepsInvariant(front);
      assert s.log <= Run(events).log;
      if e.Place? {
        if ShortcutHit(s, e.span) {
          HitOverlaps(s, e.span);
        } else if NoShortcutHit(front) {
          StepKeepsChains(s, e.span);
          StepKeepsApart(s, e.span);
        } else {
          assert !NoOverlap(s.log);
        }
      }
    }
  }

  /** A condition on the input alone: no span has its adjusted end equal to its start. */
  lemma {:induction false} NoZeroLengthNoOverlap(events: seq<Event>)
    requires forall i | 0 <= i < |events| && events[i].Place? :: events[i].span.start != events[i].span.end
    ensures NoShortcutHit(events) && NoOverlap(Run(events).log) && AllChained(Run(events).layout)
  {
    if events != [] {
      NoZeroLengthNoOverlap(events[..|events| - 1]);
    }
    NoOverlapIff(events);
  }

  lemma FirstPlacement(span: Span)
    ensures var s := Run([Place(span)]);
            && s.status == map[span.pid := 1]
            && HasLine(s.layout, span.pid, 1)
            && s.layout.graph[span.pid].at[1] == [span.Times()]
  {
    var events := [Place(span)];
    assert events[..0] == [];
    assert Run(events) == Step(Start, Place(span));
    assert ChooseLine(Start.layout, Start.status, span) == 1;
    assert Insort([], span.Times()) == [span.Times()];
  }

  /** Such a hit does happen: (5, 5) follows (0, 10) in one request and stays on its line. */
  lemma ShortcutCanHit(p: Pid)
    ensures !NoOverlap(Run([Place(Span(p, 0, 10)), Place(Span(p, 5, 5))]).log)
  {
    var first, second := Span(p, 0, 10), Span(p, 5, 5);
    var events := [Place(first), Place(second)];
    assert events[..1] == [Place(first)];
    FirstPlacement(first);
    assert first.Times() in Run([Place(first)]).layout.graph[p].at[1];
    assert ShortcutHit(Run([Place(first)]), second);
    NoOverlapIff(events);
  }

  /** A new line is opened only for a span that collides with every line of its process. */
  lemma OpensOnlyWhenAllConflict(s: State, span: Span)
    requires Invariant(s) && AllChained(s.layout)
    ensures var line := ChooseLine(s.layout, s.status, span);
            !HasLine(s.layout, span.pid, line) ==>
              forall n | HasLine(s.layout, span.pid, n) ::
                ScanConflict(s.layout.graph[span.pid].at[n], span.start, span.end)
  {
    var line := ChooseLine(s.layout, s.status, span);
    if !HasLine(s.layout, span.pid, line) && span.pid in s.layout.graph {
      var lines := s.layout.graph[span.pid];
      forall n | n in lines.at
        ensures ScanConflict(lines.at[n], span.start, span.end)
      {
        assert lines.order[n - 1] == n;
        NeighboursDecide(lines.at[n], span.start, span.end);
      }
    }
  }

  // ----- Which line it is ---------------------------------------------------------------------

  /** Some span stored on line `n` of the process conflicts with `span`; a line that does not exist has none. */
  ghost predicate LineConflict(l: Layout, span: Span, n: nat) {
    HasLine(l, span.pid, n) && ScanConflict(l.graph[span.pid].at[n], span.start, span.end)
  }

  /** The line a span belongs on: the request's own line of that process if the span has length zero or fits
      there, else the first line, counted from one, on which it fits. */
  ghost predicate FirstFit(l: Layout, st: Status, span: Span, line: nat) {
    if span.pid in st && (span.start == span.end || !LineConflict(l, span, st[span.pid])) then line == st[span.pid]
    else 1 <= line && !LineConflict(l, span, line) && forall m | 1 <= m < line :: LineConflict(l, span, m)
  }

  lemma NumberedLine(lines: Lines, n: nat)
    requires Numbered(lines)
    ensures n in lines.at <==> 1 <= n <= |lines.order|
    ensures 1 <= n <= |lines.order| ==> lines.order[n - 1] == n
  {
    if n in lines.order {
      var i :| 0 <= i < |lines.order| && lines.order[i] == n;
    }
  }

  /** The line chosen is that one, and no other is. */
  lemma ChoosesFirstFit(l: Layout, st: Status, span: Span, line: nat)
    requires Consistent(l, st) && AllNumbered(l) && AllChained(l)
    ensures line == ChooseLine(l, st, span) <==> FirstFit(l, st, span, line)
  {
    hide NeighbourConflict, ScanConflict, Chained;
    var chosen := ChooseLine(l, st, span);
    forall n | HasLine(l, span.pid, n)
      ensures LineConflict(l, span, n) <==> NeighbourConflict(l.graph[span.pid].at[n], span.start, span.end)
    {
      assert Chained(l.graph[span.pid].at[n]);
      NeighboursDecide(l.graph[span.pid].at[n], span.start, span.end);
    }
    if !Stays(l, st, span) {
      if span.pid in l.graph {
        var lines := l.graph[span.pid];
        NumberedLine(lines, chosen);
        forall m | 1 <= m < chosen ensures LineConflict(l, span, m) { NumberedLine(lines, m); }
      }
      assert FirstFit(l, st, span, chosen);
      if FirstFit(l, st, span, line) {
        assert !(line < chosen) && !(chosen < line);
      }
    }
  }
}
