/** The objects of the trace layout (scripts/convert_otel_2_perfetto.py): interval
    containers, the graph of lines that owns them, and the loop that places all spans.
    Each method is proved to do on these objects what SpanLayout says on values. */
module LayoutObjects {
  import opened SpanLayout

  class SpanLayoutContainer {
    var intervals: seq<Interval>
    // The one line this container belongs to, so that no two lines share a container.
    ghost const pid: Pid
    ghost const line: nat

    constructor (ghost pid: Pid, ghost line: nat)
      ensures intervals == [] && this.pid == pid && this.line == line
    {
      intervals := [];
      this.pid := pid;
      this.line := line;
    }

    predicate CheckOverlap(start: int, end: int)
      reads this
    {
      NeighbourConflict(intervals, start, end)
    }

    /** Stores one more span. A line that kept the layout invariant keeps it exactly when the span is
        compatible with every span already there. */
    method InsertSpan(start: int, end: int)
      modifies this
      ensures intervals == Insort(old(intervals), Interval(start, end))
      ensures multiset(intervals) == multiset(old(intervals)) + multiset{Interval(start, end)}
      ensures Chained(old(intervals)) ==>
                (Chained(intervals) <==>
                 forall i | 0 <= i < |old(intervals)| :: Compatible(old(intervals)[i], Interval(start, end)))
    {
      hide Insort, Chained, Compatible;
      InsortContents(intervals, Interval(start, end));
      if Chained(intervals) {
        InsortKeepsChainIff(intervals, Interval(start, end));
      }
      intervals := Insort(intervals, Interval(start, end));
    }
  }

  /** A dictionary of containers: keys in insertion order, and lookup. */
  datatype LineDict = LineDict(order: seq<nat>, at: map<nat, SpanLayoutContainer>)

  class LineGraph {
    var graph: map<Pid, LineDict>
    var slots: seq<Slot>
    ghost var layout: Layout
    ghost var Repr: set<SpanLayoutContainer>

    /** Line `n` of process `p` is stored in an object of its own. */
    ghost predicate Holds(p: Pid, n: nat, row: seq<Interval>)
      reads this, Repr
    {
      && p in graph && n in graph[p].at
      && var c := graph[p].at[n];
         c in Repr && c.pid == p && c.line == n && c.intervals == row
    }

    /** The objects hold `layout`. */
    ghost predicate Valid()
      reads this, Repr
    {
      && slots == layout.slots
      && graph.Keys == layout.graph.Keys
      && (forall p | p in graph :: graph[p].order == layout.graph[p].order)
      && (forall p | p in graph :: graph[p].at.Keys == layout.graph[p].at.Keys)
      && (forall p, n | HasLine(layout, p, n) :: Holds(p, n, layout.graph[p].at[n]))
    }

    constructor ()
      ensures Valid() && fresh(Repr) && layout == Start.layout
    {
      graph, slots, layout, Repr := map[], [], Start.layout, {};
    }

    method AddLine(pid: Pid, line: nat)
      requires Valid() && !HasLine(layout, pid, line)
      modifies this
      ensures Valid() && fresh(Repr - old(Repr))
      ensures layout == OpenLine(old(layout), pid, line)
    {
      var c := new SpanLayoutContainer(pid, line);
      var lines := if pid in graph then graph[pid] else LineDict([], map[]);
      graph := graph[pid := LineDict(lines.order + [line], lines.at[line := c])];
      slots := slots + [Slot(pid, line)];
      layout := OpenLine(layout, pid, line);
      Repr := Repr + {c};
      forall p, n | HasLine(layout, p, n)
        ensures Holds(p, n, layout.graph[p].at[n])
      {
        if p != pid || n != line {
          assert HasLine(old(layout), p, n);
          assert old(Holds(p, n, layout.graph[p].at[n]));
        }
      }
    }

    /** __find_line, with the line numbers of its process known to be 1..n. On lines that keep the layout
        invariant it is the request's own line or the first on which the span fits. */
    method FindLine(status: Status, span: Span) returns (line: nat, status': Status)
      requires Valid() && Consistent(layout, status) && AllNumbered(layout)
      modifies this
      ensures Valid() && fresh(Repr - old(Repr))
      ensures line == ChooseLine(old(layout), status, span) && HasLine(layout, span.pid, line)
      ensures layout == if HasLine(old(layout), span.pid, line) then old(layout)
                        else OpenLine(old(layout), span.pid, line)
      ensures status' == status[span.pid := line]
      ensures AllChained(old(layout)) ==> FirstFit(old(layout), status, span, line)
    {
      hide *;
      ChooseInTwo(layout, status, span);
      if AllChained(layout) {
        ChoosesFirstFit(layout, status, span, ChooseLine(layout, status, span));
      }
      var stays := StaysOnLine(status, span);
      if stays {
        return status[span.pid], status[span.pid := status[span.pid]];
      }
      line := FirstFreeLine(span);
      status' := status[span.pid := line];
    }

    /** Does the request have a line of this process on which the span can stay? */
    method StaysOnLine(status: Status, span: Span) returns (stays: bool)
      requires Valid() && Consistent(layout, status)
      ensures stays == Stays(layout, status, span)
    {
      hide NeighbourConflict;
      if span.pid in status {
        var line := status[span.pid];
        if span.start == span.end {
          return true;
        }
        assert Holds(span.pid, line, layout.graph[span.pid].at[line]);
        return !graph[span.pid].at[line].CheckOverlap(span.start, span.end);
      }
      return false;
    }

    /** The first line of the process that reports no conflict, or a new one. */
    method FirstFreeLine(span: Span) returns (line: nat)
      requires Valid() && Consistent(layout, map[]) && AllNumbered(layout)
      modifies this
      ensures Valid() && fresh(Repr - old(Repr))
      ensures line == ChooseLine(old(layout), map[], span) && HasLine(layout, span.pid, line)
      ensures layout == if HasLine(old(layout), span.pid, line) then old(layout)
                        else OpenLine(old(layout), span.pid, line)
    {
      hide NeighbourConflict;
      var pid, start, end := span.pid, span.start, span.end;
      if pid !in graph {
        line := 1;
        AddLine(pid, line);
        return;
      }
      var order := graph[pid].order;
      for i := 0 to |order|
        invariant Valid() && layout == old(layout) && Repr == old(Repr) && graph == old(graph)
        invariant FirstFree(layout.graph[pid], start, end, 0) == FirstFree(layout.graph[pid], start, end, i)
      {
        line := order[i];
        assert Holds(pid, line, layout.graph[pid].at[line]);
        if !graph[pid].at[line].CheckOverlap(start, end) {
          return;
        }
      }
      line := |graph[pid].order| + 1;
      AddLine(pid, line);
    }

    /** graph[pid][line].insert_span: only that line changes. */
    method StoreOn(pid: Pid, line: nat, start: int, end: int)
      requires Valid() && HasLine(layout, pid, line)
      modifies this`layout, Repr
      ensures Valid()
      ensures layout == Store(old(layout), pid, line, Interval(start, end))
    {
      hide Chained, Compatible, Insort;
      ghost var before := layout;
      assert Holds(pid, line, before.graph[pid].at[line]);
      graph[pid].at[line].InsertSpan(start, end);
      layout := Store(before, pid, line, Interval(start, end));
      forall p, n | HasLine(layout, p, n)
        ensures Holds(p, n, layout.graph[p].at[n])
      {
        assert old(Holds(p, n, before.graph[p].at[n]));
      }
    }

    /** Find a line and store the span on it. */
    method PlaceOne(status: Status, span: Span) returns (line: nat, status': Status)
      requires Valid() && Consistent(layout, status) && AllNumbered(layout)
      modifies this, Repr
      ensures Valid() && fresh(Repr - old(Repr))
      ensures line == ChooseLine(old(layout), status, span)
      ensures layout == PlaceSpan(old(layout), status, span)
      ensures status' == status[span.pid := line]
      ensures AllChained(old(layout)) ==> FirstFit(old(layout), status, span, line)
    {
      hide ChooseLine, Consistent, AllNumbered, Valid, FirstFit, AllChained;
      line, status' := FindLine(status, span);
      StoreOn(span.pid, line, span.start, span.end);
    }
  }

  /** The choice of a line: stay, or search as a request does that has no line yet. */
  lemma ChooseInTwo(l: Layout, st: Status, span: Span)
    requires Consistent(l, st)
    ensures Consistent(l, map[])
    ensures Stays(l, st, span) ==> span.pid in st && ChooseLine(l, st, span) == st[span.pid] && HasLine(l, span.pid, st[span.pid])
    ensures !Stays(l, st, span) ==> ChooseLine(l, st, span) == ChooseLine(l, map[], span)
  {
  }

  function Places(spans: seq<Span>): seq<Event> {
    seq(|spans|, i requires 0 <= i < |spans| => Place(spans[i]))
  }

  /** Every request opens with a fresh status and then places its spans. */
  function Events(requests: seq<seq<Span>>): seq<Event> {
    if requests == [] then []
    else Events(requests[..|requests| - 1]) + [NextRequest] + Places(requests[|requests| - 1])
  }

  lemma RunEmpty()
    ensures Run([]) == Start
  {
  }

  lemma RunSnoc(events: seq<Event>, e: Event)
    ensures Run(events + [e]) == Step(Run(events), e)
  {
    assert (events + [e])[..|events|] == events;
  }

  lemma PlacesSnoc(before: seq<Event>, spans: seq<Span>, i: nat)
    requires i < |spans|
    ensures before + Places(spans[..i + 1]) == before + Places(spans[..i]) + [Place(spans[i])]
  {
  }

  lemma RunPlace(before: seq<Event>, spans: seq<Span>, i: nat)
    requires i < |spans|
    ensures Run(before + Places(spans[..i + 1])) == Step(Run(before + Places(spans[..i])), Place(spans[i]))
  {
    hide *;
    PlacesSnoc(before, spans, i);
    RunSnoc(before + Places(spans[..i]), Place(spans[i]));
  }

  /** One request: a fresh status, then its spans in order. */
  method LayoutRequest(g: LineGraph, spans: seq<Span>, log: seq<Placement>, ghost past: seq<Event>)
    returns (log': seq<Placement>)
    requires g.Valid() && g.layout == Run(past).layout && log == Run(past).log
    modifies g, g.Repr
    ensures g.Valid() && fresh(g.Repr - old(g.Repr))
    ensures var s := Run(past + [NextRequest] + Places(spans)); g.layout == s.layout && log' == s.log
  {
    hide Run, ChooseLine, PlaceSpan, Consistent, AllNumbered, LineGraph.Valid;
    var status: Status := map[];
    log' := log;
    ghost var before := past + [NextRequest];
    RunSnoc(past, NextRequest);
    assert before + Places(spans[..0]) == before;
    for i := 0 to |spans|
      invariant g.Valid() && fresh(g.Repr - old(g.Repr))
      invariant State(g.layout, status, log') == Run(before + Places(spans[..i]))
    {
      RunPlace(before, spans, i);
      var line;
      line, status := g.PlaceOne(status, spans[i]);
      log' := log' + [Placement(spans[i], line)];
    }
    assert spans[..|spans|] == spans;
  }

  /** The two nested loops of generate_perfetto_span_layout; gateway spans are one more
      request. The log says which line each span was given. */
  method LayoutRequests(requests: seq<seq<Span>>) returns (g: LineGraph, log: seq<Placement>)
    ensures g.Valid() && fresh(g) && fresh(g.Repr)
    ensures g.layout == Run(Events(requests)).layout && log == Run(Events(requests)).log
  {
    hide Run, LineGraph.Valid;
    g := new LineGraph();
    log := [];
    RunEmpty();
    for r := 0 to |requests|
      invariant g.Valid() && fresh(g) && fresh(g.Repr)
      invariant g.layout == Run(Events(requests[..r])).layout && log == Run(Events(requests[..r])).log
    {
      assert requests[..r + 1][..r] == requests[..r];
      log := LayoutRequest(g, requests[r], log, Events(requests[..r]));
    }
    assert requests[..|requests|] == requests;
  }
}
