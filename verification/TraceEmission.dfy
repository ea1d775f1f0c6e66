/** The conversion of a whole trace (scripts/convert_otel_2_perfetto.py): build the forest, convert the spans,
    sort and lay them out, number them and their descendants, and gather the records. */
module TraceEmission {
  import opened Common
  import opened SpanForest
  import opened SpanLayout
  import opened LayoutObjects
  import opened SpanObjects
  import opened TraceSpec

  /** `list` holds the spans with numbers `ks`. */
  ghost predicate Indexed(spans: seq<OtelSpan>, list: seq<OtelSpan>, ks: seq<nat>) {
    |list| == |ks| && forall n | 0 <= n < |ks| :: ks[n] < |spans| && list[n] == spans[ks[n]]
  }

  ghost predicate IndexedAll(spans: seq<OtelSpan>, lists: seq<seq<OtelSpan>>, orders: seq<seq<nat>>) {
    |lists| == |orders| && forall n | 0 <= n < |lists| :: Indexed(spans, lists[n], orders[n])
  }

  // ----- Sorting --------------------------------------------------------------------------------

  function Inserted<T>(s: seq<T>, i: nat, x: T): seq<T>
    requires i <= |s|
  {
    s[..i] + [x] + s[i..]
  }

  lemma InsertedContents<T>(s: seq<T>, i: nat, x: T)
    requires i <= |s|
    ensures multiset(Inserted(s, i, x)) == multiset(s) + multiset{x}
  {
    assert s == s[..i] + s[i..];
  }

  ghost predicate InOrder(list: seq<OtelSpan>) {
    forall i, j | 0 <= i < j < |list| :: list[i].startTime <= list[j].startTime
  }

  lemma InsertedInOrder(list: seq<OtelSpan>, i: nat, x: OtelSpan)
    requires InOrder(list) && i <= |list|
    requires (forall j | 0 <= j < i :: list[j].startTime <= x.startTime)
    requires i < |list| ==> x.startTime <= list[i].startTime
    ensures InOrder(Inserted(list, i, x))
  {
  }

  lemma InsertedIndexed(spans: seq<OtelSpan>, list: seq<OtelSpan>, ks: seq<nat>, i: nat, k: nat)
    requires Indexed(spans, list, ks) && i <= |list| && k < |spans|
    ensures Indexed(spans, Inserted(list, i, spans[k]), Inserted(ks, i, k))
  {
  }

  /** sorted, by start time. */
  method SortByStart(ghost spans: seq<OtelSpan>, list: seq<OtelSpan>, ghost ks: seq<nat>)
    returns (sorted: seq<OtelSpan>, ghost order: seq<nat>)
    requires Indexed(spans, list, ks)
    ensures Indexed(spans, sorted, order) && multiset(order) == multiset(ks) && InOrder(sorted)
  {
    sorted, order := [], [];
    for n := 0 to |list|
      invariant Indexed(spans, sorted, order) && multiset(order) == multiset(ks[..n]) && InOrder(sorted)
    {
      hide InOrder, Inserted;
      var i := 0;
      while i < |sorted| && sorted[i].startTime <= list[n].startTime
        invariant i <= |sorted| && forall j | 0 <= j < i :: sorted[j].startTime <= list[n].startTime
      {
        i := i + 1;
      }
      InsertedInOrder(sorted, i, list[n]);
      InsertedIndexed(spans, sorted, order, i, ks[n]);
      InsertedContents(order, i, ks[n]);
      assert ks[..n + 1] == ks[..n] + [ks[n]];
      sorted, order := Inserted(sorted, i, list[n]), Inserted(order, i, ks[n]);
    }
    assert ks[..|ks|] == ks;
  }

  /** The same for every root. */
  method SortEach(ghost spans: seq<OtelSpan>, lists: seq<seq<OtelSpan>>, ghost orders: seq<seq<nat>>)
    returns (sorted: seq<seq<OtelSpan>>, ghost sortedOrders: seq<seq<nat>>)
    requires IndexedAll(spans, lists, orders)
    ensures IndexedAll(spans, sorted, sortedOrders) && |sorted| == |lists|
    ensures forall n | 0 <= n < |orders| :: multiset(sortedOrders[n]) == multiset(orders[n])
    ensures forall n | 0 <= n < |sorted| :: InOrder(sorted[n])
  {
    hide Indexed, InOrder;
    sorted, sortedOrders := [], [];
    for n := 0 to |lists|
      invariant |sorted| == |sortedOrders| == n && IndexedAll(spans, sorted, sortedOrders)
      invariant forall m | 0 <= m < n :: multiset(sortedOrders[m]) == multiset(orders[m]) && InOrder(sorted[m])
    {
      var list;
      ghost var order;
      list, order := SortByStart(spans, lists[n], orders[n]);
      sorted, sortedOrders := sorted + [list], sortedOrders + [order];
    }
  }

  ghost predicate FirstsInOrder(lists: seq<seq<OtelSpan>>)
    requires forall n | 0 <= n < |lists| :: lists[n] != []
  {
    forall i, j | 0 <= i < j < |lists| :: lists[i][0].startTime <= lists[j][0].startTime
  }

  lemma Rearranged(a: seq<nat>, b: seq<nat>, c: seq<nat>)
    ensures multiset(a + c + b) == multiset(a + b) + multiset(c)
  {
  }

  lemma InsertedFlat(orders: seq<seq<nat>>, i: nat, order: seq<nat>)
    requires i <= |orders|
    ensures multiset(Flat(Inserted(orders, i, order))) == multiset(Flat(orders)) + multiset(order)
  {
    hide Flat;
    var a, b := orders[..i], orders[i..];
    Rearranged(Flat(a), Flat(b), order);
    FlatSnoc(a, order);
    FlatConcat(a + [order], b);
    FlatConcat(a, b);
    assert orders == a + b;
  }

  lemma InsertedRequests(spans: seq<OtelSpan>, lists: seq<seq<OtelSpan>>, orders: seq<seq<nat>>, i: nat,
                         list: seq<OtelSpan>, order: seq<nat>)
    requires IndexedAll(spans, lists, orders) && Indexed(spans, list, order) && i <= |lists| && list != []
    requires (forall n | 0 <= n < |lists| :: lists[n] != []) && FirstsInOrder(lists)
    requires forall j | 0 <= j < i :: lists[j][0].startTime <= list[0].startTime
    requires i < |lists| ==> list[0].startTime <= lists[i][0].startTime
    ensures var r := Inserted(lists, i, list);
            && IndexedAll(spans, r, Inserted(orders, i, order))
            && (forall n | 0 <= n < |r| :: r[n] != []) && FirstsInOrder(r)
  {
    hide Indexed;
  }

  lemma IndexedBoth(spans: seq<OtelSpan>, a: seq<seq<OtelSpan>>, x: seq<seq<nat>>, b: seq<seq<OtelSpan>>,
                    y: seq<seq<nat>>, n: nat)
    requires IndexedAll(spans, a, x) && IndexedAll(spans, b, y) && n < |b|
    ensures |a| == |x| && |b| == |y| && Indexed(spans, b[n], y[n])
  {
  }

  method FirstAfter(lists: seq<seq<OtelSpan>>, start: int) returns (i: nat)
    requires forall n | 0 <= n < |lists| :: lists[n] != []
    ensures i <= |lists| && forall j | 0 <= j < i :: lists[j][0].startTime <= start
    ensures i < |lists| ==> start <= lists[i][0].startTime
  {
    i := 0;
    while i < |lists| && lists[i][0].startTime <= start
      invariant i <= |lists| && forall j | 0 <= j < i :: lists[j][0].startTime <= start
    {
      i := i + 1;
    }
  }

  /** The requests, sorted by the start of their first span. */
  method SortRequests(ghost spans: seq<OtelSpan>, lists: seq<seq<OtelSpan>>, ghost orders: seq<seq<nat>>)
    returns (sorted: seq<seq<OtelSpan>>, ghost sortedOrders: seq<seq<nat>>)
    requires IndexedAll(spans, lists, orders) && forall n | 0 <= n < |lists| :: lists[n] != []
    ensures IndexedAll(spans, sorted, sortedOrders)
    ensures multiset(Flat(sortedOrders)) == multiset(Flat(orders))
    ensures multiset(sortedOrders) == multiset(orders)
    ensures (forall n | 0 <= n < |sorted| :: sorted[n] != []) && FirstsInOrder(sorted)
  {
    sorted, sortedOrders := [], [];
    for n := 0 to |lists|
      invariant IndexedAll(spans, sorted, sortedOrders)
      invariant multiset(Flat(sortedOrders)) == multiset(Flat(orders[..n]))
      invariant multiset(sortedOrders) == multiset(orders[..n])
      invariant (forall m | 0 <= m < |sorted| :: sorted[m] != []) && FirstsInOrder(sorted)
    {
      hide IndexedAll, Inserted, Flat, FirstsInOrder;
      var i := FirstAfter(sorted, lists[n][0].startTime);
      IndexedBoth(spans, sorted, sortedOrders, lists, orders, n);
      InsertedRequests(spans, sorted, sortedOrders, i, lists[n], orders[n]);
      InsertedFlat(sortedOrders, i, orders[n]);
      InsertedContents(sortedOrders, i, orders[n]);
      FlatSnoc(orders[..n], orders[n]);
      assert orders[..n + 1] == orders[..n] + [orders[n]];
      sorted, sortedOrders := Inserted(sorted, i, lists[n]), Inserted(sortedOrders, i, orders[n]);
    }
    assert orders[..|orders|] == orders;
  }

  // ----- Layout and numbering ------------------------------------------------------------------------

  /** The spans of a request as the layout sees them. */
  function Values(cells: seq<Cell>, order: seq<nat>): (r: seq<Span>)
    requires forall x | x in order :: x < |cells|
    ensures |r| == |order|
  {
    seq(|order|, i requires 0 <= i < |order| => assert order[i] in order; SpanOf(cells[order[i]]))
  }

  /** Where a layout stands: `cells` as converted, `placed` numbered with `lines`, after `past`. */
  ghost predicate Standing(spans: seq<OtelSpan>, g: LineGraph, cells: seq<Cell>, past: seq<Event>,
                           placed: seq<nat>, lines: seq<nat>)
    reads spans, g, g.Repr
  {
    && |cells| == |spans| && |placed| == |lines| && (forall x | x in placed :: AtDepth(Records(spans), x, 2))
    && (forall x | x in placed :: x < |cells|)
    && Separate(spans) && Linked(spans) && ConvertedFrom(spans, 2)
    && Cells(spans) == NumberedWalks(cells, Records(spans), placed, lines)
    && g.Valid() && g.layout == Run(past).layout && Run(past).log == Placements(cells, placed, lines)
  }

  lemma PlacementsSnoc(cells: seq<Cell>, placed: seq<nat>, lines: seq<nat>, x: nat, line: nat)
    requires |placed| == |lines| && (forall y | y in placed :: y < |cells|) && x < |cells|
    ensures forall y | y in placed + [x] :: y < |cells|
    ensures Placements(cells, placed + [x], lines + [line])
            == Placements(cells, placed, lines) + [Placement(SpanOf(cells[x]), line)]
  {
    hide SpanOf;
  }

  lemma ValuesSnoc(cells: seq<Cell>, order: seq<nat>, i: nat)
    requires (forall x | x in order :: x < |cells|) && i < |order|
    ensures order[i] < |cells| && Values(cells, order)[i] == SpanOf(cells[order[i]])
    ensures order[..i + 1] == order[..i] + [order[i]]
  {
    hide SpanOf;
    assert order[i] in order;
  }

  lemma InForest(rs: seq<Record>, x: nat, d: nat)
    requires AtDepth(rs, x, d)
    ensures x < |rs|
  {
  }

  /** A span as its object holds it. */
  lemma CellOf(spans: seq<OtelSpan>, x: nat)
    requires x < |spans| && ConvertedFrom(spans, 2) && AtDepth(Records(spans), x, 2)
    ensures |Cells(spans)| == |spans| && spans[x].perfetto.Some?
    ensures SpanOf(Cells(spans)[x]) == Span(Engine(spans[x].perfetto.value.pid), spans[x].startTime, spans[x].endTime)
  {
  }

  lemma StepPlaces(s: State, span: Span)
    requires SpanLayout.Consistent(s.layout, s.status)
    ensures var t, line := Step(s, Place(span)), ChooseLine(s.layout, s.status, span);
            && t.layout == PlaceSpan(s.layout, s.status, span) && t.status == s.status[span.pid := line]
            && t.log == s.log + [Placement(span, line)]
  {
  }

  /** Place one span and number it and its descendants. */
  method PlaceAndNumber(ghost spans: seq<OtelSpan>, g: LineGraph, span: OtelSpan, status: Status, ghost x: nat,
                        ghost cells: seq<Cell>, ghost past: seq<Event>, ghost placed: seq<nat>, ghost lines: seq<nat>)
    returns (line: nat, status': Status)
    requires Standing(spans, g, cells, past, placed, lines) && Run(past).status == status
    requires AtDepth(Records(spans), x, 2) && x < |spans| && spans[x] == span
    modifies g, g.Repr, spans`perfetto
    ensures fresh(g.Repr - old(g.Repr)) && x < |cells|
    ensures Standing(spans, g, cells, past + [Place(SpanOf(cells[x]))], placed + [x], lines + [line])
    ensures Run(past + [Place(SpanOf(cells[x]))]).status == status'
  {
    hide Cells, NumberedWalks, LineGraph.Valid, Run, Linked, ConvertedFrom, Separate, AtDepth, Placements, Step,
      PlaceSpan, ChooseLine, SpanLayout.Consistent, AllNumbered, SpanOf, Records, Applied, Numberer, Walk;
    CellOf(spans, x);
    NumberedKeeps(cells, Records(spans), placed, lines, x);
    var value := Span(Engine(span.perfetto.value.pid), span.startTime, span.endTime);
    assert value == SpanOf(cells[x]);
    RunSnoc(past, Place(value));
    StepPlaces(Run(past), value);
    line, status' := g.PlaceOne(status, value);
    SetTid(spans, span, line, x, 2);
    NumberedSnoc(cells, Records(spans), placed, lines, x, line);
    PlacementsSnoc(cells, placed, lines, x, line);
  }

  lemma FreshRequest(spans: seq<OtelSpan>, g: LineGraph, cells: seq<Cell>, past: seq<Event>,
                     placed: seq<nat>, lines: seq<nat>)
    requires Standing(spans, g, cells, past, placed, lines)
    ensures Standing(spans, g, cells, past + [NextRequest], placed, lines)
    ensures Run(past + [NextRequest]).status == map[]
  {
    hide Cells, NumberedWalks, LineGraph.Valid, Run, Linked, ConvertedFrom, Separate, AtDepth, Placements, Records;
    RunSnoc(past, NextRequest);
  }

  lemma StandingCells(spans: seq<OtelSpan>, g: LineGraph, cells: seq<Cell>, past: seq<Event>,
                      placed: seq<nat>, lines: seq<nat>)
    requires Standing(spans, g, cells, past, placed, lines)
    ensures |cells| == |spans| && |placed| == |lines|
  {
  }

  lemma IndexInForest(spans: seq<OtelSpan>, order: seq<nat>)
    requires forall x | x in order :: AtDepth(Records(spans), x, 2)
    ensures forall x | x in order :: x < |spans|
  {
    forall x | x in order ensures x < |spans| { InForest(Records(spans), x, 2); }
  }

  lemma IndexedSize(spans: seq<OtelSpan>, list: seq<OtelSpan>, ks: seq<nat>)
    requires Indexed(spans, list, ks)
    ensures |list| == |ks|
  {
  }

  lemma IndexedAt(spans: seq<OtelSpan>, list: seq<OtelSpan>, ks: seq<nat>, n: nat)
    requires Indexed(spans, list, ks) && n < |list|
    ensures |list| == |ks| && ks[n] < |spans| && list[n] == spans[ks[n]]
  {
  }

  lemma NothingPlaced(before: seq<Event>, values: seq<Span>, placed: seq<nat>, order: seq<nat>)
    ensures before + Places(values[..0]) == before && placed + order[..0] == placed
    ensures values[..|values|] == values && order[..|order|] == order
  {
  }

  lemma OneMorePlaced(placed: seq<nat>, order: seq<nat>, i: nat)
    requires i < |order|
    ensures placed + order[..i] + [order[i]] == placed + order[..i + 1] && order[i] in order
  {
  }

  /** One request: a fresh status, then its spans in order. */
  method LayOutRequest(ghost spans: seq<OtelSpan>, g: LineGraph, list: seq<OtelSpan>, ghost order: seq<nat>,
                       ghost cells: seq<Cell>, ghost past: seq<Event>, ghost placed: seq<nat>, ghost lines: seq<nat>)
    returns (ghost lines': seq<nat>)
    requires Standing(spans, g, cells, past, placed, lines)
    requires Indexed(spans, list, order) && forall x | x in order :: AtDepth(Records(spans), x, 2)
    modifies g, g.Repr, spans`perfetto
    ensures fresh(g.Repr - old(g.Repr)) && forall x | x in order :: x < |cells|
    ensures Standing(spans, g, cells, past + [NextRequest] + Places(Values(cells, order)), placed + order, lines')
  {
    hide *;
    StandingCells(spans, g, cells, past, placed, lines);
    IndexInForest(spans, order);
    IndexedSize(spans, list, order);
    FreshRequest(spans, g, cells, past, placed, lines);
    ghost var before, values := past + [NextRequest], Values(cells, order);
    NothingPlaced(before, values, placed, order);
    var status: Status := map[];
    lines' := lines;
    for i := 0 to |list|
      invariant fresh(g.Repr - old(g.Repr))
      invariant Standing(spans, g, cells, before + Places(values[..i]), placed + order[..i], lines')
      invariant Run(before + Places(values[..i])).status == status
    {
      IndexedAt(spans, list, order, i);
      ValuesSnoc(cells, order, i);
      PlacesSnoc(before, values, i);
      OneMorePlaced(placed, order, i);
      var line;
      line, status := PlaceAndNumber(spans, g, list[i], status, order[i], cells, before + Places(values[..i]),
                                     placed + order[..i], lines');
      lines' := lines' + [line];
    }
  }

  /** The requests as the layout sees them. */
  function AllValues(cells: seq<Cell>, orders: seq<seq<nat>>): (r: seq<seq<Span>>)
    requires forall n, x | 0 <= n < |orders| && x in orders[n] :: x < |cells|
    ensures |r| == |orders|
  {
    seq(|orders|, n requires 0 <= n < |orders| => Values(cells, orders[n]))
  }

  lemma OneMoreRequest(cells: seq<Cell>, orders: seq<seq<nat>>, n: nat)
    requires (forall m, x | 0 <= m < |orders| && x in orders[m] :: x < |cells|) && n < |orders|
    ensures Events(AllValues(cells, orders[..n + 1]))
            == Events(AllValues(cells, orders[..n])) + [NextRequest] + Places(Values(cells, orders[n]))
    ensures Flat(orders[..n + 1]) == Flat(orders[..n]) + orders[n]
  {
    hide Values, Places;
    FlatSnoc(orders[..n], orders[n]);
    assert orders[..n + 1] == orders[..n] + [orders[n]];
    var all := AllValues(cells, orders[..n + 1]);
    assert all[..n] == AllValues(cells, orders[..n]) && all[n] == Values(cells, orders[n]);
  }

  lemma NothingYet(spans: seq<OtelSpan>, g: LineGraph, cells: seq<Cell>, orders: seq<seq<nat>>)
    requires Separate(spans) && Linked(spans) && ConvertedFrom(spans, 2) && Cells(spans) == cells
    requires g.Valid() && g.layout == Start.layout
    ensures Standing(spans, g, cells, [], [], [])
    ensures Events(AllValues(cells, orders[..0])) == [] && Flat(orders[..0]) == [] && orders[..|orders|] == orders
  {
    RunEmpty();
    assert Placements(cells, [], []) == [];
  }

  /** generate_perfetto_span_layout, on requests already sorted. */
  method LayOut(ghost spans: seq<OtelSpan>, requests: seq<seq<OtelSpan>>, ghost orders: seq<seq<nat>>)
    returns (g: LineGraph, ghost lines: seq<nat>)
    requires Separate(spans) && Linked(spans) && ConvertedFrom(spans, 2) && IndexedAll(spans, requests, orders)
    requires forall n, x | 0 <= n < |orders| && x in orders[n] :: AtDepth(Records(spans), x, 2)
    modifies spans`perfetto
    ensures forall n, x | 0 <= n < |orders| && x in orders[n] :: x < |old(Cells(spans))|
    ensures var cells := old(Cells(spans));
            Standing(spans, g, cells, Events(AllValues(cells, orders)), Flat(orders), lines)
  {
    ghost var cells := Cells(spans);
    g := new LineGraph();
    lines := [];
    NothingYet(spans, g, cells, orders);
    forall n, x | 0 <= n < |orders| && x in orders[n] ensures x < |cells| { InForest(Records(spans), x, 2); }
    hide Standing, AtDepth, Records, Run, AllValues, Flat, Events, Places, Values, Indexed, LineGraph.Valid;
    for n := 0 to |requests|
      invariant fresh(g) && fresh(g.Repr)
      invariant Standing(spans, g, cells, Events(AllValues(cells, orders[..n])), Flat(orders[..n]), lines)
    {
      OneMoreRequest(cells, orders, n);
      lines := LayOutRequest(spans, g, requests[n], orders[n], cells, Events(AllValues(cells, orders[..n])),
                             Flat(orders[..n]), lines);
    }
  }

  // ----- Gathering --------------------------------------------------------------------------------

  lemma {:induction false} WalkAllConcat(rs: seq<Record>, a: seq<nat>, b: seq<nat>, d: nat)
    requires (forall c | c in a :: AtDepth(rs, c, d)) && forall c | c in b :: AtDepth(rs, c, d)
    ensures forall c | c in a + b :: AtDepth(rs, c, d)
    ensures WalkAll(rs, a + b, d) == WalkAll(rs, a, d) + WalkAll(rs, b, d)
    decreases |b|
  {
    hide *;
    NoneWalked(rs, d);
    if b == [] {
      assert a + b == a;
    } else {
      var n := |b| - 1;
      var front, x := b[..n], b[n];
      WalkAllConcat(rs, a, front, d);
      WalkedLast(rs, front, x, d);
      WalkedLast(rs, a + front, x, d);
      assert a + b == a + front + [x] && b == front + [x];
    }
  }

  lemma WalkedLast(rs: seq<Record>, ks: seq<nat>, x: nat, d: nat)
    requires (forall c | c in ks :: AtDepth(rs, c, d)) && AtDepth(rs, x, d)
    ensures forall c | c in ks + [x] :: AtDepth(rs, c, d)
    ensures WalkAll(rs, ks + [x], d) == WalkAll(rs, ks, d) + Walk(rs, x, d)
  {
    hide AtDepth, Walk;
    assert (ks + [x])[..|ks|] == ks;
  }

  lemma NoneWalked(rs: seq<Record>, d: nat)
    ensures WalkAll(rs, [], d) == []
  {
  }

  lemma {:induction false} FlatMember(lists: seq<seq<nat>>, n: nat, x: nat)
    requires n < |lists| && x in lists[n]
    ensures x in Flat(lists)
  {
    if n < |lists| - 1 {
      FlatMember(lists[..|lists| - 1], n, x);
    }
  }

  lemma NothingGathered(spans: seq<OtelSpan>, orders: seq<seq<nat>>)
    ensures Flat(orders[..0]) == [] && WalkAll(Records(spans), [], 2) == [] && RecordsOf(Cells(spans), []) == []
    ensures orders[..|orders|] == orders
  {
  }

  lemma MoreGathered(spans: seq<OtelSpan>, orders: seq<seq<nat>>, n: nat)
    requires n < |orders| && forall x | x in Flat(orders) :: AtDepth(Records(spans), x, 2)
    ensures (forall x | x in Flat(orders[..n]) :: AtDepth(Records(spans), x, 2)) && forall x | x in orders[n] :: AtDepth(Records(spans), x, 2)
    ensures forall x | x in Flat(orders[..n + 1]) :: AtDepth(Records(spans), x, 2)
    ensures var rs := Records(spans);
            RecordsOf(Cells(spans), WalkAll(rs, Flat(orders[..n + 1]), 2))
            == RecordsOf(Cells(spans), WalkAll(rs, Flat(orders[..n]), 2)) + RecordsOf(Cells(spans), WalkAll(rs, orders[n], 2))
  {
    hide AtDepth, WalkAll, RecordsOf, Cells, Records, Flat;
    var rs, a, b := Records(spans), Flat(orders[..n]), orders[n];
    FlatSnoc(orders[..n], b);
    assert orders[..n + 1] == orders[..n] + [b];
    FlatConcat(orders[..n + 1], orders[n + 1..]);
    assert orders == orders[..n + 1] + orders[n + 1..];
    forall x | x in a ensures AtDepth(rs, x, 2) { assert x in a + b; assert x in Flat(orders); }
    forall x | x in b ensures AtDepth(rs, x, 2) { assert x in a + b; assert x in Flat(orders); }
    WalkAllConcat(rs, a, b, 2);
    RecordsConcat(Cells(spans), WalkAll(rs, a, 2), WalkAll(rs, b, 2));
  }

  /** The records of all roots, in the order of the roots. */
  method GatherAll(ghost spans: seq<OtelSpan>, lists: seq<seq<OtelSpan>>, ghost orders: seq<seq<nat>>)
    returns (elems: seq<Option<PerfettoSpan>>)
    requires Linked(spans) && IndexedAll(spans, lists, orders)
    requires forall x | x in Flat(orders) :: AtDepth(Records(spans), x, 2)
    ensures elems == RecordsOf(Cells(spans), WalkAll(Records(spans), Flat(orders), 2))
  {
    elems := [];
    NothingGathered(spans, orders);
    for n := 0 to |lists|
      invariant forall x | x in Flat(orders[..n]) :: AtDepth(Records(spans), x, 2)
      invariant elems == RecordsOf(Cells(spans), WalkAll(Records(spans), Flat(orders[..n]), 2))
    {
      hide AtDepth, WalkAll, RecordsOf, Cells, Records, Flat, Linked;
      MoreGathered(spans, orders, n);
      assert Indexed(spans, lists[n], orders[n]);
      var more := GatherEach(spans, lists[n], orders[n], 2);
      elems := elems + more;
    }
  }

  // ----- The whole conversion -----------------------------------------------------------------------

  /** The laid-out spans of every root. */
  function PerRoot(rs: seq<Record>): (r: seq<seq<nat>>)
    ensures |r| == |RootsUpTo(rs, |rs|)|
    ensures forall n | 0 <= n < |r| :: r[n] == UnderRoot(rs, RootsUpTo(rs, |rs|), n)
  {
    seq(|RootsUpTo(rs, |rs|)|, n requires 0 <= n < |RootsUpTo(rs, |rs|)| => UnderRoot(rs, RootsUpTo(rs, |rs|), n))
  }

  lemma PerRootIndexed(spans: seq<OtelSpan>, perRoot: seq<seq<OtelSpan>>)
    requires |perRoot| == |RootsUpTo(Records(spans), |spans|)|
    requires forall n | 0 <= n < |perRoot| ::
               perRoot[n] == Pick(spans, UnderRoot(Records(spans), RootsUpTo(Records(spans), |spans|), n))
    ensures IndexedAll(spans, perRoot, PerRoot(Records(spans)))
    ensures Flat(PerRoot(Records(spans))) == LaidOut(Records(spans))
  {
    var rs := Records(spans);
    var orders := PerRoot(rs);
    forall n | 0 <= n < |perRoot| ensures Indexed(spans, perRoot[n], orders[n]) {
      assert forall k | 0 <= k < |orders[n]| :: orders[n][k] in orders[n];
    }
    FlatUnderRoots(rs, RootsUpTo(rs, |rs|), orders);
  }

  lemma AllConverted(spans: seq<OtelSpan>, before: seq<Cell>)
    requires |before| == |spans| && forall t | t in Threads(Records(spans)) :: AtDepth(Records(spans), t, 1)
    requires Cells(spans) == ConvertedThreads(before, spans, Threads(Records(spans)))
    ensures ConvertedFrom(spans, 2)
  {
    hide ConvertedThreads, AtDepth, Up, Below, RootsUpTo;
    forall x: nat, e: nat | 2 <= e && AtDepth(Records(spans), x, e) ensures x < |spans| && spans[x].perfetto.Some? {
      InForest(Records(spans), x, e);
      ConvertedExactlyOnce(before, spans, x, e);
      assert Cells(spans)[x].perfetto.Some?;
    }
  }

  lemma LaidOutDepths(rs: seq<Record>, orders: seq<seq<nat>>)
    requires multiset(Flat(orders)) == multiset(LaidOut(rs))
    ensures forall x | x in Flat(orders) :: AtDepth(rs, x, 2)
    ensures forall n, x | 0 <= n < |orders| && x in orders[n] :: AtDepth(rs, x, 2)
  {
    hide AtDepth, LaidOut;
    LaidOutIsDepthTwo(rs);
    SameElements(Flat(orders), LaidOut(rs));
    forall n, x | 0 <= n < |orders| && x in orders[n] ensures AtDepth(rs, x, 2) { FlatMember(orders, n, x); }
  }

  /** What the layout of a whole trace promises: one record for every span two or more levels below a root and for no
      other, on the line of its ancestor at depth two; and these lines are those of the layout run on `events`. */
  ghost predicate Converted(spans: seq<OtelSpan>, before: seq<Cell>, elems: seq<Option<PerfettoSpan>>,
                            visited: seq<nat>, placed: seq<nat>, lines: seq<nat>, events: seq<Event>)
    requires |before| == |spans|
  {
    && EmitsAll(spans, before, elems, visited, placed, lines)
    && (forall t | t in Threads(Records(spans)) :: AtDepth(Records(spans), t, 1))
    && (forall x | x in placed :: x < |spans|)
    && Run(events).log == Placements(ConvertedThreads(before, spans, Threads(Records(spans))), placed, lines)
  }

  lemma StandingLog(spans: seq<OtelSpan>, g: LineGraph, cells: seq<Cell>, past: seq<Event>,
                    placed: seq<nat>, lines: seq<nat>)
    requires Standing(spans, g, cells, past, placed, lines)
    ensures |cells| == |spans| && |placed| == |lines| && (forall x | x in placed :: AtDepth(Records(spans), x, 2))
    ensures (forall x | x in placed :: x < |cells|) && Linked(spans)
    ensures Cells(spans) == NumberedWalks(cells, Records(spans), placed, lines)
    ensures Run(past).log == Placements(cells, placed, lines)
  {
  }

  /** All spans have been converted, and `lists` holds those to be laid out, root by root. */
  ghost predicate Prepared(spans: seq<OtelSpan>, before: seq<Cell>, lists: seq<seq<OtelSpan>>, orders: seq<seq<nat>>)
    reads spans
  {
    && Separate(spans) && Linked(spans) && ConvertedFrom(spans, 2) && IndexedAll(spans, lists, orders)
    && |before| == |spans| && (forall t | t in Threads(Records(spans)) :: AtDepth(Records(spans), t, 1))
    && Cells(spans) == ConvertedThreads(before, spans, Threads(Records(spans)))
    && multiset(Flat(orders)) == multiset(LaidOut(Records(spans)))
  }

  lemma MakePrepared(spans: seq<OtelSpan>, before: seq<Cell>, lists: seq<seq<OtelSpan>>, orders: seq<seq<nat>>)
    requires Separate(spans) && Linked(spans) && ConvertedFrom(spans, 2) && IndexedAll(spans, lists, orders)
    requires |before| == |spans| && forall t | t in Threads(Records(spans)) :: AtDepth(Records(spans), t, 1)
    requires Cells(spans) == ConvertedThreads(before, spans, Threads(Records(spans)))
    requires multiset(Flat(orders)) == multiset(LaidOut(Records(spans)))
    ensures Prepared(spans, before, lists, orders)
  {
  }

  lemma PreparedFacts(spans: seq<OtelSpan>, before: seq<Cell>, lists: seq<seq<OtelSpan>>, orders: seq<seq<nat>>)
    requires Prepared(spans, before, lists, orders)
    ensures Separate(spans) && Linked(spans) && ConvertedFrom(spans, 2) && IndexedAll(spans, lists, orders)
    ensures |before| == |spans| && forall t | t in Threads(Records(spans)) :: AtDepth(Records(spans), t, 1)
    ensures Cells(spans) == ConvertedThreads(before, spans, Threads(Records(spans)))
    ensures multiset(Flat(orders)) == multiset(LaidOut(Records(spans)))
  {
  }

  /** The spans with these numbers are in order of start time. */
  ghost predicate ByStart(spans: seq<OtelSpan>, order: seq<nat>) {
    && (forall i | 0 <= i < |order| :: order[i] < |spans|)
    && (forall i, j | 0 <= i < j < |order| :: spans[order[i]].startTime <= spans[order[j]].startTime)
  }

  /** For every root, in the order of the roots, its laid-out spans in order of start time. */
  ghost predicate RootsSorted(spans: seq<OtelSpan>, orders: seq<seq<nat>>) {
    var perRoot := PerRoot(Records(spans));
    && |orders| == |perRoot|
    && forall n | 0 <= n < |orders| :: multiset(orders[n]) == multiset(perRoot[n]) && ByStart(spans, orders[n])
  }

  /** The same lists, one request each, in order of their first start. */
  ghost predicate RequestsSorted(spans: seq<OtelSpan>, orders: seq<seq<nat>>, requests: seq<seq<nat>>) {
    && multiset(requests) == multiset(orders)
    && (forall n | 0 <= n < |requests| :: requests[n] != [] && requests[n][0] < |spans|)
    && (forall i, j | 0 <= i < j < |requests| ::
          spans[requests[i][0]].startTime <= spans[requests[j][0]].startTime)
  }

  lemma ListsSorted(spans: seq<OtelSpan>, lists: seq<seq<OtelSpan>>, orders: seq<seq<nat>>)
    requires IndexedAll(spans, lists, orders) && (forall n | 0 <= n < |lists| :: InOrder(lists[n]))
    requires |orders| == |PerRoot(Records(spans))|
    requires forall n | 0 <= n < |orders| :: multiset(orders[n]) == multiset(PerRoot(Records(spans))[n])
    ensures RootsSorted(spans, orders)
  {
    hide PerRoot;
    forall n | 0 <= n < |orders| ensures ByStart(spans, orders[n]) {
      assert Indexed(spans, lists[n], orders[n]) && InOrder(lists[n]);
      OneSorted(spans, lists[n], orders[n]);
    }
  }

  lemma OneSorted(spans: seq<OtelSpan>, list: seq<OtelSpan>, order: seq<nat>)
    requires Indexed(spans, list, order) && InOrder(list)
    ensures ByStart(spans, order)
  {
    forall i, j | 0 <= i < j < |order| ensures spans[order[i]].startTime <= spans[order[j]].startTime {
      assert list[i].startTime <= list[j].startTime;
    }
  }

  lemma FirstsSorted(spans: seq<OtelSpan>, lists: seq<seq<OtelSpan>>, orders: seq<seq<nat>>, requests: seq<seq<nat>>)
    requires IndexedAll(spans, lists, requests) && (forall n | 0 <= n < |lists| :: lists[n] != []) && FirstsInOrder(lists)
    requires multiset(requests) == multiset(orders)
    ensures RequestsSorted(spans, orders, requests)
  {
    forall n | 0 <= n < |requests|
      ensures requests[n] != [] && requests[n][0] < |spans| && lists[n][0] == spans[requests[n][0]]
    {
      assert Indexed(spans, lists[n], requests[n]);
    }
    forall i, j | 0 <= i < j < |requests|
      ensures spans[requests[i][0]].startTime <= spans[requests[j][0]].startTime
    {
      assert lists[i][0].startTime <= lists[j][0].startTime;
    }
  }

  /** How the conversion arranges its work: spans and requests sorted, laid out request by request in that order, and gathered
      root by root. */
  ghost predicate Arranged(spans: seq<OtelSpan>, before: seq<Cell>, visited: seq<nat>, placed: seq<nat>, events: seq<Event>,
                           orders: seq<seq<nat>>, requests: seq<seq<nat>>)
  {
    var rs := Records(spans);
    && RootsSorted(spans, orders) && RequestsSorted(spans, orders, requests)
    && placed == Flat(requests)
    && (forall x | x in Flat(orders) :: AtDepth(rs, x, 2)) && visited == WalkAll(rs, Flat(orders), 2)
    && (forall t | t in Threads(rs) :: AtDepth(rs, t, 1))
    && (forall n, x | 0 <= n < |requests| && x in requests[n] :: x < |before|)
    && events == Events(AllValues(ConvertedThreads(before, spans, Threads(rs)), requests))
  }

  lemma MakeArranged(spans: seq<OtelSpan>, before: seq<Cell>, visited: seq<nat>, placed: seq<nat>, events: seq<Event>,
                     orders: seq<seq<nat>>, requests: seq<seq<nat>>)
    requires RootsSorted(spans, orders) && RequestsSorted(spans, orders, requests) && placed == Flat(requests)
    requires forall x | x in Flat(orders) :: AtDepth(Records(spans), x, 2)
    requires visited == WalkAll(Records(spans), Flat(orders), 2)
    requires forall t | t in Threads(Records(spans)) :: AtDepth(Records(spans), t, 1)
    requires forall n, x | 0 <= n < |requests| && x in requests[n] :: x < |before|
    requires events == Events(AllValues(ConvertedThreads(before, spans, Threads(Records(spans))), requests))
    ensures Arranged(spans, before, visited, placed, events, orders, requests)
  {
  }

  /** Building the forest touches no time and no record. */
  method BuildForest(spans: seq<OtelSpan>) returns (roots: seq<OtelSpan>)
    requires Separate(spans)
    modifies spans`child
    ensures Linked(spans) && Cells(spans) == old(Cells(spans))
    ensures roots == Pick(spans, RootsUpTo(Records(spans), |spans|))
  {
    ghost var before := Cells(spans);
    roots := BuildTree(spans);
    hide Linked, Pick, RootsUpTo, Records, Separate;
    assert Cells(spans) == before;
  }

  /** Build the forest, convert the spans, and sort those of each root. */
  method Prepare(spans: seq<OtelSpan>)
    returns (lists: seq<seq<OtelSpan>>, ghost orders: seq<seq<nat>>, empty: bool)
    requires Separate(spans)
    modifies spans`child, spans`endTime, spans`perfetto
    ensures Prepared(spans, old(Cells(spans)), lists, orders) && RootsSorted(spans, orders)
    ensures empty <==> [] in PerRoot(Records(spans))
    ensures !empty ==> forall n | 0 <= n < |lists| :: lists[n] != []
  {
    hide *;
    ghost var before, rs := Cells(spans), Records(spans);
    var roots := BuildForest(spans);
    ThreadsOf(rs);
    RecordsSize(spans);
    var perRoot := GenerateSpans(spans, roots);
    AllConverted(spans, before);
    PerRootIndexed(spans, perRoot);
    lists, orders := SortEach(spans, perRoot, PerRoot(rs));
    AlignedSizes(spans, perRoot, PerRoot(rs), lists, orders);
    FlatPermuted(orders, PerRoot(rs));
    empty := HasEmpty(spans, lists, orders, PerRoot(rs));
    ListsSorted(spans, lists, orders);
    MakePrepared(spans, before, lists, orders);
  }

  lemma AlignedSizes(spans: seq<OtelSpan>, a: seq<seq<OtelSpan>>, x: seq<seq<nat>>, b: seq<seq<OtelSpan>>, y: seq<seq<nat>>)
    requires IndexedAll(spans, a, x) && IndexedAll(spans, b, y) && |a| == |b|
    ensures |x| == |y|
  {
  }

  /** Sort the requests, lay them out, number them and gather their records. */
  method LayOutAndGather(ghost spans: seq<OtelSpan>, lists: seq<seq<OtelSpan>>, ghost orders: seq<seq<nat>>,
                         ghost before: seq<Cell>)
    returns (elems: seq<Option<PerfettoSpan>>, ghost visited: seq<nat>, ghost placed: seq<nat>,
             ghost lines: seq<nat>, ghost events: seq<Event>, ghost reqOrders: seq<seq<nat>>)
    requires Prepared(spans, before, lists, orders) && forall n | 0 <= n < |lists| :: lists[n] != []
    requires RootsSorted(spans, orders)
    modifies spans`perfetto
    ensures |before| == |spans| && Converted(spans, before, elems, visited, placed, lines, events)
    ensures Arranged(spans, before, visited, placed, events, orders, reqOrders)
  {
    hide *;
    PreparedFacts(spans, before, lists, orders);
    RecordsSize(spans);
    ghost var converted, rs := Cells(spans), Records(spans);
    var requests;
    requests, reqOrders := SortRequests(spans, lists, orders);
    FirstsSorted(spans, requests, orders, reqOrders);
    LaidOutDepths(rs, reqOrders);
    LaidOutDepths(rs, orders);
    var g;
    g, lines := LayOut(spans, requests, reqOrders);
    placed, events := Flat(reqOrders), Events(AllValues(converted, reqOrders));
    StandingLog(spans, g, converted, events, placed, lines);
    elems := GatherAll(spans, lists, orders);
    EmissionIsComplete(spans, before, Flat(orders), placed, lines);
    visited := WalkAll(rs, Flat(orders), 2);
    MakeArranged(spans, before, visited, placed, events, orders, reqOrders);
    MakeConverted(spans, before, elems, visited, placed, lines, events);
  }

  /** The conversion of all engine spans. It fails when a root has nothing to lay out, because the requests
      are sorted by their first span. */
  method ConvertTrace(spans: seq<OtelSpan>)
    returns (r: Result<seq<Option<PerfettoSpan>>>, ghost visited: seq<nat>, ghost placed: seq<nat>,
             ghost lines: seq<nat>, ghost events: seq<Event>, ghost orders: seq<seq<nat>>, ghost requests: seq<seq<nat>>)
    requires Separate(spans)
    modifies spans`child, spans`endTime, spans`perfetto
    ensures r.Err? <==> [] in PerRoot(Records(spans))
    ensures r.Ok? ==> Converted(spans, old(Cells(spans)), r.value, visited, placed, lines, events)
    ensures r.Ok? ==> Arranged(spans, old(Cells(spans)), visited, placed, events, orders, requests)
    ensures r.Ok? ==> (NoOverlap(Run(events).log) <==> NoShortcutHit(events))
  {
    hide *;
    RecordsSize(spans);
    visited, placed, lines, events, requests := [], [], [], [], [];
    var lists, elems, empty;
    lists, orders, empty := Prepare(spans);
    if empty {
      return Err("list index out of range"), visited, placed, lines, events, orders, requests;
    }
    elems, visited, placed, lines, events, requests := LayOutAndGather(spans, lists, orders, old(Cells(spans)));
    NoOverlapIff(events);
    r := Ok(elems);
  }

  /** What the emitted record of a span at depth two says, and where the layout put that span. */
  lemma RecordAtDepthTwo(spans: seq<OtelSpan>, before: seq<Cell>, elems: seq<Option<PerfettoSpan>>,
                         visited: seq<nat>, placed: seq<nat>, lines: seq<nat>, events: seq<Event>, k: nat)
    returns (i: nat)
    requires |before| == |spans| && Converted(spans, before, elems, visited, placed, lines, events)
    requires k < |visited| && AtDepth(Records(spans), visited[k], 2)
    ensures |elems| == |visited| && |placed| == |lines| == |Run(events).log| && i < |placed| && placed[i] == visited[k]
    ensures elems[k].Some? && elems[k].value.tid == lines[i]
    ensures var e := elems[k].value;
            Run(events).log[i] == Placement(Span(Engine(e.pid), e.ts, e.ts + e.dur), lines[i])
  {
    var rs, x := Records(spans), visited[k];
    NoSteps(rs, x);
    assert EmittedOn(spans, before, elems[k], x, 2, placed, lines);
    hide Run, ConvertedThreads, AtDepth, Up, Threads, RootsUpTo, Below;
    i :| 0 <= i < |placed| && Up(rs, x, 0) == Some(placed[i])
         && elems[k] == Some(Emission(spans, before, x, 2, lines[i]));
    ThreadsOf(rs);
    ConvertedExactlyOnce(before, spans, x, 2);
    EmissionOf(spans, before, x, 2, lines[i]);
  }

  /** In the emitted trace, the records of two spans at depth two that share a process and a line are apart,
      if the layout had no shortcut hit. */
  lemma EmittedApart(spans: seq<OtelSpan>, before: seq<Cell>, elems: seq<Option<PerfettoSpan>>,
                     visited: seq<nat>, placed: seq<nat>, lines: seq<nat>, events: seq<Event>, k: nat, l: nat)
    requires |before| == |spans| && Converted(spans, before, elems, visited, placed, lines, events)
    requires NoShortcutHit(events) && k < |visited| && l < |visited| && k != l
    requires AtDepth(Records(spans), visited[k], 2) && AtDepth(Records(spans), visited[l], 2)
    ensures |elems| == |visited| && elems[k].Some? && elems[l].Some?
    ensures var a, b := elems[k].value, elems[l].value;
            a.pid == b.pid && a.tid == b.tid ==> a.ts + a.dur <= b.ts || b.ts + b.dur <= a.ts
  {
    assert visited[k] != visited[l];
    NoOverlapIff(events);
    hide Converted, Run, AtDepth, NoShortcutHit;
    var i := RecordAtDepthTwo(spans, before, elems, visited, placed, lines, events, k);
    var j := RecordAtDepthTwo(spans, before, elems, visited, placed, lines, events, l);
    assert i != j;
    var log := Run(events).log;
    if i < j {
      assert log[i].line == log[j].line && log[i].span.pid == log[j].span.pid ==> Apart(log[i].span, log[j].span);
    } else {
      assert log[j].line == log[i].line && log[j].span.pid == log[i].span.pid ==> Apart(log[j].span, log[i].span);
    }
  }

  lemma RecordsSize(spans: seq<OtelSpan>)
    ensures |Records(spans)| == |spans| && |Cells(spans)| == |spans|
  {
  }

  lemma MakeConverted(spans: seq<OtelSpan>, before: seq<Cell>, elems: seq<Option<PerfettoSpan>>,
                      visited: seq<nat>, placed: seq<nat>, lines: seq<nat>, events: seq<Event>)
    requires |before| == |spans| && EmitsAll(spans, before, elems, visited, placed, lines)
    requires (forall t | t in Threads(Records(spans)) :: AtDepth(Records(spans), t, 1)) && forall x | x in placed :: x < |spans|
    requires Run(events).log == Placements(ConvertedThreads(before, spans, Threads(Records(spans))), placed, lines)
    ensures Converted(spans, before, elems, visited, placed, lines, events)
  {
  }

  /** Does a root have nothing to lay out? */
  method HasEmpty(ghost spans: seq<OtelSpan>, lists: seq<seq<OtelSpan>>, ghost orders: seq<seq<nat>>,
                  ghost unsorted: seq<seq<nat>>) returns (empty: bool)
    requires IndexedAll(spans, lists, orders) && |unsorted| == |orders|
    requires forall n | 0 <= n < |orders| :: multiset(orders[n]) == multiset(unsorted[n])
    ensures empty <==> [] in unsorted
    ensures !empty ==> forall n | 0 <= n < |lists| :: lists[n] != []
  {
    forall n | 0 <= n < |lists| ensures lists[n] == [] <==> unsorted[n] == [] {
      assert Indexed(spans, lists[n], orders[n]);
      assert |multiset(orders[n])| == |multiset(unsorted[n])|;
    }
    for n := 0 to |lists|
      invariant forall m | 0 <= m < n :: lists[m] != []
    {
      if lists[n] == [] {
        assert unsorted[n] == [];
        return true;
      }
    }
    return false;
  }
}
