/** The span objects (scripts/convert_otel_2_perfetto.py): building the child lists in
    place, and the recursive walks that convert, number and collect spans. Each walk is
    proved to touch exactly the spans of SpanForest.Walk, once per visit. */
module SpanObjects {
  import opened Common
  import opened SpanForest

  datatype PerfettoSpan = PerfettoSpan(ts: int, dur: int, pid: int, tid: nat)

  class OtelSpan {
    const spanId: string
    const parentId: string
    const moduleName: string
    const pid: int  // the process id attribute, read from thread spans
    const startTime: int
    var endTime: int
    var child: seq<OtelSpan>
    var perfetto: Option<PerfettoSpan>

    constructor (spanId: string, parentId: string, moduleName: string, pid: int, startTime: int, endTime: int)
      ensures Rec() == Record(spanId, parentId, moduleName) && this.pid == pid
      ensures this.startTime == startTime && this.endTime == endTime && child == [] && perfetto == None
    {
      this.spanId, this.parentId, this.moduleName := spanId, parentId, moduleName;
      this.pid, this.startTime, this.endTime := pid, startTime, endTime;
      child, perfetto := [], None;
    }

    function Rec(): Record {
      Record(spanId, parentId, moduleName)
    }
  }

  function Records(spans: seq<OtelSpan>): (rs: seq<Record>)
    ensures |rs| == |spans|
  {
    seq(|spans|, i requires 0 <= i < |spans| => spans[i].Rec())
  }

  /** The input list holds no object twice. */
  ghost predicate Separate(spans: seq<OtelSpan>) {
    forall i, j | 0 <= i < j < |spans| :: spans[i] != spans[j]
  }

  function Pick(spans: seq<OtelSpan>, ks: seq<nat>): seq<OtelSpan>
    requires forall k | k in ks :: k < |spans|
  {
    seq(|ks|, n requires 0 <= n < |ks| => assert ks[n] in ks; spans[ks[n]])
  }

  lemma PickSnoc(spans: seq<OtelSpan>, ks: seq<nat>, k: nat)
    requires k < |spans| && forall i | i in ks :: i < |spans|
    ensures Pick(spans, ks + [k]) == Pick(spans, ks) + [spans[k]]
  {
  }

  /** The child lists after the first `n` spans have been attached. */
  function KidLists(spans: seq<OtelSpan>, n: nat): seq<seq<OtelSpan>>
    requires n <= |spans|
  {
    seq(|spans|, i requires 0 <= i < |spans| => Pick(spans, KidsUpTo(Records(spans), i, n)))
  }

  /** Attaching one more span changes the list of its parent, if it has one. */
  lemma KidListsStep(spans: seq<OtelSpan>, n: nat)
    requires n < |spans|
    ensures var before, after, p := KidLists(spans, n), KidLists(spans, n + 1), Parent(Records(spans), n);
            after == if p.None? then before else before[p.value := before[p.value] + [spans[n]]]
  {
    var rs := Records(spans);
    forall i | 0 <= i < |spans|
      ensures KidLists(spans, n + 1)[i] ==
              KidLists(spans, n)[i] + if Parent(rs, n) == Some(i) then [spans[n]] else []
    {
      if Parent(rs, n) == Some(i) {
        PickSnoc(spans, KidsUpTo(rs, i, n), n);
      }
    }
    var before, after, p := KidLists(spans, n), KidLists(spans, n + 1), Parent(rs, n);
    var expected := if p.None? then before else before[p.value := before[p.value] + [spans[n]]];
    assert |after| == |expected|;
    forall i | 0 <= i < |after| ensures after[i] == expected[i] {
      assert p.None? || p.value != i ==> after[i] == before[i] + [];
    }
  }

  /** The spans hold these child lists. */
  ghost predicate Holds(spans: seq<OtelSpan>, lists: seq<seq<OtelSpan>>)
    reads spans`child
  {
    |lists| == |spans| && forall i | 0 <= i < |spans| :: spans[i].child == lists[i]
  }

  /** Every child list is what SpanForest.Kids says. */
  ghost predicate Linked(spans: seq<OtelSpan>)
    reads spans`child
  {
    Holds(spans, KidLists(spans, |spans|))
  }

  /** The span_id_map comprehension: a later span replaces an earlier one of the same id. */
  method SpanIdMap(spans: seq<OtelSpan>) returns (byId: map<string, OtelSpan>)
    ensures forall id :: id in byId <==> exists i :: 0 <= i < |spans| && spans[i].spanId == id
    ensures forall id | id in byId :: LastWith(spans, id, byId[id])
    ensures forall id :: id in byId <==> Owner(Records(spans), id).Some?
    ensures forall id | id in byId :: byId[id] == spans[Owner(Records(spans), id).value]
  {
    byId := map[];
    for n := 0 to |spans|
      invariant forall id :: id in byId <==> exists i :: 0 <= i < n && spans[i].spanId == id
      invariant forall id | id in byId :: LastWith(spans[..n], id, byId[id])
    {
      OneMoreSpan(spans, n);
      byId := byId[spans[n].spanId := spans[n]];
    }
    assert spans[..|spans|] == spans;
    forall id ensures id in byId <==> Owner(Records(spans), id).Some? {
      OwnerIsLast(spans, id);
    }
    forall id | id in byId ensures byId[id] == spans[Owner(Records(spans), id).value] {
      OwnerIsLast(spans, id);
    }
  }

  /** `span` is the last span of the list that carries `id`. */
  ghost predicate LastWith(spans: seq<OtelSpan>, id: string, span: OtelSpan) {
    exists i :: 0 <= i < |spans| && spans[i] == span && span.spanId == id && forall j | i < j < |spans| :: spans[j].spanId != id
  }

  lemma OneMoreSpan(spans: seq<OtelSpan>, n: nat)
    requires n < |spans|
    ensures LastWith(spans[..n + 1], spans[n].spanId, spans[n])
    ensures forall id, s | id != spans[n].spanId && LastWith(spans[..n], id, s) :: LastWith(spans[..n + 1], id, s)
  {
    var longer := spans[..n + 1];
    assert longer[n] == spans[n];
    forall id, s | id != spans[n].spanId && LastWith(spans[..n], id, s) ensures LastWith(spans[..n + 1], id, s) {
      var i :| 0 <= i < n && spans[..n][i] == s && s.spanId == id && forall j | i < j < n :: spans[..n][j].spanId != id;
      forall j | i < j < |longer| ensures longer[j].spanId != id {
        assert j < n ==> spans[..n][j] == longer[j];
      }
      assert longer[i] == s;
    }
  }

  lemma OwnerIsLast(spans: seq<OtelSpan>, id: string)
    ensures Owner(Records(spans), id).Some? <==> exists i :: 0 <= i < |spans| && spans[i].spanId == id
    ensures forall s :: LastWith(spans, id, s) ==>
              Owner(Records(spans), id).Some? && s == spans[Owner(Records(spans), id).value]
  {
    var rs := Records(spans);
    OwnerIff(rs, id);
    hide Owner;
    assert forall i | 0 <= i < |spans| :: rs[i].spanId == spans[i].spanId;
    if i :| 0 <= i < |spans| && spans[i].spanId == id {
      assert rs[i].spanId == id;
    }
    if i :| 0 <= i < |rs| && rs[i].spanId == id {
      assert spans[i].spanId == id;
    }
    forall s | LastWith(spans, id, s) ensures Owner(rs, id).Some? && s == spans[Owner(rs, id).value] {
      var i :| 0 <= i < |spans| && spans[i] == s && s.spanId == id && forall j | i < j < |spans| :: spans[j].spanId != id;
      assert LastOwner(rs, id, i);
    }
  }

  /** Append span `n` to the child list of its parent, if the map knows one. */
  method Attach(spans: seq<OtelSpan>, n: nat, byId: map<string, OtelSpan>)
    requires Separate(spans) && n < |spans| && Holds(spans, KidLists(spans, n))
    requires !spans[n].Rec().IsRoot()
    requires var id := spans[n].parentId;
             && (id in byId <==> Owner(Records(spans), id).Some?)
             && (id in byId ==> byId[id] == spans[Owner(Records(spans), id).value])
    modifies spans`child
    ensures Holds(spans, KidLists(spans, n + 1))
  {
    KidListsStep(spans, n);
    ParentOf(spans, n);
    hide KidLists, Owner, Records, Parent;
    if spans[n].parentId in byId {
      var parent := byId[spans[n].parentId];
      parent.child := parent.child + [spans[n]];
    }
  }

  method ClearChildren(spans: seq<OtelSpan>)
    requires Separate(spans)
    modifies spans`child
    ensures Holds(spans, KidLists(spans, 0))
  {
    for n := 0 to |spans|
      invariant forall i | 0 <= i < n :: spans[i].child == []
    {
      spans[n].child := [];
    }
  }

  /** build_otel_span_tree. */
  method BuildTree(spans: seq<OtelSpan>) returns (roots: seq<OtelSpan>)
    requires Separate(spans)
    modifies spans`child
    ensures Linked(spans)
    ensures roots == Pick(spans, RootsUpTo(Records(spans), |spans|))
  {
    hide *;
    var byId := SpanIdMap(spans);
    ClearChildren(spans);
    roots := [];
    NoRootsYet(spans);
    for n := 0 to |spans|
      invariant Holds(spans, KidLists(spans, n))
      invariant roots == Pick(spans, RootsUpTo(Records(spans), n))
    {
      RootsStep(spans, n);
      var span := spans[n];
      if span.Rec().IsRoot() {
        roots := roots + [span];
      } else {
        Attach(spans, n, byId);
      }
    }
    AllAttached(spans);
  }

  lemma NoRootsYet(spans: seq<OtelSpan>)
    ensures Pick(spans, RootsUpTo(Records(spans), 0)) == []
  {
  }

  lemma RootsStep(spans: seq<OtelSpan>, n: nat)
    requires n < |spans|
    ensures var before, after := RootsUpTo(Records(spans), n), RootsUpTo(Records(spans), n + 1);
            if spans[n].Rec().IsRoot()
            then Pick(spans, after) == Pick(spans, before) + [spans[n]] && KidLists(spans, n + 1) == KidLists(spans, n)
            else Pick(spans, after) == Pick(spans, before)
  {
    ParentOf(spans, n);
    KidListsStep(spans, n);
    PickSnoc(spans, RootsUpTo(Records(spans), n), n);
  }

  lemma AllAttached(spans: seq<OtelSpan>)
    requires Holds(spans, KidLists(spans, |spans|))
    ensures Linked(spans)
  {
  }

  lemma ParentOf(spans: seq<OtelSpan>, n: nat)
    requires n < |spans|
    ensures Records(spans)[n] == spans[n].Rec()
    ensures Parent(Records(spans), n) ==
            if spans[n].Rec().IsRoot() then None else Owner(Records(spans), spans[n].parentId)
  {
  }

  /** The fields that the conversion of a span writes. */
  datatype Cell = Cell(start: int, end: int, perfetto: Option<PerfettoSpan>)

  ghost function Cells(spans: seq<OtelSpan>): seq<Cell>
    reads spans
  {
    seq(|spans|, i requires 0 <= i < |spans| reads spans =>
      Cell(spans[i].startTime, spans[i].endTime, spans[i].perfetto))
  }

  /** Converting a span: move its end back by 1000 ns, then record start and duration. */
  function Converter(pid: int): Cell -> Cell {
    (c: Cell) => Cell(c.start, c.end - 1000, Some(PerfettoSpan(c.start, c.end - 1000 - c.start, pid, 0)))
  }

  /** Numbering a converted span. */
  function Numberer(line: nat): Cell -> Cell {
    (c: Cell) => if c.perfetto.None? then c else c.(perfetto := Some(c.perfetto.value.(tid := line)))
  }

  /** The effect of visiting the spans of `w` one after the other. */
  function Applied(f: Cell -> Cell, cells: seq<Cell>, w: seq<nat>): (r: seq<Cell>)
    ensures |r| == |cells|
  {
    if w == [] then cells
    else
      var x, r := w[|w| - 1], Applied(f, cells, w[..|w| - 1]);
      if x < |r| then r[x := f(r[x])] else r
  }

  lemma {:induction false} AppliedConcat(f: Cell -> Cell, cells: seq<Cell>, w: seq<nat>, v: seq<nat>)
    ensures Applied(f, cells, w + v) == Applied(f, Applied(f, cells, w), v)
  {
    if v == [] {
      assert w + v == w;
    } else {
      assert (w + v)[..|w + v| - 1] == w + v[..|v| - 1];
      AppliedConcat(f, cells, w, v[..|v| - 1]);
    }
  }

  /** Without repetition each listed span is changed once and no other is touched. */
  lemma {:induction false} AppliedOnce(f: Cell -> Cell, cells: seq<Cell>, w: seq<nat>, x: nat)
    requires Distinct(w) && x < |cells|
    ensures Applied(f, cells, w)[x] == if x in w then f(cells[x]) else cells[x]
  {
    if w != [] {
      var front := w[..|w| - 1];
      assert forall y :: y in w <==> y in front || y == w[|w| - 1];
      assert w[|w| - 1] !in front;
      AppliedOnce(f, cells, front, x);
    }
  }

  lemma KidsAtDepth(rs: seq<Record>, i: nat, d: nat)
    requires AtDepth(rs, i, d)
    ensures i < |rs| && d < |rs| && forall c | c in Kids(rs, i) :: AtDepth(rs, c, d + 1)
  {
    DepthBound(rs, i, d);
    forall c | c in Kids(rs, i) ensures AtDepth(rs, c, d + 1) { KidDepth(rs, i, d, c); }
  }

  lemma WalkUnfolds(rs: seq<Record>, i: nat, d: nat)
    requires AtDepth(rs, i, d)
    ensures forall c | c in Kids(rs, i) :: AtDepth(rs, c, d + 1)
    ensures Walk(rs, i, d) == [i] + WalkAll(rs, Kids(rs, i), d + 1)
    ensures WalkAll(rs, [], d + 1) == []
  {
    KidsAtDepth(rs, i, d);
  }

  lemma LinkedChild(spans: seq<OtelSpan>, i: nat)
    requires Linked(spans) && i < |spans|
    ensures spans[i].child == Pick(spans, Kids(Records(spans), i))
    ensures |spans[i].child| == |Kids(Records(spans), i)|
    ensures forall n | 0 <= n < |spans[i].child| ::
              Kids(Records(spans), i)[n] < |spans| && spans[i].child[n] == spans[Kids(Records(spans), i)[n]]
  {
    var ks := Kids(Records(spans), i);
    assert forall n | 0 <= n < |ks| :: ks[n] in ks;
  }

  lemma WalkAllSnoc(rs: seq<Record>, ks: seq<nat>, n: nat, d: nat)
    requires n < |ks| && forall c | c in ks :: AtDepth(rs, c, d)
    ensures AtDepth(rs, ks[n], d)
    ensures WalkAll(rs, ks[..n + 1], d) == WalkAll(rs, ks[..n], d) + Walk(rs, ks[n], d)
  {
    assert ks[n] in ks && ks[..n + 1][..n] == ks[..n];
  }

  // ----- __convert_to_perfetto_span --------------------------------------------------

  method Convert(ghost spans: seq<OtelSpan>, span: OtelSpan, pid: int, ghost i: nat, ghost d: nat)
    requires Separate(spans) && Linked(spans)
    requires AtDepth(Records(spans), i, d) && spans[i] == span
    modifies spans`endTime, spans`perfetto
    ensures Cells(spans) == Applied(Converter(pid), old(Cells(spans)), Walk(Records(spans), i, d))
    decreases |spans| - d, 0
  {
    hide *;
    KidsAtDepth(Records(spans), i, d);
    LinkedChild(spans, i);
    WalkUnfolds(Records(spans), i, d);
    ConvertOne(spans, span, pid, i);
    ghost var ks := Kids(Records(spans), i);
    AppliedConcat(Converter(pid), old(Cells(spans)), [i], WalkAll(Records(spans), ks, d + 1));
    ConvertEach(spans, span.child, pid, ks, d + 1);
  }

  /** The loop over a child list. */
  method ConvertEach(ghost spans: seq<OtelSpan>, list: seq<OtelSpan>, pid: int, ghost ks: seq<nat>, ghost d: nat)
    requires Separate(spans) && Linked(spans)
    requires forall c | c in ks :: AtDepth(Records(spans), c, d)
    requires |list| == |ks| && forall n | 0 <= n < |ks| :: ks[n] < |spans| && list[n] == spans[ks[n]]
    modifies spans`endTime, spans`perfetto
    ensures Cells(spans) == Applied(Converter(pid), old(Cells(spans)), WalkAll(Records(spans), ks, d))
    decreases |spans| - d, 1
  {
    NothingApplied(Converter(pid), Cells(spans), Records(spans), d);
    hide *;
    ghost var rs := Records(spans);
    ghost var w: seq<nat> := [];
    for n := 0 to |list|
      invariant forall c | c in ks[..n] :: AtDepth(rs, c, d)
      invariant w == WalkAll(rs, ks[..n], d)
      invariant Cells(spans) == Applied(Converter(pid), old(Cells(spans)), w)
    {
      WalkAllSnoc(rs, ks, n, d);
      Convert(spans, list[n], pid, ks[n], d);
      AppliedConcat(Converter(pid), old(Cells(spans)), w, Walk(rs, ks[n], d));
      w := w + Walk(rs, ks[n], d);
    }
    assert ks[..|ks|] == ks;
  }

  lemma NothingApplied(f: Cell -> Cell, cells: seq<Cell>, rs: seq<Record>, d: nat)
    ensures WalkAll(rs, [], d) == [] && Applied(f, cells, []) == cells
  {
  }

  method ConvertOne(ghost spans: seq<OtelSpan>, span: OtelSpan, pid: int, ghost i: nat)
    requires Separate(spans) && i < |spans| && spans[i] == span
    modifies span`endTime, span`perfetto
    ensures Cells(spans) == Applied(Converter(pid), old(Cells(spans)), [i])
  {
    span.endTime := span.endTime - 1000;
    span.perfetto := Some(PerfettoSpan(span.startTime, span.endTime - span.startTime, pid, 0));
    assert [i][..0] == [];
  }

  // ----- __set_span_tid ----------------------------------------------------------------

  /** All spans at depth `d` or below have been converted. */
  ghost predicate ConvertedFrom(spans: seq<OtelSpan>, d: nat)
    reads spans`perfetto
  {
    forall x: nat, e: nat | d <= e && AtDepth(Records(spans), x, e) :: spans[x].perfetto.Some?
  }

  lemma ConvertedDeeper(spans: seq<OtelSpan>, d: nat, i: nat)
    requires ConvertedFrom(spans, d)
    ensures ConvertedFrom(spans, d + 1)
    ensures AtDepth(Records(spans), i, d) ==> spans[i].perfetto.Some?
  {
  }

  method SetTid(ghost spans: seq<OtelSpan>, span: OtelSpan, line: nat, ghost i: nat, ghost d: nat)
    requires Separate(spans) && Linked(spans)
    requires AtDepth(Records(spans), i, d) && spans[i] == span
    requires ConvertedFrom(spans, d)
    modifies spans`perfetto
    ensures forall e: nat :: old(ConvertedFrom(spans, e)) ==> ConvertedFrom(spans, e)
    ensures Cells(spans) == Applied(Numberer(line), old(Cells(spans)), Walk(Records(spans), i, d))
    decreases |spans| - d, 0
  {
    hide *;
    KidsAtDepth(Records(spans), i, d);
    LinkedChild(spans, i);
    WalkUnfolds(Records(spans), i, d);
    ConvertedDeeper(spans, d, i);
    NumberOne(spans, span, line, i);
    ghost var ks := Kids(Records(spans), i);
    AppliedConcat(Numberer(line), old(Cells(spans)), [i], WalkAll(Records(spans), ks, d + 1));
    SetTidEach(spans, span.child, line, ks, d + 1);
  }

  method SetTidEach(ghost spans: seq<OtelSpan>, list: seq<OtelSpan>, line: nat, ghost ks: seq<nat>, ghost d: nat)
    requires Separate(spans) && Linked(spans)
    requires forall c | c in ks :: AtDepth(Records(spans), c, d)
    requires |list| == |ks| && forall n | 0 <= n < |ks| :: ks[n] < |spans| && list[n] == spans[ks[n]]
    requires ConvertedFrom(spans, d)
    modifies spans`perfetto
    ensures forall e: nat :: old(ConvertedFrom(spans, e)) ==> ConvertedFrom(spans, e)
    ensures Cells(spans) == Applied(Numberer(line), old(Cells(spans)), WalkAll(Records(spans), ks, d))
    decreases |spans| - d, 1
  {
    NothingApplied(Numberer(line), Cells(spans), Records(spans), d);
    hide *;
    ghost var rs := Records(spans);
    ghost var w: seq<nat> := [];
    for n := 0 to |list|
      invariant forall c | c in ks[..n] :: AtDepth(rs, c, d)
      invariant w == WalkAll(rs, ks[..n], d)
      invariant forall e: nat :: old(ConvertedFrom(spans, e)) ==> ConvertedFrom(spans, e)
      invariant Cells(spans) == Applied(Numberer(line), old(Cells(spans)), w)
    {
      WalkAllSnoc(rs, ks, n, d);
      SetTid(spans, list[n], line, ks[n], d);
      AppliedConcat(Numberer(line), old(Cells(spans)), w, Walk(rs, ks[n], d));
      w := w + Walk(rs, ks[n], d);
    }
    assert ks[..|ks|] == ks;
  }

  method NumberOne(ghost spans: seq<OtelSpan>, span: OtelSpan, line: nat, ghost i: nat)
    requires Separate(spans) && i < |spans| && spans[i] == span && span.perfetto.Some?
    modifies span`perfetto
    ensures Cells(spans) == Applied(Numberer(line), old(Cells(spans)), [i])
    ensures forall e: nat :: old(ConvertedFrom(spans, e)) ==> ConvertedFrom(spans, e)
  {
    span.perfetto := Some(span.perfetto.value.(tid := line));
    assert [i][..0] == [];
  }

  // ----- __gather_one_span ---------------------------------------------------------------

  /** The records of the listed spans. */
  ghost function RecordsOf(cells: seq<Cell>, w: seq<nat>): seq<Option<PerfettoSpan>> {
    seq(|w|, k requires 0 <= k < |w| => if w[k] < |cells| then cells[w[k]].perfetto else None)
  }

  lemma RecordsConcat(cells: seq<Cell>, w: seq<nat>, v: seq<nat>)
    ensures RecordsOf(cells, w + v) == RecordsOf(cells, w) + RecordsOf(cells, v)
  {
  }

  lemma OwnRecord(spans: seq<OtelSpan>, i: nat)
    requires i < |spans|
    ensures RecordsOf(Cells(spans), [i]) == [spans[i].perfetto]
  {
  }

  /** Own record first, then the children's; events and links are not modelled. */
  method Gather(ghost spans: seq<OtelSpan>, span: OtelSpan, ghost i: nat, ghost d: nat)
    returns (elems: seq<Option<PerfettoSpan>>)
    requires Linked(spans) && AtDepth(Records(spans), i, d) && spans[i] == span
    ensures elems == RecordsOf(Cells(spans), Walk(Records(spans), i, d))
    decreases |spans| - d, 0
  {
    hide *;
    KidsAtDepth(Records(spans), i, d);
    OwnRecord(spans, i);
    LinkedChild(spans, i);
    WalkUnfolds(Records(spans), i, d);
    ghost var ks := Kids(Records(spans), i);
    RecordsConcat(Cells(spans), [i], WalkAll(Records(spans), ks, d + 1));
    var rest := GatherEach(spans, span.child, ks, d + 1);
    elems := [span.perfetto] + rest;
  }

  method GatherEach(ghost spans: seq<OtelSpan>, list: seq<OtelSpan>, ghost ks: seq<nat>, ghost d: nat)
    returns (elems: seq<Option<PerfettoSpan>>)
    requires Linked(spans)
    requires forall c | c in ks :: AtDepth(Records(spans), c, d)
    requires |list| == |ks| && forall n | 0 <= n < |ks| :: ks[n] < |spans| && list[n] == spans[ks[n]]
    ensures elems == RecordsOf(Cells(spans), WalkAll(Records(spans), ks, d))
    decreases |spans| - d, 1
  {
    elems := [];
    assert WalkAll(Records(spans), [], d) == [] && RecordsOf(Cells(spans), []) == elems;
    hide *;
    ghost var rs := Records(spans);
    ghost var w: seq<nat> := [];
    for n := 0 to |list|
      invariant forall c | c in ks[..n] :: AtDepth(rs, c, d)
      invariant w == WalkAll(rs, ks[..n], d) && elems == RecordsOf(Cells(spans), w)
    {
      WalkAllSnoc(rs, ks, n, d);
      var more := Gather(spans, list[n], ks[n], d);
      elems := elems + more;
      RecordsConcat(Cells(spans), w, Walk(rs, ks[n], d));
      w := w + Walk(rs, ks[n], d);
    }
    assert ks[..|ks|] == ks;
  }

  // ----- generate_perfetto_span --------------------------------------------------------------

  /** The spans below each thread are converted with that thread's process id. */
  ghost function ConvertedThreads(cells: seq<Cell>, spans: seq<OtelSpan>, ts: seq<nat>): (r: seq<Cell>)
    requires forall t | t in ts :: AtDepth(Records(spans), t, 1)
    ensures |r| == |cells|
  {
    if ts == [] then cells
    else
      var rs, t := Records(spans), ts[|ts| - 1];
      assert t in ts;
      KidsAtDepth(rs, t, 1);
      Applied(Converter(spans[t].pid), ConvertedThreads(cells, spans, ts[..|ts| - 1]),
              WalkAll(rs, Kids(rs, t), 2))
  }

  lemma ConvertedThreadsSnoc(cells: seq<Cell>, spans: seq<OtelSpan>, ts: seq<nat>, t: nat)
    requires AtDepth(Records(spans), t, 1) && forall u | u in ts :: AtDepth(Records(spans), u, 1)
    ensures forall u | u in ts + [t] :: AtDepth(Records(spans), u, 1)
    ensures forall c | c in Kids(Records(spans), t) :: AtDepth(Records(spans), c, 2)
    ensures ConvertedThreads(cells, spans, ts + [t]) ==
            Applied(Converter(spans[t].pid), ConvertedThreads(cells, spans, ts),
                    WalkAll(Records(spans), Kids(Records(spans), t), 2))
  {
    KidsAtDepth(Records(spans), t, 1);
    assert (ts + [t])[..|ts|] == ts;
  }

  /** The middle loop: the threads of one root. */
  method GenerateThreads(ghost spans: seq<OtelSpan>, root: OtelSpan, ghost i: nat,
                         ghost cells: seq<Cell>, ghost done: seq<nat>) returns (laidOut: seq<OtelSpan>)
    requires Separate(spans) && Linked(spans)
    requires AtDepth(Records(spans), i, 0) && spans[i] == root
    requires forall t | t in done :: AtDepth(Records(spans), t, 1)
    requires Cells(spans) == ConvertedThreads(cells, spans, done)
    modifies spans`endTime, spans`perfetto
    ensures forall t | t in done + Kids(Records(spans), i) :: AtDepth(Records(spans), t, 1)
    ensures Cells(spans) == ConvertedThreads(cells, spans, done + Kids(Records(spans), i))
    ensures laidOut == Pick(spans, Below(Records(spans), Kids(Records(spans), i)))
  {
    NothingBelow(spans);
    hide *;
    ghost var rs := Records(spans);
    ghost var ks := Kids(rs, i);
    KidsAtDepth(rs, i, 0);
    LinkedChild(spans, i);
    laidOut := [];
    assert done + ks[..0] == done;
    for n := 0 to |root.child|
      invariant forall t | t in done + ks[..n] :: AtDepth(rs, t, 1)
      invariant Cells(spans) == ConvertedThreads(cells, spans, done + ks[..n])
      invariant laidOut == Pick(spans, Below(rs, ks[..n]))
    {
      var thread := root.child[n];
      ghost var t := ks[n];
      assert t in ks;
      LinkedChild(spans, t);
      ConvertedThreadsSnoc(cells, spans, done + ks[..n], t);
      assert done + ks[..n] + [t] == done + ks[..n + 1];
      ConvertEach(spans, thread.child, thread.pid, Kids(rs, t), 2);
      BelowSnoc(spans, ks, n);
      laidOut := laidOut + thread.child;
    }
    assert ks[..|ks|] == ks;
  }

  lemma NothingBelow(spans: seq<OtelSpan>)
    ensures Below(Records(spans), []) == [] && Pick(spans, []) == []
  {
  }

  lemma PickConcat(spans: seq<OtelSpan>, a: seq<nat>, b: seq<nat>)
    requires (forall k | k in a :: k < |spans|) && (forall k | k in b :: k < |spans|)
    ensures Pick(spans, a + b) == Pick(spans, a) + Pick(spans, b)
  {
  }

  lemma BelowSnoc(spans: seq<OtelSpan>, ks: seq<nat>, n: nat)
    requires n < |ks|
    ensures Pick(spans, Below(Records(spans), ks[..n + 1])) ==
            Pick(spans, Below(Records(spans), ks[..n])) + Pick(spans, Kids(Records(spans), ks[n]))
  {
    assert ks[..n + 1][..n] == ks[..n];
    PickConcat(spans, Below(Records(spans), ks[..n]), Kids(Records(spans), ks[n]));
  }

  lemma RootsAtDepth(rs: seq<Record>)
    ensures forall r | r in RootsUpTo(rs, |rs|) :: AtDepth(rs, r, 0)
    ensures forall t | t in Below(rs, RootsUpTo(rs, |rs|)) :: AtDepth(rs, t, 1)
  {
    var roots := RootsUpTo(rs, |rs|);
    BelowAreKids(rs, roots);
    forall t | t in Below(rs, roots) ensures AtDepth(rs, t, 1) {
      assert Up(rs, t, 1) == Up(rs, Parent(rs, t).value, 0);
    }
  }

  lemma BeforeTheLoop(spans: seq<OtelSpan>, cells: seq<Cell>)
    ensures Below(Records(spans), []) == [] && Pick(spans, []) == []
    ensures ConvertedThreads(cells, spans, []) == cells
    ensures var ks := RootsUpTo(Records(spans), |spans|);
            && |Pick(spans, ks)| == |ks|
            && (forall n | 0 <= n < |ks| :: ks[n] in ks && ks[n] < |spans| && Pick(spans, ks)[n] == spans[ks[n]])
            && LaidOut(Records(spans)) == Below(Records(spans), Below(Records(spans), ks))
  {
    var ks := RootsUpTo(Records(spans), |spans|);
    forall n | 0 <= n < |ks| ensures ks[n] in ks {}
  }

  /** The spans below the threads of the n-th listed root. */
  function UnderRoot(rs: seq<Record>, roots: seq<nat>, n: nat): (r: seq<nat>)
    requires n < |roots|
    ensures forall k | k in r :: k < |rs|
  {
    Below(rs, Kids(rs, roots[n]))
  }

  /** The outer loop over the root spans; gateway spans are not modelled here. The result lists, root
      by root, the spans that the layout will place, before sorting. */
  method GenerateSpans(ghost spans: seq<OtelSpan>, roots: seq<OtelSpan>) returns (perRoot: seq<seq<OtelSpan>>)
    requires Separate(spans) && Linked(spans)
    requires roots == Pick(spans, RootsUpTo(Records(spans), |spans|))
    modifies spans`endTime, spans`perfetto
    ensures forall t | t in Below(Records(spans), RootsUpTo(Records(spans), |spans|)) ::
              AtDepth(Records(spans), t, 1)
    ensures Cells(spans) == ConvertedThreads(old(Cells(spans)), spans,
                                             Below(Records(spans), RootsUpTo(Records(spans), |spans|)))
    ensures |perRoot| == |RootsUpTo(Records(spans), |spans|)|
    ensures forall n | 0 <= n < |perRoot| ::
              perRoot[n] == Pick(spans, UnderRoot(Records(spans), RootsUpTo(Records(spans), |spans|), n))
  {
    hide *;
    ghost var rs := Records(spans);
    ghost var ks := RootsUpTo(rs, |spans|);
    perRoot := [];
    BeforeTheLoop(spans, Cells(spans));
    assert ks[..0] == [];
    RootsAtDepth(rs);
    for n := 0 to |roots|
      invariant forall t | t in Below(rs, ks[..n]) :: AtDepth(rs, t, 1)
      invariant Cells(spans) == ConvertedThreads(old(Cells(spans)), spans, Below(rs, ks[..n]))
      invariant |perRoot| == n && forall m | 0 <= m < n :: perRoot[m] == Pick(spans, UnderRoot(rs, ks, m))
    {
      RootUnfolds(rs, ks, n);
      var laidOut := GenerateThreads(spans, roots[n], ks[n], old(Cells(spans)), Below(rs, ks[..n]));
      perRoot := perRoot + [laidOut];
    }
    assert ks[..|ks|] == ks;
  }

  lemma RootUnfolds(rs: seq<Record>, ks: seq<nat>, n: nat)
    requires n < |ks|
    ensures Below(rs, ks[..n + 1]) == Below(rs, ks[..n]) + Kids(rs, ks[n])
    ensures UnderRoot(rs, ks, n) == Below(rs, Kids(rs, ks[n]))
  {
    assert ks[..n + 1][..n] == ks[..n];
  }

  lemma {:induction false} ThreadsOnce(cells: seq<Cell>, spans: seq<OtelSpan>, ts: seq<nat>, x: nat, d: nat)
    requires Distinct(ts) && forall t | t in ts :: AtDepth(Records(spans), t, 1)
    requires |cells| == |spans| && d >= 2 && AtDepth(Records(spans), x, d)
    ensures Up(Records(spans), x, d - 1).Some?
    ensures var t := Up(Records(spans), x, d - 1).value;
            ConvertedThreads(cells, spans, ts)[x] ==
            if t in ts then Converter(spans[t].pid)(cells[x]) else cells[x]
  {
    var rs := Records(spans);
    EarlierSteps(rs, x, d - 1, d);
    if ts != [] {
      var front, u := ts[..|ts| - 1], ts[|ts| - 1];
      assert u in ts && u !in front;
      ThreadsOnce(cells, spans, front, x, d);
      KidsAtDepth(rs, u, 1);
      WalkAllDistinct(rs, Kids(rs, u), 2);
      BelowThread(rs, u, x, d);
      AppliedOnce(Converter(spans[u].pid), ConvertedThreads(cells, spans, front), WalkAll(rs, Kids(rs, u), 2), x);
    }
  }

  /** A span is visited below the one thread that is its ancestor. */
  lemma BelowThread(rs: seq<Record>, u: nat, x: nat, d: nat)
    requires AtDepth(rs, u, 1) && d >= 2 && AtDepth(rs, x, d)
    ensures forall c | c in Kids(rs, u) :: AtDepth(rs, c, 2)
    ensures x in WalkAll(rs, Kids(rs, u), 2) <==> Up(rs, x, d - 1) == Some(u)
  {
    assert x < |rs| && Up(rs, x, d).Some?;
    hide *;
    KidsAtDepth(rs, u, 1);
    WalkAllVisits(rs, Kids(rs, u), 2, x);
    EarlierSteps(rs, x, d - 2, d);
    NextUp(rs, x, d - 2);
    KidIff(rs, u, Up(rs, x, d - 2).value);
    if x in WalkAll(rs, Kids(rs, u), 2) {
      var k: nat :| Up(rs, x, k).Some? && Up(rs, x, k).value in Kids(rs, u);
      AncestorDepth(rs, x, k, Up(rs, x, k).value, 2);
      DepthIsUnique(rs, x, d, k + 2);
    }
  }

  lemma ThreadAbove(rs: seq<Record>, x: nat, d: nat)
    requires d >= 2 && AtDepth(rs, x, d)
    ensures Up(rs, x, d - 1).Some? && Up(rs, x, d - 1).value in Below(rs, RootsUpTo(rs, |rs|))
  {
    BelowAreKids(rs, RootsUpTo(rs, |rs|));
    EarlierSteps(rs, x, d - 1, d);
    UpUp(rs, x, d - 1, 1);
    var t := Up(rs, x, d - 1).value;
    assert Up(rs, t, 1) == Up(rs, Parent(rs, t).value, 0);
  }

  lemma ThreadsDistinct(rs: seq<Record>)
    ensures Distinct(Below(rs, RootsUpTo(rs, |rs|)))
  {
    BelowAreKids(rs, RootsUpTo(rs, |rs|));
  }

  /** Over the whole list, whatever its ids: a span two or more levels below a root has its end
      moved back by 1000 exactly once and carries the process id of the thread above it. */
  lemma ConvertedExactlyOnce(cells: seq<Cell>, spans: seq<OtelSpan>, x: nat, d: nat)
    requires |cells| == |spans| && d >= 2 && AtDepth(Records(spans), x, d)
    ensures Up(Records(spans), x, d - 1).Some?
    ensures forall t | t in Below(Records(spans), RootsUpTo(Records(spans), |spans|)) ::
              AtDepth(Records(spans), t, 1)
    ensures var t := Up(Records(spans), x, d - 1).value;
            ConvertedThreads(cells, spans, Below(Records(spans), RootsUpTo(Records(spans), |spans|)))[x]
            == Converter(spans[t].pid)(cells[x])
  {
    hide *;
    var rs := Records(spans);
    RootsAtDepth(rs);
    ThreadsDistinct(rs);
    ThreadAbove(rs, x, d);
    ThreadsOnce(cells, spans, Below(rs, RootsUpTo(rs, |rs|)), x, d);
  }

  /** A span that hangs less than two levels below a root, or below none, is left alone. */
  lemma {:induction false} OthersUntouched(cells: seq<Cell>, spans: seq<OtelSpan>, ts: seq<nat>, x: nat)
    requires forall t | t in ts :: AtDepth(Records(spans), t, 1)
    requires x < |cells| == |spans| && forall d: nat | d >= 2 :: !AtDepth(Records(spans), x, d)
    ensures ConvertedThreads(cells, spans, ts)[x] == cells[x]
  {
    if ts != [] {
      var rs, front, u := Records(spans), ts[..|ts| - 1], ts[|ts| - 1];
      assert u in ts;
      OthersUntouched(cells, spans, front, x);
      KidsAtDepth(rs, u, 1);
      WalkAllDistinct(rs, Kids(rs, u), 2);
      NotBelowThread(rs, u, x);
      AppliedOnce(Converter(spans[u].pid), ConvertedThreads(cells, spans, front), WalkAll(rs, Kids(rs, u), 2), x);
    }
  }

  lemma NotBelowThread(rs: seq<Record>, u: nat, x: nat)
    requires AtDepth(rs, u, 1) && x < |rs| && forall d: nat | d >= 2 :: !AtDepth(rs, x, d)
    ensures forall c | c in Kids(rs, u) :: AtDepth(rs, c, 2)
    ensures x !in WalkAll(rs, Kids(rs, u), 2)
  {
    KidsAtDepth(rs, u, 1);
    WalkAllVisits(rs, Kids(rs, u), 2, x);
    if x in WalkAll(rs, Kids(rs, u), 2) {
      var k: nat :| Up(rs, x, k).Some? && Up(rs, x, k).value in Kids(rs, u);
      AncestorDepth(rs, x, k, Up(rs, x, k).value, 2);
    }
  }
}
