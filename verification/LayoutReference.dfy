/** Which line every span of a trace is drawn on (scripts/convert_otel_2_perfetto.py), said in terms of the spans
    placed before it alone: no line lists, no binary search, no status dictionary. */
module LayoutReference {
  import opened Common
  import opened SpanLayout
  import opened LayoutObjects

  /** A span placed earlier on line `n` of the same process conflicts with `span`. */
  ghost predicate LogConflict(log: seq<Placement>, span: Span, n: nat) {
    exists i :: 0 <= i < |log| && log[i].span.pid == span.pid && log[i].line == n
                && Conflicts(log[i].span.Times(), span.start, span.end)
  }

  /** The line of the latest placement of process `pid`. */
  function LatestLine(own: seq<Placement>, pid: Pid): Option<nat> {
    if own == [] then None
    else if own[|own| - 1].span.pid == pid then Some(own[|own| - 1].line)
    else LatestLine(own[..|own| - 1], pid)
  }

  /** After the placements `log`, of which `own` are this request's: the request's latest line of the process, if
      the span has length zero or fits there, else the first line on which it fits. */
  ghost predicate Reference(log: seq<Placement>, own: seq<Placement>, span: Span, line: nat) {
    var latest := LatestLine(own, span.pid);
    if latest.Some? && (span.start == span.end || !LogConflict(log, span, latest.value)) then line == latest.value
    else 1 <= line && !LogConflict(log, span, line) && forall m | 1 <= m < line :: LogConflict(log, span, m)
  }

  /** The stored intervals conflict exactly when the logged spans do. */
  lemma LogIsLayout(s: State, span: Span, n: nat)
    requires Invariant(s)
    ensures LineConflict(s.layout, span, n) <==> LogConflict(s.log, span, n)
  {
    var stored := Stored(s.layout, span.pid, n);
    assert stored == Assigned(s.log, span.pid, n);
    hide Assigned, Conflicts, AllNumbered, OneSlotPerLine;
    if LineConflict(s.layout, span, n) {
      var row := s.layout.graph[span.pid].at[n];
      var k :| 0 <= k < |row| && Conflicts(row[k], span.start, span.end);
      assert row[k] in stored;
      var i := AssignedIndex(s.log, span.pid, n, row[k]);
      assert s.log[i].span.Times() == row[k];
    }
    if LogConflict(s.log, span, n) {
      var i :| 0 <= i < |s.log| && s.log[i].span.pid == span.pid && s.log[i].line == n
               && Conflicts(s.log[i].span.Times(), span.start, span.end);
      AssignedContains(s.log, i);
      assert s.log[i].span.Times() in stored;
      var row := s.layout.graph[span.pid].at[n];
      var k :| 0 <= k < |row| && row[k] == s.log[i].span.Times();
    }
  }

  /** One placement follows the reference. */
  lemma StepFollowsReference(s: State, own: seq<Placement>, span: Span)
    requires Invariant(s) && AllChained(s.layout)
    requires forall p :: (p in s.status <==> LatestLine(own, p).Some?) && (p in s.status ==> LatestLine(own, p) == Some(s.status[p]))
    ensures Reference(s.log, own, span, ChooseLine(s.layout, s.status, span))
  {
    ChoosesFirstFit(s.layout, s.status, span, ChooseLine(s.layout, s.status, span));
    hide LineConflict, LogConflict, ChooseLine, LatestLine;
    forall n: nat ensures LineConflict(s.layout, span, n) <==> LogConflict(s.log, span, n) { LogIsLayout(s, span, n); }
  }

  // ----- A whole request ------------------------------------------------------------------------

  /** The run up to the first `i` spans of a request. */
  function Sofar(past: seq<Event>, spans: seq<Span>, i: nat): seq<Event>
    requires i <= |spans|
  {
    past + [NextRequest] + Places(spans[..i])
  }

  /** What the log and the status say while a request is being laid out. */
  lemma {:induction false} StatusIsLatest(past: seq<Event>, spans: seq<Span>, i: nat)
    requires i <= |spans|
    ensures var s, b := Run(Sofar(past, spans, i)), |Run(past).log|;
            && |s.log| == b + i && s.log[..b] == Run(past).log
            && (forall k | 0 <= k < i :: s.log[b + k].span == spans[k])
            && (forall p :: (p in s.status <==> LatestLine(s.log[b..], p).Some?)
                            && (p in s.status ==> LatestLine(s.log[b..], p) == Some(s.status[p])))
  {
    hide Run, ChooseLine, PlaceSpan, SpanLayout.Consistent, AllNumbered;
    var b := |Run(past).log|;
    if i == 0 {
      RunSnoc(past, NextRequest);
      assert Sofar(past, spans, 0) == past + [NextRequest];
    } else {
      StatusIsLatest(past, spans, i - 1);
      RunPlace(past + [NextRequest], spans, i - 1);
      var s, t := Run(Sofar(past, spans, i - 1)), Run(Sofar(past, spans, i));
      LatestSnoc(s.log, t.log, b, s.status, t.status, spans[i - 1]);
    }
  }

  lemma LatestSnoc(log: seq<Placement>, log': seq<Placement>, b: nat, st: Status, st': Status, span: Span)
    requires b <= |log| && |log'| == |log| + 1 && log' == log + [log'[|log|]] && log'[|log|].span == span
    requires st' == st[span.pid := log'[|log|].line]
    requires forall p :: (p in st <==> LatestLine(log[b..], p).Some?) && (p in st ==> LatestLine(log[b..], p) == Some(st[p]))
    ensures forall p :: (p in st' <==> LatestLine(log'[b..], p).Some?) && (p in st' ==> LatestLine(log'[b..], p) == Some(st'[p]))
  {
    assert log'[b..] == log[b..] + [log'[|log|]];
    assert log'[b..][..|log'[b..]| - 1] == log[b..];
  }

  lemma {:induction false} NoHitBefore(events: seq<Event>, more: seq<Event>)
    requires NoShortcutHit(events + more)
    ensures NoShortcutHit(events)
    decreases |more|
  {
    if more == [] {
      assert events + more == events;
    } else {
      var front := more[..|more| - 1];
      assert (events + more)[..|events + more| - 1] == events + front;
      NoHitBefore(events, front);
    }
  }

  /** In every run without a shortcut hit, each span of a request is placed on its reference line. */
  lemma RequestFollowsReference(past: seq<Event>, spans: seq<Span>, i: nat)
    requires i < |spans| && NoShortcutHit(past + [NextRequest] + Places(spans))
    ensures var log, b := Run(past + [NextRequest] + Places(spans)).log, |Run(past).log|;
            && |log| == b + |spans| && log[b + i].span == spans[i]
            && Reference(log[..b + i], log[b..b + i], spans[i], log[b + i].line)
  {
    hide Run, NoShortcutHit, NoOverlap, AllChained, Reference, ChooseLine, PlaceSpan, SpanLayout.Consistent, AllNumbered, Invariant,
      LatestLine;
    var b := |Run(past).log|;
    var whole := past + [NextRequest] + Places(spans);
    assert Sofar(past, spans, |spans|) == whole by { assert spans[..|spans|] == spans; }
    StatusIsLatest(past, spans, |spans|);
    StatusIsLatest(past, spans, i);
    var before := Sofar(past, spans, i);
    assert whole == before + Places(spans[i..]);
    NoHitBefore(before, Places(spans[i..]));
    NoOverlapIff(before);
    RunKeepsInvariant(before);
    var s := Run(before);
    StepFollowsReference(s, s.log[b..], spans[i]);
    RunPlace(past + [NextRequest], spans, i);
    LogGrows(past, spans, i + 1, |spans|);
    LogEntry(past, spans, i);
    var log := Run(whole).log;
    assert s.log == log[..b + i] && s.log[b..] == log[b..b + i];
  }

  /** The log is only ever extended. */
  lemma {:induction false} LogGrows(past: seq<Event>, spans: seq<Span>, i: nat, j: nat)
    requires i <= j <= |spans|
    ensures |Run(Sofar(past, spans, i)).log| <= |Run(Sofar(past, spans, j)).log|
    ensures Run(Sofar(past, spans, i)).log <= Run(Sofar(past, spans, j)).log
    decreases j - i
  {
    hide Run, ChooseLine, PlaceSpan, SpanLayout.Consistent, AllNumbered;
    if i < j {
      LogGrows(past, spans, i, j - 1);
      RunPlace(past + [NextRequest], spans, j - 1);
    }
  }

  lemma LogEntry(past: seq<Event>, spans: seq<Span>, i: nat)
    requires i < |spans|
    ensures var s, t := Run(Sofar(past, spans, i)), Run(Sofar(past, spans, i + 1));
            t.log == s.log + [Placement(spans[i], ChooseLine(s.layout, s.status, spans[i]))]
  {
    hide Run, ChooseLine, PlaceSpan, SpanLayout.Consistent, AllNumbered;
    RunPlace(past + [NextRequest], spans, i);
  }
}
