/** Progress of the turn-recycling queue (benchmark/hicache/bench_serving.py): bounded runs, no
    deadlock, no starvation of the issuing loop, and how far a run with failures gets. */
module TurnQueueProgress {
  import opened Common
  import opened Rounds

  import opened TurnQueue

  /** The data sets hold no empty conversation, and a limit of zero means no limit. */
  ghost predicate ValidConfig(cfg: Config) {
    && (forall c | 0 <= c < |cfg.convs| :: cfg.convs[c] != [])
    && (cfg.limit.Some? ==> cfg.limit.value > 0)
  }

  lemma GivenBounded(cfg: Config, s: State, c: nat)
    requires ValidConfig(cfg) && Inv(cfg, s) && c < |cfg.convs|
    ensures Given(s, c) <= |cfg.convs[c]|
    ensures c in s.finished ==> Given(s, c) == |cfg.convs[c]|
    ensures c in s.dropped ==> Given(s, c) == |s.convs[c].replies| + 1
  {
    hide Sum, Counted, Dialogue, FilledIn, TurnsIssued;
    assert Consistent(cfg, s, c);
    assert Places(s, c) == 1;
  }

  lemma IssuedBounded(cfg: Config, s: State)
    requires ValidConfig(cfg) && Inv(cfg, s)
    ensures s.issued <= TotalTurns(cfg)
    ensures s.issued == TotalTurns(cfg) <==> forall c: nat | c < |cfg.convs| :: Given(s, c) == |cfg.convs[c]|
  {
    hide Sum, Placed, Consistent, Given;
    assert |s.convs| == |cfg.convs| by { InvShape(cfg, s); }
    forall c: nat | c < |cfg.convs| ensures Given(s, c) <= |cfg.convs[c]| { GivenBounded(cfg, s, c); }
    SumMonotone(GivenAll(s), Lengths(cfg));
    if forall c: nat | c < |cfg.convs| :: Given(s, c) == |cfg.convs[c]| {
      assert GivenAll(s) == Lengths(cfg);
    }
    if s.issued == TotalTurns(cfg) {
      forall c: nat | c < |cfg.convs| ensures Given(s, c) == |cfg.convs[c]| {
        assert GivenAll(s)[c] == Lengths(cfg)[c];
      }
    }
  }

  // ----- Completion ----------------------------------------------------------------------------

  /** A loop that has issued everything has issued every turn of every conversation exactly once. */
  lemma AllTurnsIssuedOnce(cfg: Config, run: seq<Action>, c: nat)
    requires ValidConfig(cfg) && Possible(cfg, Start(cfg), run) && c < |cfg.convs|
    ensures var s := Exec(cfg, Start(cfg), run);
            s.issued == TotalTurns(cfg) ==> TurnsIssued(s.log, c) == UpTo(|cfg.convs[c]|)
  {
    hide Sum, Inv;
    StartInv(cfg);
    RunKeepsInv(cfg, Start(cfg), run);
    IssuedBounded(cfg, Exec(cfg, Start(cfg), run));
    TurnsIssuedInOrder(cfg, run, c);
  }

  /** No task is running. */
  predicate Quiet(s: State) { s.waiting == [] && s.active == [] && s.returning == [] }

  lemma QuietClient(cfg: Config, s: State, c: nat)
    requires Inv(cfg, s) && Quiet(s) && s.queue == [] && c < |cfg.convs|
    ensures c in s.finished || c in s.dropped
  {
    assert Places(s, c) == 1;
  }

  /** Conversation `c` was dropped before its last turn. */
  ghost predicate CutShort(cfg: Config, s: State, c: nat) {
    c < |cfg.convs| && c < |s.convs| && c in s.dropped && |s.convs[c].replies| + 1 < |cfg.convs[c]|
  }

  /** With nothing queued or running, the loop has issued everything exactly when no conversation was
      dropped before its last turn; otherwise it is short and can only time out. */
  lemma EverythingIssuedIff(cfg: Config, s: State)
    requires ValidConfig(cfg) && Inv(cfg, s) && Quiet(s) && s.queue == []
    ensures s.issued == TotalTurns(cfg) <==> forall c: nat :: !CutShort(cfg, s, c)
    ensures (exists c: nat :: CutShort(cfg, s, c)) && !s.aborted ==> Enabled(cfg, s, GiveUp) && !Enabled(cfg, s, Get)
  {
    hide Sum, Given, Inv;
    InvShape(cfg, s);
    IssuedBounded(cfg, s);
    forall c: nat | c < |cfg.convs| ensures Given(s, c) == |cfg.convs[c]| <==> !CutShort(cfg, s, c) {
      QuietClient(cfg, s, c);
      GivenBounded(cfg, s, c);
    }
    if s.issued != TotalTurns(cfg) {
      var c: nat :| c < |cfg.convs| && Given(s, c) != |cfg.convs[c]|;
      assert CutShort(cfg, s, c);
    }
  }

  /** Without failures the loop never starves: when it finds the queue empty before the end, a running
      conversation has turns left and will come back. */
  lemma NeverStarves(cfg: Config, s: State)
    requires ValidConfig(cfg) && Inv(cfg, s) && s.dropped == {} && s.queue == [] && s.issued < TotalTurns(cfg)
    ensures exists c: nat :: c < |cfg.convs| && c < |s.convs| && Given(s, c) < |cfg.convs[c]|
                             && Running(s, c) + Times(s.returning, c) == 1
  {
    hide Sum;
    IssuedBounded(cfg, s);
    var c: nat :| c < |cfg.convs| && Given(s, c) != |cfg.convs[c]|;
    GivenBounded(cfg, s, c);
    assert Places(s, c) == 1;
  }

  // ----- The measure and deadlock ---------------------------------------------------------------

  function Answers(s: State): seq<nat> {
    seq(|s.convs|, c requires 0 <= c < |s.convs| => |s.convs[c].replies|)
  }

  function Measure(cfg: Config, s: State): int {
    5 * (TotalTurns(cfg) - Sum(Answers(s)))
    + 5 * |s.returning| + 4 * |s.queue| + 3 * |s.waiting| + 2 * |s.active|
  }

  lemma MeasureNotNegative(cfg: Config, s: State)
    requires Inv(cfg, s)
    ensures Measure(cfg, s) >= 0
  {
    forall c: nat | c < |cfg.convs| ensures Answers(s)[c] <= Lengths(cfg)[c] {
      assert Consistent(cfg, s, c);
    }
    SumMonotone(Answers(s), Lengths(cfg));
  }

  lemma StepMeasured(cfg: Config, s: State, a: Action)
    requires Enabled(cfg, s, a)
    ensures var m := Measure(cfg, Do(cfg, s, a));
            if a.GiveUp? then m == Measure(cfg, s) else m < Measure(cfg, s)
  {
    hide Sum, TotalTurns;
    var t := Do(cfg, s, a);
    if a.Succeed? {
      var c := s.active[a.i];
      SumUpdate(Answers(s), c, Answers(s)[c] + 1);
      assert Answers(t) == Answers(s)[c := Answers(s)[c] + 1];
    } else {
      assert Answers(t) == Answers(s);
    }
  }

  /** No run can take more steps than the measure of its start, plus one for giving up. */
  lemma {:induction false} RunsAreBounded(cfg: Config, s: State, run: seq<Action>)
    requires Inv(cfg, s) && Possible(cfg, s, run)
    ensures |run| <= Measure(cfg, s) + if s.aborted then 0 else 1
    decreases |run|
  {
    MeasureNotNegative(cfg, s);
    if run != [] {
      StepMeasured(cfg, s, run[0]);
      StepKeepsInv(cfg, s, run[0]);
      Aborts(cfg, s, run[0]);
      hide Inv, Measure, Enabled, Do;
      RunsAreBounded(cfg, Do(cfg, s, run[0]), run[1..]);
    }
  }

  lemma Aborts(cfg: Config, s: State, a: Action)
    requires Enabled(cfg, s, a)
    ensures Do(cfg, s, a).aborted == (s.aborted || a.GiveUp?) && (a.GiveUp? ==> !s.aborted)
  {
    hide TotalTurns;
  }

  /** Unless nothing is left to do, some step other than giving up is possible. */
  lemma NoDeadlock(cfg: Config, s: State)
    requires ValidConfig(cfg) && Inv(cfg, s)
    requires !Quiet(s) || (s.queue != [] && !s.aborted && s.issued < TotalTurns(cfg))
    ensures exists a: Action :: !a.GiveUp? && Enabled(cfg, s, a)
  {
    hide Sum, TotalTurns, Counted;
    if s.returning != [] {
      assert Enabled(cfg, s, Put(0));
    } else if s.active != [] {
      assert Enabled(cfg, s, Fail(0));
    } else if s.waiting != [] {
      TimesMember(s.waiting, 0);
      assert Places(s, s.waiting[0]) >= 1;
      assert Enabled(cfg, s, Enter(0));
    } else {
      TimesMember(s.queue, 0);
      assert Places(s, s.queue[0]) >= 1;
      assert Enabled(cfg, s, Get);
    }
  }

  /** Answering is always possible too: a task that has been posted has a turn to be answered. */
  lemma AnswerPossible(cfg: Config, s: State, i: nat, reply: Reply)
    requires Inv(cfg, s) && i < |s.active|
    ensures Enabled(cfg, s, Succeed(i, reply))
  {
    var c := s.active[i];
    TimesMember(s.active, i);
    assert Places(s, c) >= 1;
    assert Consistent(cfg, s, c);
  }
}
