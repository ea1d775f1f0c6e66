/** Progress of the multi-turn protocol (benchmark/hicache/bench_multiturn.py): a measure that every
    productive step decreases, absence of deadlock, what a run that has come to rest has
    done, and when the two loops cannot end. */
module MultiTurnProgress {
  import opened Common
  import opened Rounds
  import opened MultiTurn
  import opened MultiTurnSafety

  import opened MultiTurnBarrier

  // ----- The measure ----------------------------------------------------------------------

  /** Steps that move a request on; the others only move a thread around its loop. */
  predicate Productive(a: Action) {
    a.Pop? || a.Launch? || a.Complete? || a.Break? || a.Put? || a.Absorb? || a.FollowUp? || a.ReleaseOne? || a.ReleaseEnd?
  }

  function RoundsLeft(cfg: Config, s: State): int { Sum(cfg.totals) - Sum(RoundsOf(s)) }

  function Measure(cfg: Config, s: State): int {
    12 * RoundsLeft(cfg, s)
    + (if s.handler.Absorbed? then 8 else if s.handler.Releasing? then 1 else 0)
    + 6 * |s.held| + 5 * |s.ready| + (if s.sender.Popped? then 4 else 0)
    + 3 * |s.inFlight| + 2 * Finishing(s) + |s.responses|
  }

  lemma MeasureNotNegative(cfg: Config, s: State)
    requires Placed(cfg, s)
    ensures RoundsLeft(cfg, s) >= 0 && Measure(cfg, s) >= 0
  {
    forall c: nat | c < |cfg.totals| ensures RoundsOf(s)[c] <= cfg.totals[c] {
      assert PlacedClient(cfg, s, c);
    }
    SumMonotone(RoundsOf(s), cfg.totals);
  }

  lemma AbsorbDecreases(cfg: Config, s: State)
    requires Placed(cfg, s) && Enabled(cfg, s, Absorb)
    ensures Measure(cfg, Do(cfg, s, Absorb)) < Measure(cfg, s)
  {
    hide Sum, Placed;
    var t, c := Do(cfg, s, Absorb), s.responses[0].client;
    if s.responses[0].ok {
      RoundsUpdated(s, t, c);
      SumUpdate(RoundsOf(s), c, t.records[c].round);
    } else {
      assert RoundsOf(t) == RoundsOf(s);
    }
  }

  lemma FollowUpDecreases(cfg: Config, s: State)
    requires Enabled(cfg, s, FollowUp)
    ensures Measure(cfg, Do(cfg, s, FollowUp)) < Measure(cfg, s)
  {
    hide Sum, ClientsPerRound;
    assert RoundsOf(Do(cfg, s, FollowUp)) == RoundsOf(s);
  }

  lemma OthersMeasured(cfg: Config, s: State, a: Action)
    requires Enabled(cfg, s, a) && !a.Absorb? && !a.FollowUp?
    ensures var m := Measure(cfg, Do(cfg, s, a));
            if Productive(a) then m < Measure(cfg, s) else m == Measure(cfg, s)
  {
    hide Sum;
    assert RoundsOf(Do(cfg, s, a)) == RoundsOf(s);
  }

  lemma StepMeasured(cfg: Config, s: State, a: Action)
    requires Safe(cfg, s) && Enabled(cfg, s, a)
    ensures var m := Measure(cfg, Do(cfg, s, a));
            if Productive(a) then m < Measure(cfg, s) else m == Measure(cfg, s)
  {
    if a.Absorb? {
      AbsorbDecreases(cfg, s);
    } else if a.FollowUp? {
      FollowUpDecreases(cfg, s);
    } else {
      OthersMeasured(cfg, s, a);
    }
  }

  function CountProductive(run: seq<Action>): nat {
    if run == [] then 0 else (if Productive(run[0]) then 1 else 0) + CountProductive(run[1..])
  }

  /** No run, with failures or without, can take more productive steps than the measure of its start. */
  lemma {:induction false} RunsAreBounded(cfg: Config, s: State, run: seq<Action>)
    requires Safe(cfg, s) && Possible(cfg, s, run)
    ensures CountProductive(run) <= Measure(cfg, s)
    decreases |run|
  {
    MeasureNotNegative(cfg, s);
    hide Safe, Measure, Enabled, Do;
    if run != [] {
      StepMeasured(cfg, s, run[0]);
      StepKeepsSafe(cfg, s, run[0]);
      RunsAreBounded(cfg, Do(cfg, s, run[0]), run[1..]);
    }
  }

  // ----- No deadlock -------------------------------------------------------------------------

  /** Nothing is queued, on its way or being served; requests held back do not count. */
  predicate AtRest(s: State) {
    && s.ready == [] && !s.sender.Popped? && s.inFlight == [] && s.finishing.None? && s.responses == []
    && !s.handler.Absorbed? && !s.handler.Releasing?
  }

  /** Some productive step is possible, after at most two steps around the sender's loop. */
  ghost predicate CanProgress(cfg: Config, s: State) {
    exists run: seq<Action> :: 1 <= |run| <= 3 && Possible(cfg, s, run) && Productive(run[|run| - 1])
  }

  lemma OneStep(cfg: Config, s: State, a: Action)
    requires Enabled(cfg, s, a) && Productive(a)
    ensures CanProgress(cfg, s)
  {
    var run := [a];
    assert Possible(cfg, s, run);
  }

  lemma TwoSteps(cfg: Config, s: State, a: Action, b: Action)
    requires Enabled(cfg, s, a) && Enabled(cfg, Do(cfg, s, a), b) && Productive(b)
    ensures CanProgress(cfg, s)
  {
    hide Enabled, Do;
    var run := [a, b];
    assert run[1..] == [b] && [b][1..] == [];
    assert Possible(cfg, Do(cfg, s, a), [b]);
    assert Possible(cfg, s, run);
  }

  lemma ThreeSteps(cfg: Config, s: State, a: Action, b: Action, d: Action)
    requires Enabled(cfg, s, a) && Enabled(cfg, Do(cfg, s, a), b)
    requires Enabled(cfg, Do(cfg, Do(cfg, s, a), b), d) && Productive(d)
    ensures CanProgress(cfg, s)
  {
    hide Enabled, Do;
    var run := [a, b, d];
    assert run[1..] == [b, d] && [b, d][1..] == [d] && [d][1..] == [];
    assert Possible(cfg, Do(cfg, Do(cfg, s, a), b), [d]);
    assert Possible(cfg, Do(cfg, s, a), [b, d]);
    assert Possible(cfg, s, run);
  }

  /** The handler can still act on what it will be given. */
  predicate HandlerLives(cfg: Config, s: State) {
    !s.handler.HandlerDone? && !(s.handler.TimedOut? && s.progress == Sum(cfg.totals))
  }

  lemma HandlerMoves(cfg: Config, s: State)
    requires Safe(cfg, s) && HandlerLives(cfg, s)
    requires s.finishing.Some? || s.responses != [] || s.handler.Absorbed? || s.handler.Releasing?
    ensures CanProgress(cfg, s)
  {
    hide Counted, InWindow, Stocked, FreshPayloads, Sum;
    if s.finishing.Some? {
      OneStep(cfg, s, Put);
    } else if s.handler.Absorbed? {
      assert PlacedClient(cfg, s, s.handler.client);
      OneStep(cfg, s, FollowUp);
    } else if s.handler.Releasing? {
      OneStep(cfg, s, if s.held == [] then ReleaseEnd else ReleaseOne);
    } else {
      var c := s.responses[0].client;
      AnsweringTail(s.responses, c);
      assert PlacedClient(cfg, s, c);
      if s.handler.TimedOut? {
        TwoSteps(cfg, s, Exit, Absorb);
      } else {
        OneStep(cfg, s, Absorb);
      }
    }
  }

  lemma SenderMovesOn(cfg: Config, s: State)
    requires Safe(cfg, s) && cfg.maxParallel > 0 && s.completed < Sum(cfg.totals)
    requires s.finishing.None? && s.responses == [] && !s.sender.SenderDone?
    requires s.ready != [] || s.sender.Popped? || s.inFlight != []
    ensures CanProgress(cfg, s)
  {
    hide Placed, Stocked, FreshPayloads, Sum;
    if s.sender.Popped? {
      OneStep(cfg, s, Launch);
    } else if s.sender.Checked? {
      if s.ready != [] {
        OneStep(cfg, s, Pop(0));
      } else {
        ThreeSteps(cfg, s, PopEmpty, Leave, Complete(0, true, []));
      }
    } else if s.inFlight != [] {
      if s.sender.Leaving? {
        TwoSteps(cfg, s, Leave, Complete(0, true, []));
      } else {
        OneStep(cfg, s, Complete(0, true, []));
      }
    } else if s.sender.Leaving? {
      ThreeSteps(cfg, s, Leave, Check, Pop(0));
    } else {
      TwoSteps(cfg, s, Check, Pop(0));
    }
  }

  /** A sender that has left has seen the progress bar full. */
  predicate LeftOnlyWhenFull(cfg: Config, s: State) {
    s.sender.SenderDone? ==> s.progress == Sum(cfg.totals)
  }

  /** As long as requests are unanswered a run that is not at rest can go on, whatever has failed. */
  lemma NoDeadlock(cfg: Config, s: State)
    requires Safe(cfg, s) && LeftOnlyWhenFull(cfg, s) && cfg.maxParallel > 0 && s.completed < Sum(cfg.totals)
    requires HandlerLives(cfg, s) && !AtRest(s)
    ensures CanProgress(cfg, s)
  {
    if s.finishing.Some? || s.responses != [] || s.handler.Absorbed? || s.handler.Releasing? {
      HandlerMoves(cfg, s);
    } else {
      SenderMovesOn(cfg, s);
    }
  }

  lemma StepKeepsLeft(cfg: Config, s: State, a: Action)
    requires LeftOnlyWhenFull(cfg, s) && Enabled(cfg, s, a)
    ensures LeftOnlyWhenFull(cfg, Do(cfg, s, a))
  {
    hide Sum, ClientsPerRound;
  }

  // ----- A run at rest ----------------------------------------------------------------------

  /** The barrier's invariant, or nothing held back without a barrier. */
  ghost predicate Gate(cfg: Config, s: State) {
    if cfg.barrier then Gated(cfg, s) else s.held == []
  }

  lemma StepKeepsGate(cfg: Config, s: State, a: Action)
    requires ValidConfig(cfg) && Safe(cfg, s) && Gate(cfg, s) && Enabled(cfg, s, a)
    ensures Gate(cfg, Do(cfg, s, a))
  {
    hide Sum, ClientsPerRound, Safe, Gated, ValidConfig;
    if cfg.barrier {
      StepKeepsGated(cfg, s, a);
    }
  }

  lemma NothingActive(s: State, c: nat)
    requires AtRest(s)
    ensures Active(s, c) == 0 && ActiveTotal(s) == 0
  {
  }

  /** At rest, a client is finished, failed, or held back by the barrier. */
  lemma RestingClient(cfg: Config, s: State, c: nat)
    requires Placed(cfg, s) && AtRest(s) && c < |cfg.totals|
    ensures s.records[c].round == cfg.totals[c] || c in s.failed || Asking(s.held, c) == 1
  {
    assert PlacedClient(cfg, s, c);
    OpenSplits(s, c);
    NothingActive(s, c);
  }

  /** Without failures nothing can be held back at rest: the barrier has been passed by all. */
  lemma RestFinishesClient(cfg: Config, s: State, c: nat)
    requires Safe(cfg, s) && Gate(cfg, s) && AtRest(s) && s.failed == {} && c < |cfg.totals|
    ensures s.records[c].round == cfg.totals[c]
  {
    hide Sum, Counted, InWindow, Stocked, FreshPayloads, Active, ActiveTotal;
    RestingClient(cfg, s, c);
    if cfg.barrier {
      NothingActive(s, c);
      assert InStep(cfg, s, c) && Tallied(cfg, s);
      assert ClientsInRound(cfg.totals, s.barrierRound) == 0;
      ParticipantsCounted(cfg.totals, s.barrierRound);
      assert c !in Participants(cfg.totals, s.barrierRound);
    }
  }

  /** A run without failures that has come to rest has completed every round of every client and
      popped exactly the follow-up questions they needed. */
  lemma RestIsCompletion(cfg: Config, s: State)
    requires ValidConfig(cfg) && Safe(cfg, s) && Gate(cfg, s) && AtRest(s) && s.failed == {}
    ensures s.completed == Sum(cfg.totals) && s.sent == Sum(cfg.totals)
    ensures s.progress + s.uncounted == Sum(cfg.totals)
    ensures |cfg.questions| - |s.pool| == Sum(FollowUps(cfg.totals))
    ensures s.held == []
  {
    forall c: nat | c < |cfg.totals| ensures s.records[c].round == cfg.totals[c] {
      RestFinishesClient(cfg, s, c);
    }
    assert RoundsOf(s) == cfg.totals;
    SumZero(OwedAll(cfg, s));
    assert |s.failed| == 0;
  }

  lemma {:induction false} RunKeepsEverything(cfg: Config, s: State, run: seq<Action>)
    requires ValidConfig(cfg) && Safe(cfg, s) && Gate(cfg, s) && LeftOnlyWhenFull(cfg, s) && Possible(cfg, s, run)
    ensures var t := Exec(cfg, s, run); Safe(cfg, t) && Gate(cfg, t) && LeftOnlyWhenFull(cfg, t)
    decreases |run|
  {
    hide Safe, Gate, LeftOnlyWhenFull, Enabled, Do, ValidConfig;
    if run != [] {
      StepKeepsSafe(cfg, s, run[0]);
      StepKeepsGate(cfg, s, run[0]);
      StepKeepsLeft(cfg, s, run[0]);
      RunKeepsEverything(cfg, Do(cfg, s, run[0]), run[1..]);
    }
  }

  lemma StartKeepsEverything(cfg: Config)
    requires ValidConfig(cfg)
    ensures Safe(cfg, Start(cfg)) && Gate(cfg, Start(cfg)) && LeftOnlyWhenFull(cfg, Start(cfg))
  {
    StartIsSafe(cfg);
    StartIsGated(cfg);
  }

  /** Every run, barrier or not, is bounded in productive steps; it can go on while it is not at rest and
      requests are uncompleted; and without failures it is at rest only when every request of
      every client has been sent and completed and exactly the needed questions have been popped. */
  lemma EveryRun(cfg: Config, run: seq<Action>)
    requires ValidConfig(cfg) && Possible(cfg, Start(cfg), run)
    ensures CountProductive(run) <= Measure(cfg, Start(cfg))
    ensures var s := Exec(cfg, Start(cfg), run);
            && (cfg.maxParallel > 0 && s.completed < Sum(cfg.totals) && HandlerLives(cfg, s) && !AtRest(s) ==>
                  CanProgress(cfg, s))
            && (s.failed == {} && AtRest(s) ==>
                  s.sent == s.completed == Sum(cfg.totals)
                  && |cfg.questions| - |s.pool| == Sum(FollowUps(cfg.totals)))
  {
    var s := Exec(cfg, Start(cfg), run);
    hide *;
    StartKeepsEverything(cfg);
    RunKeepsEverything(cfg, Start(cfg), run);
    RunsAreBounded(cfg, Start(cfg), run);
    if cfg.maxParallel > 0 && s.completed < Sum(cfg.totals) && HandlerLives(cfg, s) && !AtRest(s) {
      NoDeadlock(cfg, s);
    }
    if s.failed == {} && AtRest(s) {
      RestIsCompletion(cfg, s);
    }
  }

  // ----- When the loops cannot end ----------------------------------------------------------

  /** Responses of client `c` that have been received and not absorbed. */
  function Received(s: State, c: nat): nat {
    (if s.finishing.Some? then One(s.finishing.value.client, c) else 0) + Answering(s.responses, c)
  }

  function ReceivedAll(s: State): seq<nat> {
    seq(|s.records|, c requires 0 <= c => Received(s, c))
  }

  lemma {:induction false} SumAnswering(rs: seq<Response>, n: nat)
    requires forall i | 0 <= i < |rs| :: rs[i].client < n
    ensures Sum(seq(n, c requires 0 <= c => Answering(rs, c))) == |rs|
  {
    var all := seq(n, c requires 0 <= c => Answering(rs, c));
    if rs == [] {
      SumZero(all);
    } else {
      var k := |rs| - 1;
      SumAnswering(rs[..k], n);
      var some := seq(n, c requires 0 <= c => Answering(rs[..k], c));
      var x := rs[k].client;
      SumUpdate(some, x, some[x] + 1);
      assert all == some[x := some[x] + 1];
    }
  }

  lemma {:induction false} AnsweringMember(rs: seq<Response>, i: nat)
    requires i < |rs|
    ensures Answering(rs, rs[i].client) >= 1
  {
    if i < |rs| - 1 {
      AnsweringMember(rs[..|rs| - 1], i);
    }
  }

  lemma ReceivedAddUp(cfg: Config, s: State)
    requires Placed(cfg, s)
    ensures Sum(ReceivedAll(s)) == Finishing(s) + |s.responses|
  {
    var n := |s.records|;
    forall i | 0 <= i < |s.responses| ensures s.responses[i].client < n {
      AnsweringMember(s.responses, i);
      assert PlacedClient(cfg, s, s.responses[i].client);
    }
    SumAnswering(s.responses, n);
    var some := seq(n, c requires 0 <= c => Answering(s.responses, c));
    if s.finishing.Some? {
      var x := s.finishing.value.client;
      assert PlacedClient(cfg, s, x);
      SumUpdate(some, x, some[x] + 1);
      assert ReceivedAll(s) == some[x := some[x] + 1];
    } else {
      assert ReceivedAll(s) == some;
    }
  }

  /** Rounds absorbed, failed or received, per client. */
  ghost function Spent(cfg: Config, s: State): (r: seq<nat>)
    requires |cfg.totals| == |s.records|
    ensures |r| == |cfg.totals|
  {
    Plus(Plus(RoundsOf(s), Marks(|cfg.totals|, s.failed)), ReceivedAll(s))
  }

  lemma SpentInTotal(cfg: Config, s: State)
    requires Placed(cfg, s) && Counted(s)
    ensures Sum(Spent(cfg, s)) == s.progress + s.uncounted
  {
    var n := |cfg.totals|;
    forall c: nat | c in s.failed ensures c < n { assert PlacedClient(cfg, s, c); }
    SumMarks(n, s.failed);
    SumPlus(RoundsOf(s), Marks(n, s.failed));
    ReceivedAddUp(cfg, s);
    SumPlus(Plus(RoundsOf(s), Marks(n, s.failed)), ReceivedAll(s));
  }

  lemma SpentPerClient(cfg: Config, s: State, c: nat)
    requires Placed(cfg, s) && c < |cfg.totals|
    ensures Spent(cfg, s)[c] <= cfg.totals[c]
    ensures c in s.failed ==> Spent(cfg, s)[c] == s.records[c].round + 1
  {
    assert PlacedClient(cfg, s, c);
  }

  /** Client `c` failed with further rounds to go. */
  ghost predicate CutShort(cfg: Config, s: State, c: nat) {
    c < |cfg.totals| && c < |s.records| && c in s.failed && s.records[c].round + 1 < cfg.totals[c]
  }

  /** A failure that the progress bar can never make up for. */
  ghost predicate Hopeless(cfg: Config, s: State) {
    s.uncounted > 0 || exists c :: CutShort(cfg, s, c)
  }

  lemma SpentWithinTotals(cfg: Config, s: State)
    requires Placed(cfg, s)
    ensures Sum(Spent(cfg, s)) <= Sum(cfg.totals)
    ensures Sum(Spent(cfg, s)) == Sum(cfg.totals) <==>
            forall c: nat | c < |cfg.totals| :: Spent(cfg, s)[c] == cfg.totals[c]
  {
    hide Sum, Spent;
    forall c: nat | c < |cfg.totals| ensures Spent(cfg, s)[c] <= cfg.totals[c] {
      SpentPerClient(cfg, s, c);
    }
    SumMonotone(Spent(cfg, s), cfg.totals);
    if forall c: nat | c < |cfg.totals| :: Spent(cfg, s)[c] == cfg.totals[c] {
      assert Spent(cfg, s) == cfg.totals;
    }
  }

  /** The progress bar never overruns, and stays short of its total after a hopeless failure. */
  lemma ProgressBounded(cfg: Config, s: State)
    requires Safe(cfg, s)
    ensures s.progress <= Sum(cfg.totals)
    ensures Hopeless(cfg, s) ==> s.progress < Sum(cfg.totals)
  {
    hide Sum, InWindow, Stocked, FreshPayloads, Spent;
    SpentInTotal(cfg, s);
    SpentWithinTotals(cfg, s);
    if c: nat :| CutShort(cfg, s, c) {
      SpentPerClient(cfg, s, c);
    }
  }

  /** The barrier holds no client back. */
  ghost predicate NoneHeld(cfg: Config, s: State) {
    forall c: nat | c < |cfg.totals| :: Asking(s.held, c) == 0
  }

  /** At rest the bar is full exactly when no failure was hopeless and no request is held back. */
  lemma RestingProgress(cfg: Config, s: State)
    requires Safe(cfg, s) && AtRest(s)
    ensures s.progress == Sum(cfg.totals) <==>
            !Hopeless(cfg, s) && NoneHeld(cfg, s)
  {
    hide Sum, InWindow, Stocked, FreshPayloads, Spent;
    SpentInTotal(cfg, s);
    SpentWithinTotals(cfg, s);
    ProgressBounded(cfg, s);
    var n := |cfg.totals|;
    if !Hopeless(cfg, s) && NoneHeld(cfg, s) {
      forall c: nat | c < n ensures Spent(cfg, s)[c] == cfg.totals[c] {
        assert !CutShort(cfg, s, c);
        RestingSpent(cfg, s, c);
      }
      assert Sum(Spent(cfg, s)) == Sum(cfg.totals);
      assert s.progress == Sum(cfg.totals);
    }
    if s.progress == Sum(cfg.totals) {
      assert Sum(Spent(cfg, s)) == Sum(cfg.totals);
      forall c: nat | c < n ensures Asking(s.held, c) == 0 {
        RestingSpent(cfg, s, c);
      }
      assert !Hopeless(cfg, s);
    }
  }

  lemma RestingSpent(cfg: Config, s: State, c: nat)
    requires Placed(cfg, s) && AtRest(s) && c < |cfg.totals|
    ensures Spent(cfg, s)[c] == cfg.totals[c] <==> !CutShort(cfg, s, c) && Asking(s.held, c) == 0
  {
    assert PlacedClient(cfg, s, c);
    OpenSplits(s, c);
    NothingActive(s, c);
    SpentPerClient(cfg, s, c);
    assert Received(s, c) == 0;
  }

  lemma StepKeepsHopeless(cfg: Config, s: State, a: Action)
    requires Safe(cfg, s) && Hopeless(cfg, s) && Enabled(cfg, s, a)
    requires !s.sender.SenderDone? && !s.handler.HandlerDone?
    ensures var t := Do(cfg, s, a); Hopeless(cfg, t) && !t.sender.SenderDone? && !t.handler.HandlerDone?
  {
    hide Sum, Counted, InWindow, Stocked, FreshPayloads, ClientsPerRound;
    ProgressBounded(cfg, s);
    var t := Do(cfg, s, a);
    if s.uncounted == 0 {
      var c: nat :| CutShort(cfg, s, c);
      assert PlacedClient(cfg, s, c);
      if a.Absorb? {
        AbsorbMoves(cfg, s, c);
      }
      assert CutShort(cfg, t, c);
    }
  }

  /** After a failed response with rounds left for its client, or one the bar did not count, neither
      loop ever ends. */
  lemma {:induction false} LoopsNeverEnd(cfg: Config, s: State, run: seq<Action>)
    requires Safe(cfg, s) && Hopeless(cfg, s) && Possible(cfg, s, run)
    requires !s.sender.SenderDone? && !s.handler.HandlerDone?
    ensures var t := Exec(cfg, s, run); !t.sender.SenderDone? && !t.handler.HandlerDone?
    decreases |run|
  {
    hide Safe, Hopeless, Enabled, Do;
    if run != [] {
      StepKeepsSafe(cfg, s, run[0]);
      StepKeepsHopeless(cfg, s, run[0]);
      LoopsNeverEnd(cfg, Do(cfg, s, run[0]), run[1..]);
    }
  }

  // ----- The handler's exit -------------------------------------------------------------------

  /** A handler that leaves on a full bar has absorbed everything exactly when no response is left. */
  lemma ExitIsCompleteIff(cfg: Config, s: State)
    requires Safe(cfg, s) && s.progress == Sum(cfg.totals)
    ensures s.completed == Sum(cfg.totals) <==> s.finishing.None? && s.responses == []
  {
    hide Sum, Placed, InWindow, Stocked, FreshPayloads;
    ProgressBounded(cfg, s);
    assert s.uncounted == 0;
  }

  function OneClient(barrier: bool): Config {
    Config([1], 1, 1, barrier, true, [[]], [[]])
  }

  const OnlyRequest := Request(0, [])

  /** Sent, and the handler has timed out on an empty queue. */
  function Waited(): State {
    State(1, 0, 0, [], [OnlyRequest], None, [], [Record(0, [])], [[]], [], 0, 0, Idle, TimedOut, {}, 0)
  }

  lemma OneClientStart(barrier: bool)
    ensures ValidConfig(OneClient(barrier)) && Sum(OneClient(barrier).totals) == 1
    ensures Start(OneClient(barrier)) == Waited().(sent := 0, ready := [OnlyRequest], inFlight := [], handler := Waiting)
  {
    var cfg := OneClient(barrier);
    assert FollowUps(cfg.totals) == [0];
    assert [0][..0] == [] && Sum([0]) == 0;
    assert cfg.totals[..0] == [] && Sum(cfg.totals) == 1;
    assert Start(cfg).ready == [OnlyRequest];
    assert Start(cfg).records == [Record(0, [])];
  }

  lemma RunCons(cfg: Config, s: State, a: Action, t: State, run: seq<Action>)
    requires Enabled(cfg, s, a) && Do(cfg, s, a) == t && Possible(cfg, t, run)
    ensures Possible(cfg, s, [a] + run) && Exec(cfg, s, [a] + run) == Exec(cfg, t, run)
  {
    hide Enabled, Do;
    assert ([a] + run)[1..] == run;
  }

  /** From there the response arrives, and the handler leaves on the full bar. */
  lemma LeavesResponse(cfg: Config)
    requires Sum(cfg.totals) == 1
    ensures var run := [Complete(0, true, []), Put, Exit];
            && Possible(cfg, Waited(), run)
            && var s := Exec(cfg, Waited(), run);
               s.handler.HandlerDone? && |s.responses| == 1 && s.completed == 0
  {
    hide Sum;
    var s5 := Waited();
    var r := Response(0, true, []);
    var s6 := s5.(inFlight := [], progress := 1, finishing := Some(r));
    var s7 := s6.(finishing := None, responses := [r]);
    var s8 := s7.(handler := HandlerDone);
    assert Without([OnlyRequest], 0) == [];
    RunCons(cfg, s7, Exit, s8, []);
    RunCons(cfg, s6, Put, s7, [Exit]);
    RunCons(cfg, s5, Complete(0, true, []), s6, [Put, Exit]);
    assert [Complete(0, true, []), Put, Exit] == [Complete(0, true, [])] + ([Put] + ([Exit] + []));
  }

  /** It can leave too early: the queue was empty when it timed out, and the last response arrived
      before it read the bar. */
  lemma ExitCanLoseResponse(barrier: bool)
    ensures ValidConfig(OneClient(barrier))
    ensures var cfg := OneClient(barrier);
            var run := [Check, Pop(0), Launch, Leave, TimeOut, Complete(0, true, []), Put, Exit];
            && Possible(cfg, Start(cfg), run)
            && var s := Exec(cfg, Start(cfg), run);
               s.handler.HandlerDone? && |s.responses| == 1 && s.completed == 0
  {
    hide Sum, Start, ValidConfig;
    var cfg := OneClient(barrier);
    OneClientStart(barrier);
    LeavesResponse(cfg);
    var rest := [Complete(0, true, []), Put, Exit];
    SendsAndWaits(cfg, Start(cfg), rest);
    hide Possible, Exec;
    assert [Check, Pop(0), Launch, Leave, TimeOut, Complete(0, true, []), Put, Exit]
        == [Check] + ([Pop(0)] + ([Launch] + ([Leave] + ([TimeOut] + rest))));
  }

  lemma SendsAndWaits(cfg: Config, s0: State, rest: seq<Action>)
    requires Sum(cfg.totals) == 1 && cfg.maxParallel == 1 && Possible(cfg, Waited(), rest)
    requires s0 == Waited().(sent := 0, ready := [OnlyRequest], inFlight := [], handler := Waiting)
    ensures var run := [Check] + ([Pop(0)] + ([Launch] + ([Leave] + ([TimeOut] + rest))));
            Possible(cfg, s0, run) && Exec(cfg, s0, run) == Exec(cfg, Waited(), rest)
  {
    hide Sum, Possible, Exec;
    var s1 := s0.(sender := Checked);
    var s2 := s0.(sender := Popped(OnlyRequest), ready := []);
    var s3 := Waited().(sender := Leaving, handler := Waiting);
    var s4 := Waited().(handler := Waiting);
    assert Without([OnlyRequest], 0) == [];
    RunCons(cfg, s4, TimeOut, Waited(), rest);
    RunCons(cfg, s3, Leave, s4, [TimeOut] + rest);
    RunCons(cfg, s2, Launch, s3, [Leave] + ([TimeOut] + rest));
    RunCons(cfg, s1, Pop(0), s2, [Launch] + ([Leave] + ([TimeOut] + rest)));
    RunCons(cfg, s0, Check, s1, [Pop(0)] + ([Launch] + ([Leave] + ([TimeOut] + rest))));
  }
}
