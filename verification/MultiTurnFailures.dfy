/** What one failed response does to a multi-turn run, shown on a run that every setup allows, and when
    the handler leaves without the last response (benchmark/hicache/bench_multiturn.py). */
module MultiTurnFailures {
  import opened Common
  import opened Rounds
  import opened MultiTurn
  import opened MultiTurnSafety
  import opened MultiTurnBarrier
  import opened MultiTurnProgress

  // ----- The first request fails ------------------------------------------------------------

  /** Send the first request and let it fail. */
  function FirstFails(): seq<Action> {
    [Check] + ([Pop(0)] + ([Launch] + ([Leave] + ([Complete(0, false, [])] + ([Put] + ([Absorb] + []))))))
  }

  /** The first request is on its way. */
  function Launched(cfg: Config): State
    requires |cfg.prompts| == |cfg.totals| > 0
  {
    var s := Start(cfg);
    s.(sent := 1, ready := Without(s.ready, 0), inFlight := [s.ready[0]])
  }

  function Failed(cfg: Config): State
    requires |cfg.prompts| == |cfg.totals| > 0
  {
    Launched(cfg).(completed := 1, progress := 1, inFlight := [], failed := {0})
  }

  lemma SomethingToDo(cfg: Config)
    requires ValidConfig(cfg) && cfg.totals != []
    ensures Sum(cfg.totals) >= 1 && |cfg.prompts| == |cfg.totals|
  {
    SumAtLeast(cfg.totals, 0);
  }

  lemma FailureArrives(cfg: Config)
    requires |cfg.prompts| == |cfg.totals| > 0
    ensures var run := [Complete(0, false, [])] + ([Put] + ([Absorb] + []));
            Possible(cfg, Launched(cfg), run) && Exec(cfg, Launched(cfg), run) == Failed(cfg)
  {
    hide Sum;
    var s4 := Launched(cfg);
    var r := Response(0, false, []);
    var s5 := s4.(inFlight := [], progress := 1, finishing := Some(r));
    var s6 := s5.(finishing := None, responses := [r]);
    assert Without(s4.inFlight, 0) == [] && [r][1..] == [];
    RunCons(cfg, s6, Absorb, Failed(cfg), []);
    RunCons(cfg, s5, Put, s6, [Absorb] + []);
    RunCons(cfg, s4, Complete(0, false, []), s5, [Put] + ([Absorb] + []));
  }

  /** Whatever the setup, the first request can be sent and can fail. */
  lemma FirstRequestCanFail(cfg: Config)
    requires ValidConfig(cfg) && cfg.totals != [] && cfg.maxParallel > 0
    ensures |cfg.prompts| == |cfg.totals| && Possible(cfg, Start(cfg), FirstFails())
    ensures Exec(cfg, Start(cfg), FirstFails()) == Failed(cfg)
  {
    SomethingToDo(cfg);
    FailureArrives(cfg);
    hide Sum, ValidConfig, Failed;
    var rest := [Complete(0, false, [])] + ([Put] + ([Absorb] + []));
    var s0, s4 := Start(cfg), Launched(cfg);
    var s1 := s0.(sender := Checked);
    var s2 := s0.(sender := Popped(s0.ready[0]), ready := Without(s0.ready, 0));
    var s3 := s4.(sender := Leaving);
    RunCons(cfg, s3, Leave, s4, rest);
    RunCons(cfg, s2, Launch, s3, [Leave] + rest);
    RunCons(cfg, s1, Pop(0), s2, [Launch] + ([Leave] + rest));
    RunCons(cfg, s0, Check, s1, [Pop(0)] + ([Launch] + ([Leave] + rest)));
  }

  // ----- Its consequences ---------------------------------------------------------------------

  lemma FailedIsReached(cfg: Config)
    requires ValidConfig(cfg) && cfg.totals != [] && cfg.maxParallel > 0
    ensures |cfg.prompts| == |cfg.totals| && Safe(cfg, Failed(cfg)) && Gate(cfg, Failed(cfg))
  {
    FirstRequestCanFail(cfg);
    hide Safe, Gate, LeftOnlyWhenFull, Possible, Exec, Failed, FirstFails, Start;
    StartKeepsEverything(cfg);
    RunKeepsEverything(cfg, Start(cfg), FirstFails());
  }

  /** With the barrier on, every setup has a run after which the first round never ends, whatever follows. */
  lemma BarrierCanFreeze(cfg: Config, more: seq<Action>)
    requires ValidConfig(cfg) && cfg.totals != [] && cfg.maxParallel > 0 && cfg.barrier
    ensures |cfg.prompts| == |cfg.totals| && Possible(cfg, Start(cfg), FirstFails())
    ensures var s := Exec(cfg, Start(cfg), FirstFails());
            Possible(cfg, s, more) ==>
              var t := Exec(cfg, s, more); t.barrierRound == 0 && !t.handler.Releasing? && 0 in t.failed
  {
    FirstRequestCanFail(cfg);
    FailedIsReached(cfg);
    var s := Failed(cfg);
    assert s.failed == {0} && s.barrierRound == 0;
    assert Gated(cfg, s);
    hide Safe, Gated, Gate, ValidConfig, Possible, Exec, Failed, FirstFails, Start;
    if Possible(cfg, s, more) {
      FailureFreezesBarrier(cfg, s, more);
    }
  }

  /** Every setup whose first client has two or more rounds has a run after which neither loop ends, whatever
      follows. */
  lemma LoopsCanHang(cfg: Config, more: seq<Action>)
    requires ValidConfig(cfg) && cfg.totals != [] && cfg.maxParallel > 0 && cfg.totals[0] >= 2
    ensures |cfg.prompts| == |cfg.totals| && Possible(cfg, Start(cfg), FirstFails())
    ensures var s := Exec(cfg, Start(cfg), FirstFails());
            Possible(cfg, s, more) ==>
              var t := Exec(cfg, s, more); !t.sender.SenderDone? && !t.handler.HandlerDone?
  {
    FirstRequestCanFail(cfg);
    FailedIsReached(cfg);
    var s := Failed(cfg);
    assert CutShort(cfg, s, 0);
    assert s.sender.Idle? && s.handler.Waiting?;
    assert Hopeless(cfg, s);
    hide Safe, Hopeless, Gate, ValidConfig, Possible, Exec, Failed, FirstFails, Start;
    if Possible(cfg, s, more) {
      LoopsNeverEnd(cfg, s, more);
    }
  }

  /** Two clients of two rounds each, behind a barrier. */
  function TwoByTwo(): Config {
    Config([2, 2], 2, 1, true, true, [[1], [2]], [[3], [4]])
  }

  /** Such a setup: after the failed first request the barrier never opens and neither loop ends. */
  lemma TwoByTwoHangs(more: seq<Action>)
    ensures ValidConfig(TwoByTwo()) && Possible(TwoByTwo(), Start(TwoByTwo()), FirstFails())
    ensures var cfg := TwoByTwo();
            var s := Exec(cfg, Start(cfg), FirstFails());
            Possible(cfg, s, more) ==>
              var t := Exec(cfg, s, more);
              t.barrierRound == 0 && !t.sender.SenderDone? && !t.handler.HandlerDone?
  {
    var cfg := TwoByTwo();
    assert FollowUps(cfg.totals) == [1, 1];
    assert [1, 1][..1] == [1] && [1][..0] == [] && Sum([1]) == 1 && Sum([1, 1]) == 2;
    assert ValidConfig(cfg);
    hide ValidConfig, Possible, Exec, FirstFails, Start;
    BarrierCanFreeze(cfg, more);
    LoopsCanHang(cfg, more);
  }

  // ----- The handler's exit ------------------------------------------------------------------------

  /** How many requests the run brings to an answer. */
  function Answered(run: seq<Action>): nat {
    if run == [] then 0
    else (if run[0].Complete? || run[0].Break? then 1 else 0) + Answered(run[1..])
  }

  /** Between the handler's time-out and its look at the bar, answers only pile up. */
  lemma {:induction false} WhileTimedOut(cfg: Config, s: State, run: seq<Action>)
    requires s.handler.TimedOut? && Possible(cfg, s, run) && forall i | 0 <= i < |run| :: !run[i].Exit?
    ensures var t := Exec(cfg, s, run);
            && t.handler.TimedOut? && t.completed == s.completed
            && Finishing(t) + |t.responses| == Finishing(s) + |s.responses| + Answered(run)
    decreases |run|
  {
    hide Sum;
    if run != [] {
      assert !run[0].Exit?;
      WhileTimedOut(cfg, Do(cfg, s, run[0]), run[1..]);
    }
  }

  /** A handler that times out in `s` and leaves on a full bar after `run` has lost a response exactly when a
      request was answered in between, or was being answered when it timed out. */
  lemma LastResponseLostIff(cfg: Config, s: State, run: seq<Action>)
    requires Safe(cfg, s) && Enabled(cfg, s, TimeOut) && Possible(cfg, Do(cfg, s, TimeOut), run)
    requires forall i | 0 <= i < |run| :: !run[i].Exit?
    requires Exec(cfg, Do(cfg, s, TimeOut), run).progress == Sum(cfg.totals)
    ensures var t := Exec(cfg, Do(cfg, s, TimeOut), run);
            && Enabled(cfg, t, Exit) && Do(cfg, t, Exit).handler.HandlerDone?
            && (t.completed < Sum(cfg.totals) <==> s.finishing.Some? || Answered(run) > 0)
  {
    hide Sum, Safe, Possible, Exec, Answered;
    var s1 := Do(cfg, s, TimeOut);
    var t := Exec(cfg, s1, run);
    StepKeepsSafe(cfg, s, TimeOut);
    RunIsSafe(cfg, s1, run);
    WhileTimedOut(cfg, s1, run);
    ExitIsCompleteIff(cfg, t);
    CompletedBounded(cfg, t);
  }

  lemma CompletedBounded(cfg: Config, s: State)
    requires Safe(cfg, s) && s.progress == Sum(cfg.totals)
    ensures s.completed <= Sum(cfg.totals)
  {
    hide Sum, Placed, InWindow, Stocked, FreshPayloads;
    ProgressBounded(cfg, s);
  }
}
