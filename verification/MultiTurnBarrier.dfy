/** The round barrier of the multi-turn protocol (benchmark/hicache/bench_multiturn.py), over every
    interleaving and with any number of failed responses. */
module MultiTurnBarrier {
  import opened Common
  import opened Rounds
  import opened MultiTurn

  import opened MultiTurnSafety

  /** Requests of client `c` outside the held-back list. */
  function Active(s: State, c: nat): nat {
    Asking(s.ready, c) + (if s.sender.Popped? then One(s.sender.req.client, c) else 0)
    + Asking(s.inFlight, c) + (if s.finishing.Some? then One(s.finishing.value.client, c) else 0)
    + Answering(s.responses, c)
  }

  function ActiveTotal(s: State): nat {
    |s.ready| + (if s.sender.Popped? then 1 else 0) + Outstanding(s)
  }

  function Serving(s: State): nat { if s.handler.Absorbed? then 1 else 0 }

  /** The round whose requests are being sent: the next one once the release has begun. */
  function SendingRound(s: State): nat {
    if s.handler.Releasing? then s.barrierRound + 1 else s.barrierRound
  }

  /** Where client `c` can be while the barrier stands at its round. */
  ghost predicate InStep(cfg: Config, s: State, c: nat)
    requires c < |cfg.totals| == |s.records|
  {
    var total, round, b := cfg.totals[c], s.records[c].round, s.barrierRound;
    && (total <= b ==> round == total)
    && (total > b ==> b <= round <= b + 1)
    && (total > b && s.handler.Releasing? ==> round == b + 1)
    && (Active(s, c) > 0 ==> round == SendingRound(s))
    && (Asking(s.held, c) > 0 ==> round == b + 1)
    && (c in s.failed ==> total > b && round == b)
    && (s.handler == Absorbed(c) ==> round == b + 1)
  }

  /** Clients that have passed the barrier round and have a next one. */
  ghost function Continuing(cfg: Config, s: State): set<nat>
    requires |cfg.totals| == |s.records|
  {
    set c: nat | c < |cfg.totals| && cfg.totals[c] > s.barrierRound + 1 && s.records[c].round == s.barrierRound + 1
  }

  /** Clients of the round are done, outstanding or failed; the held-back requests are those of the
      clients that continue. */
  ghost predicate Tallied(cfg: Config, s: State)
    requires |cfg.totals| == |s.records|
  {
    var b := s.barrierRound;
    if s.handler.Releasing? then
      && s.barrierDone == ClientsInRound(cfg.totals, b)
      && ActiveTotal(s) + |s.held| == ClientsInRound(cfg.totals, b + 1)
      && s.failed == {}
    else
      && s.barrierDone + Serving(s) + ActiveTotal(s) + |s.failed| == ClientsInRound(cfg.totals, b)
      && (s.barrierDone < ClientsInRound(cfg.totals, b) || ClientsInRound(cfg.totals, b) == 0)
      && |s.held| + (if AboutToAsk(cfg, s) then 1 else 0) == |Continuing(cfg, s)|
  }

  ghost predicate Gated(cfg: Config, s: State) {
    && |cfg.totals| == |s.records|
    && (forall c: nat | c < |cfg.totals| :: InStep(cfg, s, c))
    && Tallied(cfg, s)
  }

  // ----- Steps of the sender and the network ---------------------------------------------

  predicate Elsewhere(a: Action) {
    !a.Absorb? && !a.FollowUp? && !a.ReleaseOne? && !a.ReleaseEnd?
  }

  lemma ElsewhereActive(cfg: Config, s: State, a: Action, c: nat)
    requires Enabled(cfg, s, a) && Elsewhere(a)
    ensures Active(Do(cfg, s, a), c) == Active(s, c) && Do(cfg, s, a).held == s.held
    ensures ActiveTotal(Do(cfg, s, a)) == ActiveTotal(s)
  {
    hide Sum;
    OthersMove(cfg, s, a, c);
  }

  lemma ElsewhereKeepsGated(cfg: Config, s: State, a: Action)
    requires Gated(cfg, s) && Enabled(cfg, s, a) && Elsewhere(a)
    ensures Gated(cfg, Do(cfg, s, a))
  {
    hide Sum, Active, ActiveTotal, ClientsInRound, Asking;
    var t := Do(cfg, s, a);
    forall c: nat | c < |cfg.totals| ensures InStep(cfg, t, c) {
      assert InStep(cfg, s, c);
      ElsewhereActive(cfg, s, a, c);
    }
    ElsewhereActive(cfg, s, a, 0);
    assert Continuing(cfg, t) == Continuing(cfg, s);
  }

  // ----- Absorbing a response ------------------------------------------------------------

  lemma AbsorbActive(cfg: Config, s: State, c: nat)
    requires Enabled(cfg, s, Absorb)
    ensures Active(s, c) == Active(Do(cfg, s, Absorb), c) + One(s.responses[0].client, c)
    ensures ActiveTotal(s) == ActiveTotal(Do(cfg, s, Absorb)) + 1
    ensures Do(cfg, s, Absorb).held == s.held
  {
    AnsweringTail(s.responses, c);
  }

  lemma AbsorbKeepsInStep(cfg: Config, s: State, c: nat)
    requires Placed(cfg, s) && Gated(cfg, s) && Enabled(cfg, s, Absorb) && c < |cfg.totals|
    ensures InStep(cfg, Do(cfg, s, Absorb), c)
  {
    hide Active, ActiveTotal, ClientsInRound, Asking, Tallied, Continuing;
    var b := s.responses[0].client;
    assert InStep(cfg, s, c) && InStep(cfg, s, b);
    assert PlacedClient(cfg, s, c);
    AbsorbActive(cfg, s, c);
    AbsorbActive(cfg, s, b);
    OpenSplits(s, c);
  }

  lemma OpenSplits(s: State, c: nat)
    ensures Open(s, c) == Active(s, c) + Asking(s.held, c)
  {
  }

  lemma AbsorbKeepsTallied(cfg: Config, s: State)
    requires Placed(cfg, s) && Gated(cfg, s) && Enabled(cfg, s, Absorb)
    ensures |cfg.totals| == |Do(cfg, s, Absorb).records| && Tallied(cfg, Do(cfg, s, Absorb))
  {
    hide Active, ActiveTotal, ClientsInRound, Asking;
    var t, c := Do(cfg, s, Absorb), s.responses[0].client;
    assert InStep(cfg, s, c);
    assert PlacedClient(cfg, s, c);
    AbsorbActive(cfg, s, c);
    OpenSplits(s, c);
    if s.responses[0].ok {
      if cfg.totals[c] > s.barrierRound + 1 {
        assert Continuing(cfg, t) == Continuing(cfg, s) + {c};
        assert c !in Continuing(cfg, s);
      } else {
        assert Continuing(cfg, t) == Continuing(cfg, s);
      }
    } else {
      assert Continuing(cfg, t) == Continuing(cfg, s);
      assert c !in s.failed;
    }
  }

  // ----- Follow-ups and the release --------------------------------------------------------

  /** The state after the follow-up question, before the barrier is counted. */
  function Asked(cfg: Config, s: State): State
    requires s.handler.Absorbed? && s.handler.client < |s.records| && s.handler.client < |cfg.totals|
  {
    var c := s.handler.client;
    if s.records[c].round < cfg.totals[c] && s.pool != [] then AskAgain(cfg, s, c) else s
  }

  /** The barrier round has a client, so the counting guard is on. */
  lemma RoundInRange(cfg: Config, b: nat)
    requires ValidConfig(cfg) && ClientsInRound(cfg.totals, b) > 0
    ensures b < cfg.maxRounds
  {
    ParticipantsCounted(cfg.totals, b);
    var c :| c in Participants(cfg.totals, b);
  }

  lemma AskedHeld(cfg: Config, s: State, c: nat)
    requires cfg.barrier && Enabled(cfg, s, FollowUp)
    ensures Active(Asked(cfg, s), c) == Active(s, c) && ActiveTotal(Asked(cfg, s)) == ActiveTotal(s)
    ensures var b := s.handler.client;
            var more := if s.records[b].round < cfg.totals[b] && s.pool != [] then 1 else 0;
            && |Asked(cfg, s).held| == |s.held| + more
            && Asking(Asked(cfg, s).held, c) == Asking(s.held, c) + more * One(b, c)
  {
    var b := s.handler.client;
    if s.records[b].round < cfg.totals[b] && s.pool != [] {
      AskingAppend(s.held, Request(b, s.records[b].history + s.pool[|s.pool| - 1]), c);
    }
  }

  /** What counting the follow-up does to the handler. */
  lemma FollowUpCounts(cfg: Config, s: State)
    requires ValidConfig(cfg) && cfg.barrier && Safe(cfg, s) && Gated(cfg, s) && Enabled(cfg, s, FollowUp)
    ensures var t := Do(cfg, s, FollowUp);
            t == Asked(cfg, s).(barrierDone := s.barrierDone + 1,
                                handler := if s.barrierDone + 1 == ClientsInRound(cfg.totals, s.barrierRound)
                                           then Releasing else Waiting)
  {
    hide Sum, ActiveTotal, ClientsInRound;
    assert Tallied(cfg, s);
    RoundInRange(cfg, s.barrierRound);
    if s.records[s.handler.client].round < cfg.totals[s.handler.client] {
      PoolNotEmpty(cfg, s);
    }
  }

  /** Once nothing is active and nobody failed, every client of the round has passed it. */
  lemma AllPassed(cfg: Config, s: State, c: nat)
    requires Placed(cfg, s) && Gated(cfg, s) && s.handler.Absorbed? && ActiveTotal(s) == 0 && s.failed == {}
    requires c < |cfg.totals| && cfg.totals[c] > s.barrierRound
    ensures s.records[c].round == s.barrierRound + 1
  {
    assert InStep(cfg, s, c);
    assert PlacedClient(cfg, s, c);
    OpenSplits(s, c);
    assert Active(s, c) == 0;
  }

  lemma FollowUpKeepsInStep(cfg: Config, s: State, c: nat)
    requires ValidConfig(cfg) && cfg.barrier && Safe(cfg, s) && Gated(cfg, s) && Enabled(cfg, s, FollowUp)
    requires c < |cfg.totals|
    ensures |Do(cfg, s, FollowUp).records| == |cfg.totals| && InStep(cfg, Do(cfg, s, FollowUp), c)
  {
    FollowUpCounts(cfg, s);
    AskedHeld(cfg, s, c);
    assert InStep(cfg, s, c) && Tallied(cfg, s) && Placed(cfg, s);
    var t := Do(cfg, s, FollowUp);
    if t.handler.Releasing? {
      assert ActiveTotal(s) == 0 && |s.failed| == 0;
      assert s.failed == {};
      if cfg.totals[c] > s.barrierRound {
        AllPassed(cfg, s, c);
      }
    }
    FollowUpShape(cfg, s, c);
    hide *;
    InStepTransfers(cfg, s, t, c);
  }

  lemma FollowUpShape(cfg: Config, s: State, c: nat)
    requires Enabled(cfg, s, FollowUp) && c < |s.records|
    ensures var t := Asked(cfg, s); |t.records| == |s.records| && t.records[c].round == s.records[c].round
  {
  }

  lemma InStepTransfers(cfg: Config, s: State, t: State, c: nat)
    requires c < |cfg.totals| == |s.records| == |t.records| && InStep(cfg, s, c) && s.handler.Absorbed?
    requires t.records[c].round == s.records[c].round && t.barrierRound == s.barrierRound && t.failed == s.failed
    requires t.handler.Waiting? || t.handler.Releasing?
    requires Active(t, c) == Active(s, c)
    requires Asking(t.held, c) > Asking(s.held, c) ==> s.handler == Absorbed(c)
    requires t.handler.Releasing? ==> Active(s, c) == 0 && s.failed == {}
    requires t.handler.Releasing? && cfg.totals[c] > s.barrierRound ==> s.records[c].round == s.barrierRound + 1
    ensures InStep(cfg, t, c)
  {
  }

  lemma FollowUpContinuing(cfg: Config, s: State)
    requires |cfg.totals| == |s.records| && Enabled(cfg, s, FollowUp)
    ensures Continuing(cfg, Asked(cfg, s)) == Continuing(cfg, s)
  {
  }

  lemma FollowUpKeepsTallied(cfg: Config, s: State)
    requires ValidConfig(cfg) && cfg.barrier && Safe(cfg, s) && Gated(cfg, s) && Enabled(cfg, s, FollowUp)
    ensures |Do(cfg, s, FollowUp).records| == |cfg.totals| && Tallied(cfg, Do(cfg, s, FollowUp))
  {
    hide Sum, ClientsInRound, Active, Placed, Counted, InWindow, FreshPayloads, InStep, Asking;
    assert Tallied(cfg, s) && Placed(cfg, s);
    FollowUpCounts(cfg, s);
    AskedHeld(cfg, s, 0);
    FollowUpContinuing(cfg, s);
    var t, b := Do(cfg, s, FollowUp), s.barrierRound;
    if AboutToAsk(cfg, s) {
      PoolNotEmpty(cfg, s);
    }
    if t.handler.Releasing? {
      assert |s.failed| == 0;
      forall c: nat | c < |cfg.totals| && cfg.totals[c] > b ensures s.records[c].round == b + 1 {
        AllPassed(cfg, s, c);
      }
      assert Continuing(cfg, s) == Participants(cfg.totals, b + 1);
      ParticipantsCounted(cfg.totals, b + 1);
    }
  }

  lemma ReleaseOneKeepsGated(cfg: Config, s: State)
    requires Gated(cfg, s) && Enabled(cfg, s, ReleaseOne)
    ensures Gated(cfg, Do(cfg, s, ReleaseOne))
  {
    hide ClientsInRound, Answering;
    var t := Do(cfg, s, ReleaseOne);
    forall c: nat | c < |cfg.totals| ensures InStep(cfg, t, c) {
      assert InStep(cfg, s, c);
      AskingWithout(s.held, 0, c);
      assert Without(s.held, 0) == s.held[1..];
      AskingAppend(s.ready, s.held[0], c);
    }
  }

  lemma ReleaseEndKeepsGated(cfg: Config, s: State)
    requires Gated(cfg, s) && Enabled(cfg, s, ReleaseEnd)
    ensures Gated(cfg, Do(cfg, s, ReleaseEnd))
  {
    hide ClientsInRound, Active;
    var t := Do(cfg, s, ReleaseEnd);
    forall c: nat | c < |cfg.totals| ensures InStep(cfg, t, c) {
      assert InStep(cfg, s, c);
      SameActive(s, t, c);
    }
    forall c: nat | c < |cfg.totals| ensures c !in Continuing(cfg, t) {
      assert InStep(cfg, s, c);
    }
    assert Continuing(cfg, t) == {};
  }

  lemma SameActive(s: State, t: State, c: nat)
    requires t.ready == s.ready && t.sender == s.sender && t.inFlight == s.inFlight
    requires t.finishing == s.finishing && t.responses == s.responses
    ensures Active(t, c) == Active(s, c) && ActiveTotal(t) == ActiveTotal(s)
  {
  }

  lemma StepKeepsGated(cfg: Config, s: State, a: Action)
    requires ValidConfig(cfg) && cfg.barrier && Safe(cfg, s) && Gated(cfg, s) && Enabled(cfg, s, a)
    ensures Gated(cfg, Do(cfg, s, a))
  {
    hide Placed, Counted, InWindow, Stocked, FreshPayloads, Sum, ClientsPerRound, InStep, Tallied, Do;
    if a.Absorb? {
      AbsorbKeepsTallied(cfg, s);
      forall c: nat | c < |cfg.totals| ensures InStep(cfg, Do(cfg, s, a), c) {
        AbsorbKeepsInStep(cfg, s, c);
      }
    } else if a.FollowUp? {
      FollowUpKeepsTallied(cfg, s);
      forall c: nat | c < |cfg.totals| ensures InStep(cfg, Do(cfg, s, a), c) {
        FollowUpKeepsInStep(cfg, s, c);
      }
    } else if a.ReleaseOne? {
      ReleaseOneKeepsGated(cfg, s);
    } else if a.ReleaseEnd? {
      ReleaseEndKeepsGated(cfg, s);
    } else {
      ElsewhereKeepsGated(cfg, s, a);
    }
  }

  lemma StartIsGated(cfg: Config)
    requires ValidConfig(cfg)
    ensures Gated(cfg, Start(cfg))
  {
    var s := Start(cfg);
    forall c: nat | c < |cfg.totals| ensures InStep(cfg, s, c) {
      AskingEachOnce(s.ready, c);
    }
    ParticipantsCounted(cfg.totals, 0);
    Everyone(|cfg.totals|, Participants(cfg.totals, 0));
    assert Continuing(cfg, s) == {};
  }

  lemma {:induction false} Everyone(n: nat, all: set<nat>)
    requires forall c: nat :: c in all <==> c < n
    ensures |all| == n
  {
    if n > 0 {
      Everyone(n - 1, all - {n - 1});
    } else {
      assert all == {};
    }
  }

  lemma {:induction false} RunIsGated(cfg: Config, s: State, run: seq<Action>)
    requires ValidConfig(cfg) && cfg.barrier && Safe(cfg, s) && Gated(cfg, s) && Possible(cfg, s, run)
    ensures Safe(cfg, Exec(cfg, s, run)) && Gated(cfg, Exec(cfg, s, run))
    decreases |run|
  {
    hide Safe, Gated, Enabled, Do, ValidConfig;
    if run != [] {
      StepKeepsSafe(cfg, s, run[0]);
      StepKeepsGated(cfg, s, run[0]);
      RunIsGated(cfg, Do(cfg, s, run[0]), run[1..]);
    }
  }

  // ----- What the barrier guarantees ------------------------------------------------------------

  /** No request of a round is ready, on its way or answered before every client has completed all
      earlier rounds it takes part in. */
  lemma RoundsInOrder(cfg: Config, run: seq<Action>, c: nat, b: nat)
    requires ValidConfig(cfg) && cfg.barrier && Possible(cfg, Start(cfg), run)
    requires c < |cfg.totals| && b < |cfg.totals|
    ensures var s := Exec(cfg, Start(cfg), run);
            && |s.records| == |cfg.totals|
            && (Active(s, c) > 0 ==>
                  var r := s.records[c].round;
                  r == SendingRound(s)
                  && s.records[b].round >= if cfg.totals[b] < r then cfg.totals[b] else r)
  {
    StartIsSafe(cfg);
    StartIsGated(cfg);
    RunIsGated(cfg, Start(cfg), run);
    var s := Exec(cfg, Start(cfg), run);
    assert InStep(cfg, s, c) && InStep(cfg, s, b);
  }

  /** Completed in the round, being served, outstanding and failed add up to clients_per_round; and a
      release hands over exactly the clients of the next round. */
  lemma RoundsTally(cfg: Config, run: seq<Action>)
    requires ValidConfig(cfg) && cfg.barrier && Possible(cfg, Start(cfg), run)
    ensures var s := Exec(cfg, Start(cfg), run);
            if s.handler.Releasing? then
              && s.barrierDone == ClientsInRound(cfg.totals, s.barrierRound)
              && ActiveTotal(s) + |s.held| == ClientsInRound(cfg.totals, s.barrierRound + 1)
            else
              s.barrierDone + Serving(s) + ActiveTotal(s) + |s.failed|
              == ClientsInRound(cfg.totals, s.barrierRound)
  {
    StartIsSafe(cfg);
    StartIsGated(cfg);
    RunIsGated(cfg, Start(cfg), run);
  }

  /** When a release begins nothing is active, so the held-back list is the whole next round. */
  lemma ReleaseHandsOverNextRound(cfg: Config, s: State)
    requires ValidConfig(cfg) && cfg.barrier && Safe(cfg, s) && Gated(cfg, s) && Enabled(cfg, s, FollowUp)
    ensures var t := Do(cfg, s, FollowUp);
            t.handler.Releasing? ==>
              ActiveTotal(t) == 0 && |t.held| == ClientsInRound(cfg.totals, s.barrierRound + 1)
  {
    hide Active, ClientsInRound, InStep, Placed, Counted, InWindow, FreshPayloads, Asking;
    FollowUpCounts(cfg, s);
    AskedHeld(cfg, s, 0);
    FollowUpKeepsTallied(cfg, s);
    assert Tallied(cfg, s);
  }

  /** One failed response freezes the barrier: its round never ends, and no request of any later
      round is ever released. */
  lemma {:induction false} FailureFreezesBarrier(cfg: Config, s: State, run: seq<Action>)
    requires ValidConfig(cfg) && cfg.barrier && Safe(cfg, s) && Gated(cfg, s) && Possible(cfg, s, run)
    requires s.failed != {}
    ensures var t := Exec(cfg, s, run);
            t.barrierRound == s.barrierRound && !t.handler.Releasing? && t.failed >= s.failed
    decreases |run|
  {
    assert Tallied(cfg, s);
    if run != [] {
      FrozenStep(cfg, s, run[0]);
      hide Safe, Gated, Enabled, Do, ValidConfig;
      StepKeepsSafe(cfg, s, run[0]);
      StepKeepsGated(cfg, s, run[0]);
      FailureFreezesBarrier(cfg, Do(cfg, s, run[0]), run[1..]);
    }
  }

  lemma FrozenStep(cfg: Config, s: State, a: Action)
    requires !s.handler.Releasing? && Enabled(cfg, s, a)
    ensures Do(cfg, s, a).barrierRound == s.barrierRound && Do(cfg, s, a).failed >= s.failed
  {
    hide Sum, ClientsPerRound;
  }
}
