/** What every interleaving of the multi-turn protocol keeps, failed responses included
    (benchmark/hicache/bench_multiturn.py): the window of outstanding requests, at most one open
    request per client, payloads that stay equal to the shared history list, and a
    question pool that is never popped empty. */
module MultiTurnSafety {
  import opened Common
  import opened Rounds

  import opened MultiTurn

  // ----- Counters and the window ------------------------------------------------------

  function RoundsOf(s: State): seq<nat> {
    seq(|s.records|, c requires 0 <= c < |s.records| => s.records[c].round)
  }

  function Finishing(s: State): nat { if s.finishing.Some? then 1 else 0 }

  /** Requests sent and not yet counted as completed. */
  function Outstanding(s: State): nat { |s.inFlight| + Finishing(s) + |s.responses| }

  ghost predicate Counted(s: State) {
    && s.sent == s.completed + Outstanding(s)
    && s.progress + s.uncounted == s.completed + Finishing(s) + |s.responses|
    && s.completed == Sum(RoundsOf(s)) + |s.failed|
  }

  ghost predicate InWindow(cfg: Config, s: State) {
    && (s.sender.Checked? || s.sender.Popped? ==> s.sent - s.completed < cfg.maxParallel)
    && (s.sent > s.completed ==> s.sent - s.completed <= cfg.maxParallel)
  }

  lemma RoundsUpdated(s: State, t: State, c: nat)
    requires c < |s.records| == |t.records| && t.records == s.records[c := t.records[c]]
    ensures RoundsOf(t) == RoundsOf(s)[c := t.records[c].round]
  {
  }

  lemma AbsorbKeepsCounted(cfg: Config, s: State)
    requires Placed(cfg, s) && Counted(s) && Enabled(cfg, s, Absorb)
    ensures Counted(Do(cfg, s, Absorb))
  {
    hide Open, Sum;
    var t, c := Do(cfg, s, Absorb), s.responses[0].client;
    assert PlacedClient(cfg, s, c);
    AbsorbMoves(cfg, s, c);
    if s.responses[0].ok {
      RoundsUpdated(s, t, c);
      SumUpdate(RoundsOf(s), c, t.records[c].round);
    } else {
      assert t.records == s.records;
      assert c !in s.failed;
    }
  }

  lemma FollowUpKeepsCounted(cfg: Config, s: State)
    requires Counted(s) && Enabled(cfg, s, FollowUp)
    ensures Counted(Do(cfg, s, FollowUp))
  {
    hide Sum, ClientsPerRound;
    var t := Do(cfg, s, FollowUp);
    assert RoundsOf(t) == RoundsOf(s);
  }

  lemma StepKeepsCounted(cfg: Config, s: State, a: Action)
    requires Placed(cfg, s) && Counted(s) && Enabled(cfg, s, a)
    ensures Counted(Do(cfg, s, a))
  {
    if a.Absorb? {
      AbsorbKeepsCounted(cfg, s);
    } else if a.FollowUp? {
      FollowUpKeepsCounted(cfg, s);
    } else {
      hide Sum, Placed;
      assert RoundsOf(Do(cfg, s, a)) == RoundsOf(s);
    }
  }

  lemma StepKeepsWindow(cfg: Config, s: State, a: Action)
    requires InWindow(cfg, s) && s.completed <= s.sent && Enabled(cfg, s, a)
    ensures InWindow(cfg, Do(cfg, s, a))
  {
    hide ClientsPerRound, Sum;
  }

  // ----- The question pool --------------------------------------------------------------

  /** Questions client `c` may still need. */
  function Owed(cfg: Config, s: State, c: nat): nat
    requires c < |cfg.totals| == |s.records|
  {
    var total, round := cfg.totals[c], s.records[c].round;
    if round > total then 0
    else if s.handler == Absorbed(c) then total - round
    else if round < total then total - 1 - round
    else 0
  }

  function OwedAll(cfg: Config, s: State): seq<nat>
    requires |cfg.totals| == |s.records|
  {
    seq(|cfg.totals|, c requires 0 <= c < |cfg.totals| => Owed(cfg, s, c))
  }

  /** The constructor samples at least one question even when none is needed. */
  function Spare(cfg: Config): nat { if Sum(FollowUps(cfg.totals)) == 0 then 1 else 0 }

  ghost predicate Stocked(cfg: Config, s: State)
    requires |cfg.totals| == |s.records|
  {
    |s.pool| == Spare(cfg) + Sum(OwedAll(cfg, s))
  }

  /** The handler's next step pops the pool. */
  predicate AboutToAsk(cfg: Config, s: State)
    requires |cfg.totals| == |s.records|
  {
    && s.handler.Absorbed? && s.handler.client < |cfg.totals|
    && s.records[s.handler.client].round < cfg.totals[s.handler.client]
  }

  lemma PoolNotEmpty(cfg: Config, s: State)
    requires Placed(cfg, s) && Stocked(cfg, s) && AboutToAsk(cfg, s)
    ensures s.pool != []
  {
    SumAtLeast(OwedAll(cfg, s), s.handler.client);
  }

  lemma FollowUpKeepsStocked(cfg: Config, s: State)
    requires Placed(cfg, s) && Stocked(cfg, s) && Enabled(cfg, s, FollowUp)
    ensures !Do(cfg, s, FollowUp).handler.Crashed?
    ensures Stocked(cfg, Do(cfg, s, FollowUp))
  {
    hide Sum, ClientsPerRound, Open;
    var t, c := Do(cfg, s, FollowUp), s.handler.client;
    assert PlacedClient(cfg, s, c);
    if s.records[c].round < cfg.totals[c] {
      PoolNotEmpty(cfg, s);
      var left := Owed(cfg, s, c) - 1;
      assert OwedAll(cfg, t) == OwedAll(cfg, s)[c := left];
      SumUpdate(OwedAll(cfg, s), c, left);
    } else {
      assert OwedAll(cfg, t) == OwedAll(cfg, s);
    }
  }

  lemma AbsorbKeepsStocked(cfg: Config, s: State)
    requires Placed(cfg, s) && Stocked(cfg, s) && Enabled(cfg, s, Absorb)
    ensures Stocked(cfg, Do(cfg, s, Absorb))
  {
    hide Sum, Open;
    var t, c := Do(cfg, s, Absorb), s.responses[0].client;
    assert PlacedClient(cfg, s, c);
    AbsorbMoves(cfg, s, c);
    assert OwedAll(cfg, t) == OwedAll(cfg, s);
  }

  lemma OthersKeepStocked(cfg: Config, s: State, a: Action)
    requires |cfg.totals| == |s.records| && Stocked(cfg, s) && Enabled(cfg, s, a) && !a.Absorb? && !a.FollowUp?
    ensures |cfg.totals| == |Do(cfg, s, a).records| && Stocked(cfg, Do(cfg, s, a))
  {
    hide Sum;
    assert OwedAll(cfg, Do(cfg, s, a)) == OwedAll(cfg, s);
  }

  // ----- Payloads --------------------------------------------------------------------------

  ghost predicate Fresh(s: State, q: Request) {
    q.client < |s.records| && q.payload == s.records[q.client].history
  }

  /** Every request that may still be read holds the history list as it is now. */
  ghost predicate FreshPayloads(s: State) {
    && (forall q | q in s.ready :: Fresh(s, q))
    && (forall q | q in s.inFlight :: Fresh(s, q))
    && (forall q | q in s.held :: Fresh(s, q))
    && (s.sender.Popped? ==> Fresh(s, s.sender.req))
  }

  lemma {:induction false} AskingMember(rs: seq<Request>, q: Request)
    requires q in rs
    ensures Asking(rs, q.client) >= 1
  {
    var n := |rs| - 1;
    if rs[n] != q {
      assert q in rs[..n];
      AskingMember(rs[..n], q);
    }
  }

  /** A client without a pending request has none in any queue. */
  lemma NoneAsking(s: State, c: nat)
    requires Pending(s, c) == 0
    ensures (forall q | q in s.ready :: q.client != c) && (forall q | q in s.inFlight :: q.client != c)
    ensures (forall q | q in s.held :: q.client != c) && (s.sender.Popped? ==> s.sender.req.client != c)
  {
    forall q | q in s.ready ensures q.client != c { AskingMember(s.ready, q); }
    forall q | q in s.inFlight ensures q.client != c { AskingMember(s.inFlight, q); }
    forall q | q in s.held ensures q.client != c { AskingMember(s.held, q); }
  }

  lemma AbsorbKeepsFresh(cfg: Config, s: State)
    requires Placed(cfg, s) && FreshPayloads(s) && Enabled(cfg, s, Absorb)
    ensures FreshPayloads(Do(cfg, s, Absorb))
  {
    var t, c := Do(cfg, s, Absorb), s.responses[0].client;
    assert PlacedClient(cfg, s, c);
    AbsorbMoves(cfg, s, c);
    NoneAsking(s, c);
  }

  lemma FollowUpKeepsFresh(cfg: Config, s: State)
    requires Placed(cfg, s) && FreshPayloads(s) && Enabled(cfg, s, FollowUp)
    ensures FreshPayloads(Do(cfg, s, FollowUp))
  {
    hide ClientsPerRound;
    var c := s.handler.client;
    assert PlacedClient(cfg, s, c);
    NoneAsking(s, c);
    if s.records[c].round < cfg.totals[c] && s.pool != [] {
      var t := AskAgain(cfg, s, c);
      assert FreshPayloads(t);
    }
  }

  lemma OthersKeepFresh(cfg: Config, s: State, a: Action)
    requires FreshPayloads(s) && Enabled(cfg, s, a) && !a.Absorb? && !a.FollowUp?
    ensures FreshPayloads(Do(cfg, s, a))
  {
    hide Sum;
    var t := Do(cfg, s, a);
    assert t.records == s.records;
    assert a.Pop? ==> s.ready[a.i] in s.ready;
    assert a.ReleaseOne? ==> s.held[0] in s.held;
    assert forall q | q in t.ready :: q in s.ready || (a.ReleaseOne? && q == s.held[0]);
    assert forall q | q in t.inFlight :: q in s.inFlight || (a.Launch? && q == s.sender.req);
    assert forall q | q in t.held :: q in s.held;
  }

  // ----- All runs ----------------------------------------------------------------------------

  ghost predicate Safe(cfg: Config, s: State) {
    && Placed(cfg, s)
    && Counted(s)
    && InWindow(cfg, s)
    && Stocked(cfg, s)
    && FreshPayloads(s)
    && !s.handler.Crashed?
  }

  lemma StepKeepsSafe(cfg: Config, s: State, a: Action)
    requires Safe(cfg, s) && Enabled(cfg, s, a)
    ensures Safe(cfg, Do(cfg, s, a))
  {
    hide Placed, Counted, InWindow, Stocked, FreshPayloads, Sum, ClientsPerRound;
    SafeShape(cfg, s);
    StepKeepsCounted(cfg, s, a);
    StepKeepsWindow(cfg, s, a);
    if a.Absorb? {
      AbsorbKeepsPlaced(cfg, s);
      AbsorbKeepsStocked(cfg, s);
      AbsorbKeepsFresh(cfg, s);
    } else if a.FollowUp? {
      if s.records[s.handler.client].round < cfg.totals[s.handler.client] {
        PoolNotEmpty(cfg, s);
      }
      FollowUpKeepsPlaced(cfg, s);
      FollowUpKeepsStocked(cfg, s);
      FollowUpKeepsFresh(cfg, s);
    } else {
      OthersKeepPlaced(cfg, s, a);
      OthersKeepStocked(cfg, s, a);
      OthersKeepFresh(cfg, s, a);
    }
  }

  lemma SafeShape(cfg: Config, s: State)
    requires Safe(cfg, s)
    ensures |cfg.totals| == |s.records| && s.completed <= s.sent
  {
  }

  lemma {:induction false} AskingEachOnce(rs: seq<Request>, c: nat)
    requires forall i | 0 <= i < |rs| :: rs[i].client == i
    ensures Asking(rs, c) == if c < |rs| then 1 else 0
  {
    if rs != [] {
      AskingEachOnce(rs[..|rs| - 1], c);
    }
  }

  lemma StartIsSafe(cfg: Config)
    requires ValidConfig(cfg)
    ensures Safe(cfg, Start(cfg))
  {
    var s := Start(cfg);
    forall c: nat ensures PlacedClient(cfg, s, c) {
      AskingEachOnce(s.ready, c);
    }
    SumZero(RoundsOf(s));
    assert OwedAll(cfg, s) == FollowUps(cfg.totals);
  }

  /** Every reachable state of every run is safe. */
  lemma {:induction false} RunIsSafe(cfg: Config, s: State, run: seq<Action>)
    requires Safe(cfg, s) && Possible(cfg, s, run)
    ensures Safe(cfg, Exec(cfg, s, run))
    decreases |run|
  {
    hide Safe, Enabled, Do;
    if run != [] {
      StepKeepsSafe(cfg, s, run[0]);
      RunIsSafe(cfg, Do(cfg, s, run[0]), run[1..]);
    }
  }

  // ----- What safety says ---------------------------------------------------------------------

  /** Sent minus completed is the number of outstanding requests and never exceeds the limit. */
  lemma WindowRespected(cfg: Config, run: seq<Action>)
    requires ValidConfig(cfg) && Possible(cfg, Start(cfg), run)
    ensures var s := Exec(cfg, Start(cfg), run);
            && s.sent - s.completed == |s.inFlight| + Finishing(s) + |s.responses|
            && s.sent - s.completed <= if cfg.maxParallel < 0 then 0 else cfg.maxParallel
  {
    StartIsSafe(cfg);
    RunIsSafe(cfg, Start(cfg), run);
  }

  /** No client ever has two open requests, and while one is pending, wherever it is, its payload
      equals the history list it shares. */
  lemma OneOpenRequest(cfg: Config, run: seq<Action>, c: nat)
    requires ValidConfig(cfg) && Possible(cfg, Start(cfg), run)
    ensures var s := Exec(cfg, Start(cfg), run);
            && Open(s, c) <= 1
            && FreshPayloads(s)
  {
    StartIsSafe(cfg);
    RunIsSafe(cfg, Start(cfg), run);
    assert PlacedClient(cfg, Exec(cfg, Start(cfg), run), c);
  }

  /** A step changes a client's history only while that client has no pending request: the list
      passed by reference is never written under a request that may be reading it. */
  lemma HistoryNotWrittenWhilePending(cfg: Config, s: State, a: Action, c: nat)
    requires Safe(cfg, s) && Enabled(cfg, s, a) && c < |s.records|
    ensures |Do(cfg, s, a).records| == |s.records|
    ensures Do(cfg, s, a).records[c].history != s.records[c].history ==> Pending(s, c) == 0
  {
    hide Counted, InWindow, Stocked, FreshPayloads, ClientsPerRound, Sum, Asking;
    assert PlacedClient(cfg, s, c);
    if a.Absorb? {
      AbsorbMoves(cfg, s, c);
    }
  }

  /** The handler never pops an empty pool, and what has been popped is what the clients' rounds
      account for. */
  lemma PoolNeverExhausted(cfg: Config, run: seq<Action>)
    requires ValidConfig(cfg) && Possible(cfg, Start(cfg), run)
    ensures var s := Exec(cfg, Start(cfg), run);
            && !s.handler.Crashed?
            && |s.records| == |cfg.totals|
            && |s.pool| == Spare(cfg) + Sum(OwedAll(cfg, s))
            && (AboutToAsk(cfg, s) ==> s.pool != [])
  {
    StartIsSafe(cfg);
    RunIsSafe(cfg, Start(cfg), run);
    var s := Exec(cfg, Start(cfg), run);
    if AboutToAsk(cfg, s) {
      PoolNotEmpty(cfg, s);
    }
  }
}
