/** The multi-turn workload protocol (benchmark/hicache/bench_multiturn.py).

    Two threads share counters and queues. The sender thread runs an event loop: it
    checks how many requests are outstanding, pops the ready queue, starts a task and
    counts it; its tasks complete whenever the loop is idle. The handler thread absorbs
    responses, asks follow-up questions and, with the round barrier on, holds requests
    back until a round is over. The atomic steps below are what one thread can do
    between two points where the other can observe shared state; the checks and the
    updates that follow them are separate steps. */
module MultiTurn {
  import opened Common

  import opened Rounds

  type Tokens = seq<int>

  /** Rounds per client, first prompts, and the pool of follow-up questions. */
  datatype Config = Config(totals: seq<nat>, maxRounds: nat, maxParallel: int, barrier: bool, fifo: bool,
                           prompts: seq<Tokens>, questions: seq<Tokens>)

  function FollowUps(totals: seq<nat>): seq<nat> {
    seq(|totals|, c requires 0 <= c < |totals| => if totals[c] > 0 then totals[c] - 1 else 0)
  }

  /** What the constructor sets up. */
  ghost predicate ValidConfig(cfg: Config) {
    && (forall c | 0 <= c < |cfg.totals| :: 1 <= cfg.totals[c] <= cfg.maxRounds)
    && |cfg.prompts| == |cfg.totals|
    && |cfg.questions| == if Sum(FollowUps(cfg.totals)) > 1 then Sum(FollowUps(cfg.totals)) else 1
  }

  /** The payload is what the client's history list held when the request was made. */
  datatype Request = Request(client: nat, payload: Tokens)

  datatype Response = Response(client: nat, ok: bool, output: Tokens)

  datatype Record = Record(round: nat, history: Tokens)

  /** Idle: awaiting a sleep. Checked: passed the window check. Leaving: about to compare the
      progress bar with its total. */
  datatype Sender = Idle | Checked | Popped(req: Request) | Leaving | SenderDone

  /** Absorbed: the response has been counted, the follow-up is due. TimedOut: the queue was empty,
      the progress bar has not been read yet. Crashed: popped an empty pool. */
  datatype Handler = Waiting | TimedOut | Absorbed(client: nat) | Releasing | HandlerDone | Crashed

  datatype State = State(
    sent: nat, completed: nat, progress: nat,
    ready: seq<Request>, inFlight: seq<Request>,
    finishing: Option<Response>, responses: seq<Response>,
    records: seq<Record>, pool: seq<Tokens>,
    held: seq<Request>, barrierRound: nat, barrierDone: nat,
    sender: Sender, handler: Handler,
    failed: set<nat>,  // clients with a failed response handled; history variable
    uncounted: nat     // failures that never reached the progress bar; history variable
  )

  function Start(cfg: Config): State
    requires |cfg.prompts| == |cfg.totals|
  {
    var n := |cfg.totals|;
    State(0, 0, 0,
          seq(n, c requires 0 <= c < n => Request(c, cfg.prompts[c])), [],
          None, [],
          seq(n, c requires 0 <= c < n => Record(0, cfg.prompts[c])), cfg.questions,
          [], 0, 0, Idle, Waiting, {}, 0)
  }

  // ----- Steps ------------------------------------------------------------------------

  datatype Action =
    | Check | Pop(i: nat) | PopEmpty | Launch | Leave
    | Complete(i: nat, ok: bool, output: Tokens) | Break(i: nat) | Put
    | Absorb | FollowUp | ReleaseOne | ReleaseEnd | TimeOut | Exit

  predicate Enabled(cfg: Config, s: State, a: Action) {
    match a
    case Check => s.sender.Idle? && s.finishing.None? && s.sent - s.completed < cfg.maxParallel
    case Pop(i) => s.sender.Checked? && i < |s.ready| && (cfg.fifo ==> i == 0)
    case PopEmpty => s.sender.Checked? && s.ready == []
    case Launch => s.sender.Popped?
    case Leave => s.sender.Leaving?
    // tasks run only while the loop awaits, and put their response before the loop goes on
    case Complete(i, ok, output) => s.sender.Idle? && s.finishing.None? && i < |s.inFlight|
    case Break(i) => s.sender.Idle? && s.finishing.None? && i < |s.inFlight|
    case Put => s.finishing.Some?
    case Absorb => s.handler.Waiting? && s.responses != [] && s.responses[0].client < |s.records|
    case FollowUp => s.handler.Absorbed? && s.handler.client < |s.records| && s.handler.client < |cfg.totals|
    case ReleaseOne => s.handler.Releasing? && s.held != []
    case ReleaseEnd => s.handler.Releasing? && s.held == []
    case TimeOut => s.handler.Waiting? && s.responses == []
    case Exit => s.handler.TimedOut?
  }

  function Do(cfg: Config, s: State, a: Action): State
    requires Enabled(cfg, s, a)
  {
    match a
    case Check => s.(sender := Checked)
    case Pop(i) => s.(sender := Popped(s.ready[i]), ready := Without(s.ready, i))
    case PopEmpty => s.(sender := Leaving)
    case Launch => s.(inFlight := s.inFlight + [s.sender.req], sent := s.sent + 1, sender := Leaving)
    case Leave => s.(sender := if s.progress == Sum(cfg.totals) then SenderDone else Idle)
    case Complete(i, ok, output) =>
      s.(inFlight := Without(s.inFlight, i), progress := s.progress + 1,
         finishing := Some(Response(s.inFlight[i].client, ok, output)))
    case Break(i) =>
      s.(inFlight := Without(s.inFlight, i), uncounted := s.uncounted + 1,
         finishing := Some(Response(s.inFlight[i].client, false, [])))
    case Put => s.(responses := s.responses + [s.finishing.value], finishing := None)
    case Absorb => DoAbsorb(s)
    case FollowUp => DoFollowUp(cfg, s)
    case ReleaseOne => s.(ready := s.ready + [s.held[0]], held := s.held[1..])
    case ReleaseEnd => s.(barrierRound := s.barrierRound + 1, barrierDone := 0, handler := Waiting)
    case TimeOut => s.(handler := TimedOut)
    case Exit => s.(handler := if s.progress == Sum(cfg.totals) then HandlerDone else Waiting)
  }

  /** Take a response: a failure is only counted, a success extends the client's history. */
  function DoAbsorb(s: State): State
    requires s.responses != [] && s.responses[0].client < |s.records|
  {
    var r := s.responses[0];
    var c, rec := r.client, s.records[r.client];
    if !r.ok then
      s.(responses := s.responses[1..], completed := s.completed + 1, failed := s.failed + {c})
    else
      s.(responses := s.responses[1..], completed := s.completed + 1, handler := Absorbed(c),
         records := s.records[c := Record(rec.round + 1, rec.history + r.output)])
  }

  /** Ask the next question, if the client has rounds left, and count for the barrier. */
  function DoFollowUp(cfg: Config, s: State): State
    requires s.handler.Absorbed? && s.handler.client < |s.records| && s.handler.client < |cfg.totals|
  {
    var c := s.handler.client;
    if s.records[c].round < cfg.totals[c] then
      if s.pool == [] then s.(handler := Crashed)
      else CountForBarrier(cfg, AskAgain(cfg, s, c))
    else
      CountForBarrier(cfg, s)
  }

  function AskAgain(cfg: Config, s: State, c: nat): State
    requires s.pool != [] && c < |s.records|
  {
    var question := s.pool[|s.pool| - 1];
    var history := s.records[c].history + question;
    var req := Request(c, history);
    s.(pool := s.pool[..|s.pool| - 1],
       records := s.records[c := s.records[c].(history := history)],
       held := if cfg.barrier then s.held + [req] else s.held,
       ready := if cfg.barrier then s.ready else s.ready + [req])
  }

  function CountForBarrier(cfg: Config, s: State): State {
    if cfg.barrier && s.barrierRound < cfg.maxRounds then
      var done := s.barrierDone + 1;
      s.(barrierDone := done,
         handler := if done == ClientsPerRound(cfg.totals, cfg.maxRounds)[s.barrierRound]
                    then Releasing else Waiting)
    else s.(handler := Waiting)
  }

  /** All actions of the list can be taken in turn. */
  ghost predicate Possible(cfg: Config, s: State, run: seq<Action>)
    decreases |run|
  {
    run != [] ==> Enabled(cfg, s, run[0]) && Possible(cfg, Do(cfg, s, run[0]), run[1..])
  }

  ghost function Exec(cfg: Config, s: State, run: seq<Action>): State
    requires Possible(cfg, s, run)
    decreases |run|
  {
    if run == [] then s else Exec(cfg, Do(cfg, s, run[0]), run[1..])
  }

  // ----- Placement ----------------------------------------------------------------------

  /** How many requests of the list belong to client `c`. */
  function Asking(rs: seq<Request>, c: nat): nat {
    if rs == [] then 0 else Asking(rs[..|rs| - 1], c) + One(rs[|rs| - 1].client, c)
  }

  function Answering(rs: seq<Response>, c: nat): nat {
    if rs == [] then 0 else Answering(rs[..|rs| - 1], c) + One(rs[|rs| - 1].client, c)
  }

  lemma AskingAppend(rs: seq<Request>, r: Request, c: nat)
    ensures Asking(rs + [r], c) == Asking(rs, c) + One(r.client, c)
  {
    assert (rs + [r])[..|rs|] == rs;
  }

  lemma AnsweringAppend(rs: seq<Response>, r: Response, c: nat)
    ensures Answering(rs + [r], c) == Answering(rs, c) + One(r.client, c)
  {
    assert (rs + [r])[..|rs|] == rs;
  }

  lemma {:induction false} AskingWithout(rs: seq<Request>, i: nat, c: nat)
    requires i < |rs|
    ensures Asking(rs, c) == Asking(Without(rs, i), c) + One(rs[i].client, c)
  {
    hide Without, One;
    var n := |rs| - 1;
    WithoutSnoc(rs, i);
    if i < n {
      AskingWithout(rs[..n], i, c);
      AskingAppend(Without(rs[..n], i), rs[n], c);
    }
  }

  lemma {:induction false} AnsweringTail(rs: seq<Response>, c: nat)
    requires rs != []
    ensures Answering(rs, c) == Answering(rs[1..], c) + One(rs[0].client, c)
  {
    var n := |rs| - 1;
    if n > 0 {
      AnsweringTail(rs[..n], c);
      assert rs[1..] == rs[..n][1..] + [rs[n]];
      AnsweringAppend(rs[..n][1..], rs[n], c);
    } else {
      assert rs[1..] == [] && rs[..n] == [];
    }
  }

  /** Requests of client `c` that have been made and not yet answered. */
  function Pending(s: State, c: nat): nat {
    Asking(s.ready, c) + (if s.sender.Popped? then One(s.sender.req.client, c) else 0)
    + Asking(s.inFlight, c) + Asking(s.held, c)
  }

  /** Requests of client `c` made and not yet absorbed. */
  function Open(s: State, c: nat): nat {
    Pending(s, c) + (if s.finishing.Some? then One(s.finishing.value.client, c) else 0)
    + Answering(s.responses, c)
  }

  /** Client `c` is being served by the handler, has failed, or has finished. */
  function Settled(cfg: Config, s: State, c: nat): nat
    requires c < |cfg.totals| == |s.records|
  {
    if s.handler == Absorbed(c) || c in s.failed || s.records[c].round == cfg.totals[c] then 1 else 0
  }

  /** Client `c` is in exactly one place, and its round in range. */
  ghost predicate PlacedClient(cfg: Config, s: State, c: nat)
    requires |cfg.totals| == |s.records|
  {
    if c < |cfg.totals| then
      && Open(s, c) + Settled(cfg, s, c) == 1
      && s.records[c].round <= cfg.totals[c]
      && (c in s.failed ==> s.records[c].round < cfg.totals[c] && s.handler != Absorbed(c))
      && (s.handler == Absorbed(c) ==> s.records[c].round >= 1)
    else
      Open(s, c) == 0 && c !in s.failed && s.handler != Absorbed(c)
  }

  ghost predicate Placed(cfg: Config, s: State) {
    |s.records| == |cfg.totals| && forall c: nat :: PlacedClient(cfg, s, c)
  }

  // How each action moves clients about.

  lemma SenderMoves(cfg: Config, s: State, a: Action, c: nat)
    requires Enabled(cfg, s, a) && (a.Pop? || a.Launch?)
    ensures Open(Do(cfg, s, a), c) == Open(s, c)
  {
    if a.Pop? {
      AskingWithout(s.ready, a.i, c);
    } else {
      AskingAppend(s.inFlight, s.sender.req, c);
    }
  }

  lemma NetworkMoves(cfg: Config, s: State, a: Action, c: nat)
    requires Enabled(cfg, s, a) && (a.Complete? || a.Break? || a.Put?)
    ensures Open(Do(cfg, s, a), c) == Open(s, c)
  {
    if a.Put? {
      AnsweringAppend(s.responses, s.finishing.value, c);
    } else {
      AskingWithout(s.inFlight, a.i, c);
    }
  }

  lemma ReleaseMoves(cfg: Config, s: State, c: nat)
    requires Enabled(cfg, s, ReleaseOne)
    ensures Open(Do(cfg, s, ReleaseOne), c) == Open(s, c)
  {
    AskingWithout(s.held, 0, c);
    assert Without(s.held, 0) == s.held[1..];
    AskingAppend(s.ready, s.held[0], c);
  }

  /** Actions that neither absorb a response nor ask a question move no client in or out. */
  lemma OthersMove(cfg: Config, s: State, a: Action, c: nat)
    requires Enabled(cfg, s, a) && !a.Absorb? && !a.FollowUp?
    ensures Open(Do(cfg, s, a), c) == Open(s, c)
  {
    hide Sum;
    if a.Pop? || a.Launch? { SenderMoves(cfg, s, a, c); }
    else if a.Complete? || a.Break? || a.Put? { NetworkMoves(cfg, s, a, c); }
    else if a.ReleaseOne? { ReleaseMoves(cfg, s, c); }
  }

  lemma AbsorbMoves(cfg: Config, s: State, c: nat)
    requires Enabled(cfg, s, Absorb)
    ensures Open(s, c) == Open(Do(cfg, s, Absorb), c) + One(s.responses[0].client, c)
  {
    AnsweringTail(s.responses, c);
  }

  lemma AskMoves(cfg: Config, s: State, b: nat, c: nat)
    requires s.pool != [] && b < |s.records|
    ensures Open(AskAgain(cfg, s, b), c) == Open(s, c) + One(b, c)
  {
    var req := Request(b, s.records[b].history + s.pool[|s.pool| - 1]);
    AskingAppend(s.held, req, c);
    AskingAppend(s.ready, req, c);
  }

  lemma CountMoves(cfg: Config, s: State, c: nat)
    ensures Open(CountForBarrier(cfg, s), c) == Open(s, c)
  {
    hide ClientsPerRound;
  }

  lemma OthersKeepPlaced(cfg: Config, s: State, a: Action)
    requires Placed(cfg, s) && Enabled(cfg, s, a) && !a.Absorb? && !a.FollowUp?
    ensures Placed(cfg, Do(cfg, s, a))
  {
    hide Sum, Open;
    forall c: nat ensures PlacedClient(cfg, Do(cfg, s, a), c) {
      assert PlacedClient(cfg, s, c);
      OthersMove(cfg, s, a, c);
    }
  }

  lemma AbsorbKeepsPlaced(cfg: Config, s: State)
    requires Placed(cfg, s) && Enabled(cfg, s, Absorb)
    ensures Placed(cfg, Do(cfg, s, Absorb))
  {
    hide Open;
    forall c: nat ensures PlacedClient(cfg, Do(cfg, s, Absorb), c) {
      assert PlacedClient(cfg, s, c);
      AbsorbMoves(cfg, s, c);
    }
  }

  lemma FollowUpKeepsPlaced(cfg: Config, s: State)
    requires Placed(cfg, s) && Enabled(cfg, s, FollowUp)
    requires s.records[s.handler.client].round < cfg.totals[s.handler.client] ==> s.pool != []
    ensures Placed(cfg, Do(cfg, s, FollowUp))
  {
    hide Open, ClientsPerRound;
    var b := s.handler.client;
    var asks := s.records[b].round < cfg.totals[b];
    forall c: nat ensures PlacedClient(cfg, Do(cfg, s, FollowUp), c) {
      assert PlacedClient(cfg, s, c);
      if asks {
        AskMoves(cfg, s, b, c);
        CountMoves(cfg, AskAgain(cfg, s, b), c);
      } else {
        CountMoves(cfg, s, c);
      }
    }
  }
}
