/** What every request of the multi-turn workload says (benchmark/hicache/bench_multiturn.py): the client's first
    prompt, then round by round the answer the server gave and the question asked next. Answers and questions are read
    off the run itself. */
module MultiTurnHistory {
  import opened Common
  import opened Rounds
  import opened MultiTurn
  import opened MultiTurnSafety

  // ----- What a run brings ------------------------------------------------------------------

  /** The answer that an action brings for client `c`, if any. */
  function AnswerIn(s: State, a: Action, c: nat): seq<Tokens> {
    if a.Complete? && a.ok && a.i < |s.inFlight| && s.inFlight[a.i].client == c then [a.output] else []
  }

  /** The question that an action asks on behalf of client `c`, if any: the last one in the pool. */
  function QuestionIn(cfg: Config, s: State, a: Action, c: nat): seq<Tokens> {
    if a.FollowUp? && s.handler == Absorbed(c) && c < |s.records| && c < |cfg.totals|
       && s.records[c].round < cfg.totals[c] && s.pool != []
    then [s.pool[|s.pool| - 1]] else []
  }

  /** All answers for client `c` in the order in which the server gave them, after those in `sofar`. */
  ghost function Answers(cfg: Config, s: State, run: seq<Action>, c: nat, sofar: seq<Tokens>): seq<Tokens>
    requires Possible(cfg, s, run)
    decreases |run|
  {
    if run == [] then sofar
    else Answers(cfg, Do(cfg, s, run[0]), run[1..], c, sofar + AnswerIn(s, run[0], c))
  }

  ghost function Questions(cfg: Config, s: State, run: seq<Action>, c: nat, sofar: seq<Tokens>): seq<Tokens>
    requires Possible(cfg, s, run)
    decreases |run|
  {
    if run == [] then sofar
    else Questions(cfg, Do(cfg, s, run[0]), run[1..], c, sofar + QuestionIn(cfg, s, run[0], c))
  }

  /** Answers and questions in turn; the last answer may still lack its question. */
  function Woven(answers: seq<Tokens>, questions: seq<Tokens>): Tokens
    requires |answers| - 1 <= |questions| <= |answers|
  {
    var n := |answers|;
    if n == 0 then []
    else Woven(answers[..n - 1], questions[..n - 1]) + answers[n - 1]
         + if |questions| == n then questions[n - 1] else []
  }

  lemma WovenAnswer(answers: seq<Tokens>, questions: seq<Tokens>, x: Tokens)
    requires |questions| == |answers|
    ensures Woven(answers + [x], questions) == Woven(answers, questions) + x
  {
    assert (answers + [x])[..|answers|] == answers && questions[..|answers|] == questions;
  }

  lemma WovenQuestion(answers: seq<Tokens>, questions: seq<Tokens>, x: Tokens)
    requires |questions| + 1 == |answers|
    ensures Woven(answers, questions + [x]) == Woven(answers, questions) + x
  {
    var n := |answers|;
    assert (questions + [x])[..n - 1] == questions && questions[..n - 1] == questions;
  }

  // ----- What a client's record says ------------------------------------------------------------

  function Good(r: Response, c: nat): nat { if r.ok && r.client == c then 1 else 0 }

  function GoodAmong(rs: seq<Response>, c: nat): nat {
    if rs == [] then 0 else GoodAmong(rs[..|rs| - 1], c) + Good(rs[|rs| - 1], c)
  }

  /** Good answers for client `c` that have arrived and not been absorbed. */
  function Unread(s: State, c: nat): nat {
    GoodAmong(s.responses, c) + if s.finishing.Some? then Good(s.finishing.value, c) else 0
  }

  /** How many questions client `c` has been asked after its first prompt. */
  function QuestionsDue(cfg: Config, s: State, c: nat): nat
    requires c < |cfg.totals| == |s.records|
  {
    var k := s.records[c].round;
    if k > 0 && (s.handler == Absorbed(c) || k == cfg.totals[c]) then k - 1 else k
  }

  /** Every unread good answer of client `c` is the next one. */
  ghost predicate NextAnswer(s: State, answers: seq<Tokens>, c: nat, k: nat) {
    && (forall r | r in s.responses && r.ok && r.client == c :: k < |answers| && r.output == answers[k])
    && (s.finishing.Some? && s.finishing.value.ok && s.finishing.value.client == c ==>
          k < |answers| && s.finishing.value.output == answers[k])
  }

  /** The history of client `c` is its prompt and the absorbed answers and questions, in turn. */
  ghost predicate Told(cfg: Config, s: State, c: nat, answers: seq<Tokens>, questions: seq<Tokens>) {
    && c < |cfg.totals| == |s.records| == |cfg.prompts|
    && var k := s.records[c].round;
       && |answers| == k + Unread(s, c) && |questions| == QuestionsDue(cfg, s, c)
       && k <= |answers| && k - 1 <= |questions| <= k
       && s.records[c].history == cfg.prompts[c] + Woven(answers[..k], questions)
       && NextAnswer(s, answers, c, k)
  }

  lemma GoodAppend(rs: seq<Response>, r: Response, c: nat)
    ensures GoodAmong(rs + [r], c) == GoodAmong(rs, c) + Good(r, c)
  {
    assert (rs + [r])[..|rs|] == rs;
  }

  lemma {:induction false} GoodTail(rs: seq<Response>, c: nat)
    requires rs != []
    ensures GoodAmong(rs, c) == Good(rs[0], c) + GoodAmong(rs[1..], c)
  {
    var n := |rs| - 1;
    if n > 0 {
      GoodTail(rs[..n], c);
      assert rs[..n][1..] == rs[1..][..n - 1] && rs[1..][n - 1] == rs[n];
    } else {
      assert rs[..n] == [] && rs[1..] == [];
    }
  }

  lemma {:induction false} GoodAtMost(rs: seq<Response>, c: nat)
    ensures GoodAmong(rs, c) <= Answering(rs, c)
  {
    if rs != [] {
      GoodAtMost(rs[..|rs| - 1], c);
    }
  }

  lemma {:induction false} GoodMember(rs: seq<Response>, r: Response, c: nat)
    requires r in rs && r.ok && r.client == c
    ensures GoodAmong(rs, c) >= 1
  {
    var n := |rs| - 1;
    assert rs == rs[..n] + [rs[n]];
    if r != rs[n] {
      GoodMember(rs[..n], r, c);
    }
  }

  lemma StartTold(cfg: Config, c: nat)
    requires ValidConfig(cfg) && c < |cfg.totals|
    ensures Told(cfg, Start(cfg), c, [], [])
  {
    hide Sum;
  }

  // ----- Every step keeps it -----------------------------------------------------------------------

  /** Told, after the answers and questions of action `a`. */
  ghost predicate ToldAfter(cfg: Config, s: State, a: Action, c: nat, answers: seq<Tokens>, questions: seq<Tokens>)
    requires Enabled(cfg, s, a)
  {
    Told(cfg, Do(cfg, s, a), c, answers + AnswerIn(s, a, c), questions + QuestionIn(cfg, s, a, c))
  }

  lemma NothingNew(x: seq<Tokens>)
    ensures x + [] == x
  {
  }

  lemma OthersTell(cfg: Config, s: State, a: Action, c: nat, answers: seq<Tokens>, questions: seq<Tokens>)
    requires Told(cfg, s, c, answers, questions) && Enabled(cfg, s, a)
    requires !a.Complete? && !a.Break? && !a.Put? && !a.Absorb? && !a.FollowUp?
    ensures ToldAfter(cfg, s, a, c, answers, questions)
  {
    hide Sum, Woven, Without;
    NothingNew(answers);
    NothingNew(questions);
  }

  /** A client with a request in flight has nothing unread. */
  lemma NothingUnread(cfg: Config, s: State, i: nat)
    requires Placed(cfg, s) && i < |s.inFlight| && s.inFlight[i].client < |cfg.totals|
    ensures Unread(s, s.inFlight[i].client) == 0
  {
    var c := s.inFlight[i].client;
    assert PlacedClient(cfg, s, c);
    AskingMember(s.inFlight, s.inFlight[i]);
    GoodAtMost(s.responses, c);
  }

  lemma CompleteTells(cfg: Config, s: State, a: Action, c: nat, answers: seq<Tokens>, questions: seq<Tokens>)
    requires Placed(cfg, s) && Told(cfg, s, c, answers, questions) && Enabled(cfg, s, a) && (a.Complete? || a.Break?)
    ensures ToldAfter(cfg, s, a, c, answers, questions)
  {
    hide Sum, Woven, Without, Placed, GoodAmong;
    NothingNew(answers);
    NothingNew(questions);
    var k, t, new' := s.records[c].round, Do(cfg, s, a), answers + AnswerIn(s, a, c);
    assert t.responses == s.responses && s.finishing.None?;
    assert new'[..k] == answers[..k];
    if s.inFlight[a.i].client == c {
      NothingUnread(cfg, s, a.i);
    }
    forall r | r in s.responses && r.ok && r.client == c ensures k < |new'| && r.output == new'[k] {
      assert r.output == answers[k];
    }
  }

  lemma PutTells(cfg: Config, s: State, c: nat, answers: seq<Tokens>, questions: seq<Tokens>)
    requires Told(cfg, s, c, answers, questions) && Enabled(cfg, s, Put)
    ensures ToldAfter(cfg, s, Put, c, answers, questions)
  {
    hide Sum, Woven, GoodAmong;
    NothingNew(answers);
    NothingNew(questions);
    GoodAppend(s.responses, s.finishing.value, c);
  }

  /** What absorbing does to the record of client `c`, and to what is unread. */
  lemma AbsorbShape(cfg: Config, s: State, c: nat)
    requires Enabled(cfg, s, Absorb) && c < |s.records|
    ensures var t, r := Do(cfg, s, Absorb), s.responses[0];
            var own := r.ok && r.client == c;
            && |t.records| == |s.records| && t.responses == s.responses[1..] && t.finishing == s.finishing
            && t.records[c].round == s.records[c].round + (if own then 1 else 0)
            && t.records[c].history == s.records[c].history + (if own then r.output else [])
            && t.handler == (if r.ok then Absorbed(r.client) else s.handler) && s.handler.Waiting?
            && Unread(s, c) == Unread(t, c) + (if own then 1 else 0)
  {
    hide GoodAmong, Sum;
    GoodTail(s.responses, c);
  }

  lemma Join(a: Tokens, b: Tokens, c: Tokens)
    ensures a + b + c == a + (b + c)
  {
  }

  /** The next answer has been read, nothing else has changed for the client. */
  lemma ReadOne(cfg: Config, s: State, t: State, c: nat, answers: seq<Tokens>, questions: seq<Tokens>)
    requires Told(cfg, s, c, answers, questions) && |t.records| == |s.records|
    requires var k := s.records[c].round;
             && k < |answers| && |questions| == k && t.records[c].round == k + 1 && t.handler == Absorbed(c)
             && t.records[c].history == s.records[c].history + answers[k]
             && Unread(s, c) == Unread(t, c) + 1 && NextAnswer(t, answers, c, k + 1)
    ensures Told(cfg, t, c, answers, questions)
  {
    hide Woven, Unread, NextAnswer;
    var k := s.records[c].round;
    WovenAnswer(answers[..k], questions, answers[k]);
    assert answers[..k + 1] == answers[..k] + [answers[k]];
    Join(cfg.prompts[c], Woven(answers[..k], questions), answers[k]);
  }

  /** The next question has been asked, nothing else has changed for the client. */
  lemma AskOne(cfg: Config, s: State, t: State, c: nat, answers: seq<Tokens>, questions: seq<Tokens>, q: Tokens)
    requires Told(cfg, s, c, answers, questions) && |t.records| == |s.records|
    requires var k := s.records[c].round;
             && 1 <= k < cfg.totals[c] && s.handler == Absorbed(c) && !t.handler.Absorbed? && t.records[c].round == k
             && t.records[c].history == s.records[c].history + q
             && t.responses == s.responses && t.finishing == s.finishing
    ensures Told(cfg, t, c, answers, questions + [q])
  {
    hide Woven, GoodAmong;
    var k := s.records[c].round;
    WovenQuestion(answers[..k], questions, q);
    Join(cfg.prompts[c], Woven(answers[..k], questions), q);
  }

  /** Nothing has changed for the client. */
  lemma SameAsBefore(cfg: Config, s: State, t: State, c: nat, answers: seq<Tokens>, questions: seq<Tokens>)
    requires Told(cfg, s, c, answers, questions) && |t.records| == |s.records| && t.records[c] == s.records[c]
    requires Unread(t, c) == Unread(s, c) && QuestionsDue(cfg, t, c) == QuestionsDue(cfg, s, c)
    requires NextAnswer(t, answers, c, t.records[c].round)
    ensures Told(cfg, t, c, answers, questions)
  {
    hide Woven, Unread, NextAnswer;
  }

  lemma AbsorbTells(cfg: Config, s: State, c: nat, answers: seq<Tokens>, questions: seq<Tokens>)
    requires Placed(cfg, s) && Told(cfg, s, c, answers, questions) && Enabled(cfg, s, Absorb)
    ensures ToldAfter(cfg, s, Absorb, c, answers, questions)
  {
    var r, k, t := s.responses[0], s.records[c].round, Do(cfg, s, Absorb);
    NothingNew(answers);
    NothingNew(questions);
    AbsorbShape(cfg, s, c);
    assert forall x | x in s.responses[1..] :: x in s.responses;
    if r.ok && r.client == c {
      AbsorbOwn(cfg, s, c, answers);
      NotFinished(cfg, s);
      assert r in s.responses && r.output == answers[k];
      assert NextAnswer(t, answers, c, k + 1);
      hide Told, Woven, Placed, Do, Unread, Enabled, NextAnswer;
      TellsMuch(cfg, s, c, answers, questions);
      ReadOne(cfg, s, t, c, answers, questions);
    } else {
      assert NextAnswer(t, answers, c, k);
      assert s.records[c].history + [] == s.records[c].history;
      assert t.handler != Absorbed(c);
      hide Told, Woven, Placed, Do, Unread, Enabled, NextAnswer;
      SameAsBefore(cfg, s, t, c, answers, questions);
    }
  }

  lemma TellsMuch(cfg: Config, s: State, c: nat, answers: seq<Tokens>, questions: seq<Tokens>)
    requires Told(cfg, s, c, answers, questions)
    ensures c < |cfg.totals| == |s.records| && |questions| == QuestionsDue(cfg, s, c)
    ensures |answers| == s.records[c].round + Unread(s, c)
  {
  }

  lemma NotFinished(cfg: Config, s: State)
    requires Placed(cfg, s) && s.responses != [] && s.responses[0].client < |cfg.totals|
    ensures s.records[s.responses[0].client].round < cfg.totals[s.responses[0].client]
  {
    var c := s.responses[0].client;
    assert PlacedClient(cfg, s, c);
    AnsweringTail(s.responses, c);
  }

  /** After its own answer is absorbed, nothing of the client is unread. */
  lemma AbsorbOwn(cfg: Config, s: State, c: nat, answers: seq<Tokens>)
    requires Placed(cfg, s) && Enabled(cfg, s, Absorb) && s.responses[0].client == c < |cfg.totals|
    ensures Unread(s, c) == Good(s.responses[0], c)
    ensures (forall r | r in s.responses[1..] && r.ok :: r.client != c)
    ensures s.finishing.Some? && s.finishing.value.ok ==> s.finishing.value.client != c
  {
    assert PlacedClient(cfg, s, c);
    AnsweringTail(s.responses, c);
    GoodTail(s.responses, c);
    GoodAtMost(s.responses[1..], c);
    hide Answering, GoodAmong;
    forall r | r in s.responses[1..] && r.ok ensures r.client != c {
      if r.client == c {
        GoodMember(s.responses[1..], r, c);
      }
    }
  }

  /** What asking does to the record of client `c`. */
  lemma FollowUpShape(cfg: Config, s: State, c: nat)
    requires Enabled(cfg, s, FollowUp) && c < |s.records|
    requires s.records[s.handler.client].round < cfg.totals[s.handler.client] ==> s.pool != []
    ensures var t, q := Do(cfg, s, FollowUp), QuestionIn(cfg, s, FollowUp, c);
            && |t.records| == |s.records| && t.records[c].round == s.records[c].round
            && t.records[c].history == s.records[c].history + (if q == [] then [] else q[0])
            && (q != [] <==> s.handler.client == c && c < |cfg.totals| && s.records[c].round < cfg.totals[c]) && |q| <= 1
            && t.responses == s.responses && t.finishing == s.finishing && (t.handler.Waiting? || t.handler.Releasing?)
  {
    hide Sum, ClientsPerRound;
  }

  lemma FollowUpTells(cfg: Config, s: State, c: nat, answers: seq<Tokens>, questions: seq<Tokens>)
    requires Placed(cfg, s) && Stocked(cfg, s) && Told(cfg, s, c, answers, questions) && Enabled(cfg, s, FollowUp)
    ensures ToldAfter(cfg, s, FollowUp, c, answers, questions)
  {
    if AboutToAsk(cfg, s) {
      PoolNotEmpty(cfg, s);
    }
    NothingNew(answers);
    NothingNew(questions);
    FollowUpShape(cfg, s, c);
    assert PlacedClient(cfg, s, s.handler.client);
    var k, q, t := s.records[c].round, QuestionIn(cfg, s, FollowUp, c), Do(cfg, s, FollowUp);
    assert s.handler.client == c ==> 1 <= k <= cfg.totals[c];
    assert NextAnswer(t, answers, c, k) && Unread(t, c) == Unread(s, c);
    hide Woven, Placed, Stocked, Do, QuestionIn, Enabled, NextAnswer, Unread, Told;
    if q != [] {
      assert q == [q[0]];
      AskOne(cfg, s, t, c, answers, questions, q[0]);
    } else {
      assert s.records[c].history + [] == s.records[c].history;
      SameAsBefore(cfg, s, t, c, answers, questions);
    }
  }

  lemma StepTells(cfg: Config, s: State, a: Action, c: nat, answers: seq<Tokens>, questions: seq<Tokens>)
    requires Safe(cfg, s) && Told(cfg, s, c, answers, questions) && Enabled(cfg, s, a)
    ensures ToldAfter(cfg, s, a, c, answers, questions)
  {
    hide Told, ToldAfter, Placed, Counted, InWindow, Stocked, FreshPayloads, Enabled, Do;
    match a
    case Complete(_, _, _) => CompleteTells(cfg, s, a, c, answers, questions);
    case Break(_) => CompleteTells(cfg, s, a, c, answers, questions);
    case Put => PutTells(cfg, s, c, answers, questions);
    case Absorb => AbsorbTells(cfg, s, c, answers, questions);
    case FollowUp => FollowUpTells(cfg, s, c, answers, questions);
    case _ => OthersTell(cfg, s, a, c, answers, questions);
  }

  /** Over every run, a client's history is told by the answers and questions of the run. */
  lemma {:induction false} RunTells(cfg: Config, s: State, run: seq<Action>, c: nat, answers: seq<Tokens>,
                                    questions: seq<Tokens>)
    requires Safe(cfg, s) && Told(cfg, s, c, answers, questions) && Possible(cfg, s, run)
    ensures Told(cfg, Exec(cfg, s, run), c, Answers(cfg, s, run, c, answers), Questions(cfg, s, run, c, questions))
    decreases |run|
  {
    hide Told, Safe, Enabled, Do, AnswerIn, QuestionIn;
    if run != [] {
      StepKeepsSafe(cfg, s, run[0]);
      StepTells(cfg, s, run[0], c, answers, questions);
      RunTells(cfg, Do(cfg, s, run[0]), run[1..], c, answers + AnswerIn(s, run[0], c),
               questions + QuestionIn(cfg, s, run[0], c));
    }
  }

  /** The request of a client in round k, wherever it is, carries its prompt and then its k answers and k questions in
      turn: exactly those that the server gave and the handler asked. */
  lemma PayloadAtRound(cfg: Config, run: seq<Action>, q: Request)
    requires ValidConfig(cfg) && Possible(cfg, Start(cfg), run)
    requires var s := Exec(cfg, Start(cfg), run);
             q in s.ready || q in s.inFlight || q in s.held || s.sender == Popped(q)
    ensures var s := Exec(cfg, Start(cfg), run);
            var answers, questions := Answers(cfg, Start(cfg), run, q.client, []), Questions(cfg, Start(cfg), run, q.client, []);
            && q.client < |s.records| && q.client < |cfg.prompts|
            && |answers| == |questions| == s.records[q.client].round
            && q.payload == cfg.prompts[q.client] + Woven(answers, questions)
  {
    var s, c := Exec(cfg, Start(cfg), run), q.client;
    StartIsSafe(cfg);
    RunIsSafe(cfg, Start(cfg), run);
    hide Possible, Exec, Start, Answers, Questions;
    assert PlacedClient(cfg, s, c);
    assert Pending(s, c) >= 1 by {
      if q in s.ready { AskingMember(s.ready, q); }
      if q in s.inFlight { AskingMember(s.inFlight, q); }
      if q in s.held { AskingMember(s.held, q); }
    }
    assert c < |cfg.totals|;
    StartTold(cfg, c);
    RunTells(cfg, Start(cfg), run, c, [], []);
    GoodAtMost(s.responses, c);
    var answers, questions := Answers(cfg, Start(cfg), run, c, []), Questions(cfg, Start(cfg), run, c, []);
    assert answers[..|answers|] == answers;
  }

  // ----- Where the questions come from ------------------------------------------------------------------

  /** The pool is always the front part of the sampled questions: they are used from the back, each once. */
  lemma {:induction false} PoolIsPrefix(cfg: Config, s: State, run: seq<Action>)
    requires s.pool <= cfg.questions && Possible(cfg, s, run)
    ensures Exec(cfg, s, run).pool <= cfg.questions
    decreases |run|
  {
    hide Sum, ClientsPerRound;
    if run != [] {
      PoolIsPrefix(cfg, Do(cfg, s, run[0]), run[1..]);
    }
  }

  // ----- First in, first out --------------------------------------------------------------------------------

  /** The request that an action puts into the ready queue, if any. */
  function ArrivalIn(cfg: Config, s: State, a: Action): seq<Request> {
    if a.ReleaseOne? && s.held != [] then [s.held[0]]
    else if a.FollowUp? && !cfg.barrier && s.handler.Absorbed? && s.handler.client < |s.records|
            && QuestionIn(cfg, s, a, s.handler.client) != []
    then [Request(s.handler.client, s.records[s.handler.client].history + QuestionIn(cfg, s, a, s.handler.client)[0])]
    else []
  }

  /** The request that an action takes out of the ready queue, if any. */
  function TakenIn(s: State, a: Action): seq<Request> {
    if a.Pop? && a.i < |s.ready| then [s.ready[a.i]] else []
  }

  ghost function Arrivals(cfg: Config, s: State, run: seq<Action>): seq<Request>
    requires Possible(cfg, s, run)
    decreases |run|
  {
    if run == [] then [] else ArrivalIn(cfg, s, run[0]) + Arrivals(cfg, Do(cfg, s, run[0]), run[1..])
  }

  ghost function Taken(cfg: Config, s: State, run: seq<Action>): seq<Request>
    requires Possible(cfg, s, run)
    decreases |run|
  {
    if run == [] then [] else TakenIn(s, run[0]) + Taken(cfg, Do(cfg, s, run[0]), run[1..])
  }

  lemma StepIsFifo(cfg: Config, s: State, a: Action)
    requires cfg.fifo && Enabled(cfg, s, a)
    ensures s.ready + ArrivalIn(cfg, s, a) == TakenIn(s, a) + Do(cfg, s, a).ready
  {
    hide Sum, ClientsPerRound;
  }

  /** Under the fifo policy requests are sent in the order in which they came into the queue. */
  lemma {:induction false} RunIsFifo(cfg: Config, s: State, run: seq<Action>)
    requires cfg.fifo && Possible(cfg, s, run)
    ensures s.ready + Arrivals(cfg, s, run) == Taken(cfg, s, run) + Exec(cfg, s, run).ready
    decreases |run|
  {
    hide Enabled, Do, ArrivalIn, TakenIn;
    if run != [] {
      var t := Do(cfg, s, run[0]);
      StepIsFifo(cfg, s, run[0]);
      RunIsFifo(cfg, t, run[1..]);
      Queue(s.ready, ArrivalIn(cfg, s, run[0]), Arrivals(cfg, t, run[1..]), TakenIn(s, run[0]), t.ready,
            Taken(cfg, t, run[1..]), Exec(cfg, t, run[1..]).ready);
    }
  }

  /** From the start: first every client with its prompt, in order, then follow-ups as they come in. */
  lemma SentInOrder(cfg: Config, run: seq<Action>)
    requires ValidConfig(cfg) && cfg.fifo && Possible(cfg, Start(cfg), run)
    ensures seq(|cfg.prompts|, c requires 0 <= c < |cfg.prompts| => Request(c, cfg.prompts[c])) + Arrivals(cfg, Start(cfg), run)
            == Taken(cfg, Start(cfg), run) + Exec(cfg, Start(cfg), run).ready
  {
    hide Possible, Exec, Arrivals, Taken, Sum;
    RunIsFifo(cfg, Start(cfg), run);
    assert Start(cfg).ready == seq(|cfg.prompts|, c requires 0 <= c < |cfg.prompts| => Request(c, cfg.prompts[c]));
  }

  lemma Queue(q: seq<Request>, a: seq<Request>, as': seq<Request>, t: seq<Request>, q': seq<Request>,
              ts: seq<Request>, q'': seq<Request>)
    requires q + a == t + q' && q' + as' == ts + q''
    ensures q + (a + as') == t + ts + q''
  {
    assert q + (a + as') == (q + a) + as' && (t + q') + as' == t + (q' + as');
    assert t + (ts + q'') == t + ts + q'';
  }

  // ----- The other two queues ---------------------------------------------------------------------------------

  /** The question request that an action holds back for the next round, if any. */
  function HeldIn(cfg: Config, s: State, a: Action): seq<Request> {
    if a.FollowUp? && cfg.barrier && s.handler.Absorbed? && s.handler.client < |s.records|
       && QuestionIn(cfg, s, a, s.handler.client) != []
    then [Request(s.handler.client, s.records[s.handler.client].history + QuestionIn(cfg, s, a, s.handler.client)[0])]
    else []
  }

  /** Responses are handled in the order in which they were put, and requests held back are released in the order in
      which they were made. */
  lemma OtherQueuesAreFifo(cfg: Config, s: State, a: Action)
    requires Enabled(cfg, s, a)
    ensures var t := Do(cfg, s, a);
            && s.responses + (if a.Put? then [s.finishing.value] else [])
               == (if a.Absorb? then [s.responses[0]] else []) + t.responses
            && s.held + HeldIn(cfg, s, a) == (if a.ReleaseOne? then [s.held[0]] else []) + t.held
  {
    hide Sum, ClientsPerRound;
  }
}
