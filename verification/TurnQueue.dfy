/** The turn-recycling request queue of the serving benchmark (benchmark/hicache/bench_serving.py).

    Conversations wait in a bounded queue. The issuing loop takes one and starts a task
    for its next turn; its coroutine waits for the concurrency limit, appends the user message,
    and on success records the answer and puts the conversation back unless it is over. A
    failed conversation is dropped. All tasks run on one event loop, so a step is what
    happens between two awaits. */
module TurnQueue {
  import opened Common

  import opened Rounds

  /** A prompt, its input length, and its output length: requested first, actual later. */
  datatype Turn = Turn(prompt: int, inputLen: nat, outputLen: nat)

  datatype Message = User(content: int) | Assistant(content: int)

  datatype Reply = Reply(text: int, outputLen: nat)

  datatype Config = Config(convs: seq<seq<Turn>>, limit: Option<nat>)

  /** What a RequestFuncInput carries from turn to turn. `replies` is a history variable: the
      answers received so far. */
  datatype Conv = Conv(prompts: seq<Turn>, finishedPrompts: nat, messages: seq<Message>, replies: seq<Reply>)

  /** One turn of the issuing loop: which conversation, at which of its turns. */
  datatype Issue = Issue(conv: nat, turn: nat)

  /** `returning` tasks still hold their place under the limit while they wait for queue space.
      `finished`, `dropped` and `log` are history variables. */
  datatype State = State(
    queue: seq<nat>, waiting: seq<nat>, active: seq<nat>, returning: seq<nat>,
    finished: set<nat>, dropped: set<nat>,
    convs: seq<Conv>, issued: nat, aborted: bool, log: seq<Issue>)

  function Lengths(cfg: Config): seq<nat> {
    seq(|cfg.convs|, c requires 0 <= c < |cfg.convs| => |cfg.convs[c]|)
  }

  /** num_actual_requests. */
  function TotalTurns(cfg: Config): nat { Sum(Lengths(cfg)) }

  function Start(cfg: Config): State {
    var n := |cfg.convs|;
    State(seq(n, c requires 0 <= c => c), [], [], [], {}, {},
          seq(n, c requires 0 <= c < n => Conv(cfg.convs[c], 0, [], [])), 0, false, [])
  }

  // ----- Steps -------------------------------------------------------------------------

  datatype Action =
    | Get | GiveUp | Enter(i: nat) | Succeed(i: nat, reply: Reply) | Fail(i: nat) | Put(i: nat)

  predicate Enabled(cfg: Config, s: State, a: Action) {
    match a
    case Get => !s.aborted && s.issued < TotalTurns(cfg) && s.queue != [] && s.queue[0] < |s.convs|
    case GiveUp => !s.aborted && s.issued < TotalTurns(cfg) && s.queue == []
    case Enter(i) =>
      && i < |s.waiting| && s.waiting[i] < |s.convs|
      && (cfg.limit.Some? ==> |s.active| + |s.returning| < cfg.limit.value)
    case Succeed(i, reply) =>
      && i < |s.active| && s.active[i] < |s.convs|
      && s.convs[s.active[i]].finishedPrompts < |s.convs[s.active[i]].prompts|
    case Fail(i) => i < |s.active|
    // a queue of maxsize n has room while it holds fewer than n entries
    case Put(i) => i < |s.returning| && |s.queue| < |cfg.convs|
  }

  function Do(cfg: Config, s: State, a: Action): State
    requires Enabled(cfg, s, a)
  {
    match a
    case Get =>
      var c := s.queue[0];
      s.(queue := s.queue[1..], waiting := s.waiting + [c], issued := s.issued + 1,
         log := s.log + [Issue(c, s.convs[c].finishedPrompts)])
    case GiveUp => s.(aborted := true)
    case Enter(i) => DoEnter(s, i)
    case Succeed(i, reply) => DoSucceed(s, i, reply)
    case Fail(i) => s.(active := Without(s.active, i), dropped := s.dropped + {s.active[i]})
    case Put(i) => s.(queue := s.queue + [s.returning[i]], returning := Without(s.returning, i))
  }

  /** Append the user message of the current turn; a conversation without that turn raises. */
  function DoEnter(s: State, i: nat): State
    requires i < |s.waiting| && s.waiting[i] < |s.convs|
  {
    var c := s.waiting[i];
    var v := s.convs[c];
    if v.finishedPrompts < |v.prompts| then
      s.(waiting := Without(s.waiting, i), active := s.active + [c],
         convs := s.convs[c := v.(messages := v.messages + [User(v.prompts[v.finishedPrompts].prompt)])])
    else
      s.(waiting := Without(s.waiting, i), dropped := s.dropped + {c})
  }

  /** Record the actual output length and the answer; go back to the queue if turns are left. */
  function DoSucceed(s: State, i: nat, reply: Reply): State
    requires i < |s.active| && s.active[i] < |s.convs|
    requires s.convs[s.active[i]].finishedPrompts < |s.convs[s.active[i]].prompts|
  {
    var c := s.active[i];
    var v := s.convs[c];
    var k := v.finishedPrompts;
    var more := k + 1 < |v.prompts|;
    var w := Conv(v.prompts[k := v.prompts[k].(outputLen := reply.outputLen)],
                  if more then k + 1 else k,
                  v.messages + [Assistant(reply.text)],
                  v.replies + [reply]);
    s.(active := Without(s.active, i), convs := s.convs[c := w],
       returning := if more then s.returning + [c] else s.returning,
       finished := if more then s.finished else s.finished + {c})
  }

  /** The context length sent with the current turn. */
  function PromptLen(v: Conv): nat
    requires v.finishedPrompts < |v.prompts|
  {
    SumTurns(v.prompts[..v.finishedPrompts]) + v.prompts[v.finishedPrompts].inputLen
  }

  function SumTurns(turns: seq<Turn>): nat {
    if turns == [] then 0
    else SumTurns(turns[..|turns| - 1]) + turns[|turns| - 1].inputLen + turns[|turns| - 1].outputLen
  }

  ghost predicate Possible(cfg: Config, s: State, run: seq<Action>)
    decreases |run|
  {
    run != [] ==> Enabled(cfg, s, run[0]) && Possible(cfg, Do(cfg, s, run[0]), run[1..])
  }

  ghost function Exec(cfg: Config, s: State, run: seq<Action>): State
    requires Possible(cfg, s, run)
    decreases |run|
  {
    if run == [] then s else Exec(cfg, Do(cfg, s, run[0]), run[1..])
  }

  // ----- Placement -----------------------------------------------------------------------

  function Times(s: seq<nat>, c: nat): nat {
    if s == [] then 0 else Times(s[..|s| - 1], c) + One(s[|s| - 1], c)
  }

  lemma TimesAppend(s: seq<nat>, x: nat, c: nat)
    ensures Times(s + [x], c) == Times(s, c) + One(x, c)
  {
    assert (s + [x])[..|s|] == s;
  }

  lemma {:induction false} TimesWithout(s: seq<nat>, i: nat, c: nat)
    requires i < |s|
    ensures Times(s, c) == Times(Without(s, i), c) + One(s[i], c)
  {
    hide Without, One;
    var n := |s| - 1;
    WithoutSnoc(s, i);
    if i < n {
      TimesWithout(s[..n], i, c);
      TimesAppend(Without(s[..n], i), s[n], c);
    }
  }

  ghost function In(c: nat, cs: set<nat>): nat { if c in cs then 1 else 0 }

  /** Conversations in tasks that have been started and not resolved. */
  function Running(s: State, c: nat): nat { Times(s.waiting, c) + Times(s.active, c) }

  ghost function Places(s: State, c: nat): nat {
    Times(s.queue, c) + Running(s, c) + Times(s.returning, c) + In(c, s.finished) + In(c, s.dropped)
  }

  /** Every conversation is in exactly one place. */
  ghost predicate Placed(cfg: Config, s: State) {
    && |s.convs| == |cfg.convs|
    && (forall c: nat :: Places(s, c) == if c < |cfg.convs| then 1 else 0)
    && Size(s) == |cfg.convs|
    && (cfg.limit.Some? ==> |s.active| + |s.returning| <= cfg.limit.value)
  }

  lemma TailIsWithout(s: seq<nat>)
    requires s != []
    ensures s[1..] == Without(s, 0)
  {
  }

  lemma {:induction false} TimesMember(s: seq<nat>, i: nat)
    requires i < |s|
    ensures Times(s, s[i]) >= 1
  {
    TimesWithout(s, i, s[i]);
  }

  // How each action moves conversations about.

  lemma QueueMoves(cfg: Config, s: State, a: Action, c: nat)
    requires Enabled(cfg, s, a) && (a.Get? || a.GiveUp? || a.Put?)
    ensures Places(Do(cfg, s, a), c) == Places(s, c)
    ensures Running(Do(cfg, s, a), c) == Running(s, c) + if a.Get? then One(s.queue[0], c) else 0
  {
    hide TotalTurns;
    if a.Get? {
      TailIsWithout(s.queue);
      TimesWithout(s.queue, 0, c);
      TimesAppend(s.waiting, s.queue[0], c);
    } else if a.Put? {
      TimesWithout(s.returning, a.i, c);
      TimesAppend(s.queue, s.returning[a.i], c);
    }
  }

  lemma EnterMoves(cfg: Config, s: State, i: nat, c: nat)
    requires Placed(cfg, s) && Enabled(cfg, s, Enter(i))
    ensures var t := Do(cfg, s, Enter(i));
            && Places(t, c) == Places(s, c)
            && Running(t, c) + In(c, t.dropped) == Running(s, c) + In(c, s.dropped)
            && (s.waiting[i] !in s.dropped && Running(s, s.waiting[i]) == 1)
  {
    hide Times, Without, TotalTurns;
    var x := s.waiting[i];
    TimesWithout(s.waiting, i, c);
    TimesMember(s.waiting, i);
    assert Places(s, x) <= 1;
    TimesAppend(s.active, x, c);
  }

  lemma SucceedMoves(cfg: Config, s: State, i: nat, reply: Reply, c: nat)
    requires Placed(cfg, s) && Enabled(cfg, s, Succeed(i, reply))
    ensures var t := Do(cfg, s, Succeed(i, reply));
            && Places(t, c) == Places(s, c)
            && Running(t, c) + One(s.active[i], c) == Running(s, c)
            && (s.active[i] !in s.finished && Running(s, s.active[i]) == 1)
  {
    hide Times, Without, TotalTurns;
    var x := s.active[i];
    TimesWithout(s.active, i, c);
    TimesMember(s.active, i);
    assert Places(s, x) <= 1;
    TimesAppend(s.returning, x, c);
  }

  lemma FailMoves(cfg: Config, s: State, i: nat, c: nat)
    requires Placed(cfg, s) && Enabled(cfg, s, Fail(i))
    ensures var t := Do(cfg, s, Fail(i));
            && Places(t, c) == Places(s, c)
            && Running(t, c) + In(c, t.dropped) == Running(s, c) + In(c, s.dropped)
            && (s.active[i] !in s.dropped && Running(s, s.active[i]) == 1)
  {
    TimesWithout(s.active, i, c);
    TimesMember(s.active, i);
    assert Places(s, s.active[i]) <= 1;
  }

  lemma StepPlaces(cfg: Config, s: State, a: Action, c: nat)
    requires Placed(cfg, s) && Enabled(cfg, s, a)
    ensures Places(Do(cfg, s, a), c) == Places(s, c)
  {
    hide Places, Do, Placed;
    match a
    case Enter(i) => EnterMoves(cfg, s, i, c);
    case Succeed(i, reply) => SucceedMoves(cfg, s, i, reply, c);
    case Fail(i) => FailMoves(cfg, s, i, c);
    case _ => QueueMoves(cfg, s, a, c);
  }

  /** The number of conversations in all places. */
  function Size(s: State): nat {
    |s.queue| + |s.waiting| + |s.active| + |s.returning| + |s.finished| + |s.dropped|
  }

  lemma EnterSizes(cfg: Config, s: State, i: nat)
    requires Placed(cfg, s) && Enabled(cfg, s, Enter(i))
    ensures var t := Do(cfg, s, Enter(i)); |t.convs| == |s.convs| && Size(t) == Size(s)
  {
    hide Places, Running, Placed, Times, In;
    EnterMoves(cfg, s, i, 0);
  }

  lemma SucceedSizes(cfg: Config, s: State, i: nat, reply: Reply)
    requires Placed(cfg, s) && Enabled(cfg, s, Succeed(i, reply))
    ensures var t := Do(cfg, s, Succeed(i, reply)); |t.convs| == |s.convs| && Size(t) == Size(s)
  {
    hide Places, Running, Placed, Times, In;
    SucceedMoves(cfg, s, i, reply, 0);
  }

  lemma FailSizes(cfg: Config, s: State, i: nat)
    requires Placed(cfg, s) && Enabled(cfg, s, Fail(i))
    ensures var t := Do(cfg, s, Fail(i)); |t.convs| == |s.convs| && Size(t) == Size(s)
  {
    hide Places, Running, Placed, Times, In;
    FailMoves(cfg, s, i, 0);
  }

  lemma StepKeepsLimit(cfg: Config, s: State, a: Action)
    requires Enabled(cfg, s, a) && (cfg.limit.Some? ==> |s.active| + |s.returning| <= cfg.limit.value)
    ensures var t := Do(cfg, s, a); cfg.limit.Some? ==> |t.active| + |t.returning| <= cfg.limit.value
  {
    hide TotalTurns;
  }

  lemma StepSizes(cfg: Config, s: State, a: Action)
    requires Placed(cfg, s) && Enabled(cfg, s, a)
    ensures var t := Do(cfg, s, a); |t.convs| == |s.convs| && Size(t) == |cfg.convs|
  {
    hide Places, TotalTurns, Running, Placed, Times, In;
    PlacedSizes(cfg, s);
    match a
    case Enter(i) => EnterSizes(cfg, s, i);
    case Succeed(i, reply) => SucceedSizes(cfg, s, i, reply);
    case Fail(i) => FailSizes(cfg, s, i);
    case _ =>
  }

  lemma PlacedSizes(cfg: Config, s: State)
    requires Placed(cfg, s)
    ensures Size(s) == |cfg.convs|
    ensures cfg.limit.Some? ==> |s.active| + |s.returning| <= cfg.limit.value
  {
  }

  lemma StepKeepsPlaced(cfg: Config, s: State, a: Action)
    requires Placed(cfg, s) && Enabled(cfg, s, a)
    ensures Placed(cfg, Do(cfg, s, a))
  {
    hide Places, Do, Enabled, Size;
    StepSizes(cfg, s, a);
    StepKeepsLimit(cfg, s, a);
    forall c: nat
      ensures Places(Do(cfg, s, a), c) == if c < |cfg.convs| then 1 else 0
    {
      StepPlaces(cfg, s, a, c);
      assert Places(s, c) == if c < |cfg.convs| then 1 else 0;
    }
  }

  // ----- Turns -------------------------------------------------------------------------------

  /** The turns of conversation `c` that the loop has issued, in order. */
  function TurnsIssued(log: seq<Issue>, c: nat): seq<nat> {
    if log == [] then []
    else
      var e := log[|log| - 1];
      TurnsIssued(log[..|log| - 1], c) + if e.conv == c then [e.turn] else []
  }

  function UpTo(n: nat): seq<nat> { seq(n, k requires 0 <= k => k) }

  /** How many turns of conversation `c` have been issued. */
  ghost function Given(s: State, c: nat): nat
    requires c < |s.convs|
  {
    |s.convs[c].replies| + Running(s, c) + In(c, s.dropped)
  }

  ghost function GivenAll(s: State): (r: seq<nat>)
    ensures |r| == |s.convs|
  {
    seq(|s.convs|, c requires 0 <= c < |s.convs| => Given(s, c))
  }

  /** Turn by turn: the user's prompt and the assistant's answer. */
  function Dialogue(turns: seq<Turn>, replies: seq<Reply>): seq<Message>
    requires |replies| <= |turns|
    decreases |replies|
  {
    if replies == [] then []
    else
      var k := |replies| - 1;
      Dialogue(turns, replies[..k]) + [User(turns[k].prompt), Assistant(replies[k].text)]
  }

  /** The prompt list with the actual output lengths of the answered turns filled in. */
  function FilledIn(turns: seq<Turn>, replies: seq<Reply>): (r: seq<Turn>)
    requires |replies| <= |turns|
    ensures |r| == |turns|
  {
    seq(|turns|, j requires 0 <= j < |turns| =>
      if j < |replies| then turns[j].(outputLen := replies[j].outputLen) else turns[j])
  }

  /** The state of one conversation, wherever it is. */
  ghost predicate Consistent(cfg: Config, s: State, c: nat)
    requires c < |cfg.convs| == |s.convs|
  {
    var turns, v := cfg.convs[c], s.convs[c];
    var k := |v.replies|;
    && k <= |turns|
    && v.prompts == FilledIn(turns, v.replies)
    && (c in s.finished ==> k == |turns|)
    && (c !in s.finished ==> v.finishedPrompts == k && (k < |turns| || k == 0))
    && (Times(s.active, c) > 0 ==> k < |turns|)
    && (Times(s.returning, c) > 0 ==> k < |turns|)
    && v.messages == Dialogue(turns, v.replies)
                     + (if k < |turns| && (Times(s.active, c) > 0 || c in s.dropped)
                        then [User(turns[k].prompt)] else [])
    && TurnsIssued(s.log, c) == UpTo(Given(s, c))
  }

  ghost predicate Counted(cfg: Config, s: State) {
    s.issued == Sum(GivenAll(s)) && s.issued == |s.log|
  }

  ghost predicate Inv(cfg: Config, s: State) {
    && Placed(cfg, s)
    && (forall c: nat | c < |cfg.convs| :: Consistent(cfg, s, c))
    && Counted(cfg, s)
  }

  lemma TurnsIssuedAppend(log: seq<Issue>, e: Issue, c: nat)
    ensures TurnsIssued(log + [e], c) == TurnsIssued(log, c) + if e.conv == c then [e.turn] else []
  {
    assert (log + [e])[..|log|] == log;
  }

  lemma GetKeepsConsistent(cfg: Config, s: State, c: nat)
    requires Inv(cfg, s) && Enabled(cfg, s, Get) && c < |cfg.convs|
    ensures |Do(cfg, s, Get).convs| == |cfg.convs| && Consistent(cfg, Do(cfg, s, Get), c)
  {
    hide TotalTurns, FilledIn, Dialogue, Counted;
    var t, x := Do(cfg, s, Get), s.queue[0];
    assert Consistent(cfg, s, c);
    TurnsIssuedAppend(s.log, Issue(x, s.convs[x].finishedPrompts), c);
    QueueMoves(cfg, s, Get, c);
    TimesMember(s.queue, 0);
    assert Places(s, x) == 1;
    if c == x {
      assert UpTo(Given(t, c)) == UpTo(Given(s, c)) + [Given(s, c)];
    }
  }

  lemma PutKeepsConsistent(cfg: Config, s: State, a: Action, c: nat)
    requires Inv(cfg, s) && Enabled(cfg, s, a) && (a.Put? || a.GiveUp?) && c < |cfg.convs|
    ensures |Do(cfg, s, a).convs| == |cfg.convs| && Consistent(cfg, Do(cfg, s, a), c)
  {
    hide TotalTurns, FilledIn, Dialogue, Counted;
    assert Consistent(cfg, s, c);
    QueueMoves(cfg, s, a, c);
    if a.Put? {
      TimesWithout(s.returning, a.i, c);
    }
  }

  lemma NotYetFilledIn(turns: seq<Turn>, replies: seq<Reply>)
    requires |replies| < |turns|
    ensures FilledIn(turns, replies)[|replies|] == turns[|replies|]
  {
  }

  lemma EnterKeepsOthers(cfg: Config, s: State, i: nat, c: nat)
    requires Inv(cfg, s) && Enabled(cfg, s, Enter(i)) && c < |cfg.convs| && c != s.waiting[i]
    ensures |Do(cfg, s, Enter(i)).convs| == |cfg.convs| && Consistent(cfg, Do(cfg, s, Enter(i)), c)
  {
    hide TotalTurns, Dialogue, Counted, FilledIn, UpTo, TurnsIssued, Placed, Without, Times;
    InvShape(cfg, s);
    assert Consistent(cfg, s, c);
    EnterMoves(cfg, s, i, c);
    TimesAppend(s.active, s.waiting[i], c);
    TimesWithout(s.waiting, i, c);
  }

  lemma EnterKeepsOwn(cfg: Config, s: State, i: nat)
    requires Inv(cfg, s) && Enabled(cfg, s, Enter(i)) && s.waiting[i] < |cfg.convs|
    ensures |Do(cfg, s, Enter(i)).convs| == |cfg.convs|
    ensures Consistent(cfg, Do(cfg, s, Enter(i)), s.waiting[i])
  {
    hide TotalTurns, Dialogue, Counted, FilledIn, UpTo, TurnsIssued, Placed;
    InvShape(cfg, s);
    var c := s.waiting[i];
    assert Consistent(cfg, s, c);
    EnterMoves(cfg, s, i, c);
    TimesAppend(s.active, c, c);
    TimesMember(s.waiting, i);
    PlacedOnce(cfg, s, c);
    if |s.convs[c].replies| < |cfg.convs[c]| {
      NotYetFilledIn(cfg.convs[c], s.convs[c].replies);
    }
  }

  lemma PlacedOnce(cfg: Config, s: State, c: nat)
    requires Placed(cfg, s)
    ensures Places(s, c) <= 1
  {
  }

  lemma FailKeepsConsistent(cfg: Config, s: State, i: nat, c: nat)
    requires Inv(cfg, s) && Enabled(cfg, s, Fail(i)) && c < |cfg.convs|
    ensures |Do(cfg, s, Fail(i)).convs| == |cfg.convs| && Consistent(cfg, Do(cfg, s, Fail(i)), c)
  {
    hide TotalTurns, FilledIn, Dialogue, Counted;
    assert Consistent(cfg, s, c);
    FailMoves(cfg, s, i, c);
    TimesWithout(s.active, i, c);
    TimesMember(s.active, i);
    assert Places(s, s.active[i]) == 1;
  }

  lemma OneMoreFilledIn(turns: seq<Turn>, replies: seq<Reply>, reply: Reply)
    requires |replies| < |turns|
    ensures var k := |replies|;
            && FilledIn(turns, replies + [reply]) == FilledIn(turns, replies)[k := turns[k].(outputLen := reply.outputLen)]
            && FilledIn(turns, replies)[k] == turns[k]
  {
  }

  lemma Regroup(d: seq<Message>, u: Message, a: Message)
    ensures d + [u, a] == d + [u] + [a]
  {
  }

  lemma OneMoreAnswer(turns: seq<Turn>, replies: seq<Reply>, reply: Reply)
    requires |replies| < |turns|
    ensures Dialogue(turns, replies + [reply])
            == Dialogue(turns, replies) + [User(turns[|replies|].prompt)] + [Assistant(reply.text)]
  {
    var longer, k := replies + [reply], |replies|;
    assert longer[..k] == replies && longer[k] == reply;
    assert Dialogue(turns, longer) == Dialogue(turns, longer[..k]) + [User(turns[k].prompt), Assistant(longer[k].text)];
    Regroup(Dialogue(turns, replies), User(turns[k].prompt), Assistant(reply.text));
  }

  lemma SucceedKeepsOthers(cfg: Config, s: State, i: nat, reply: Reply, c: nat)
    requires Inv(cfg, s) && Enabled(cfg, s, Succeed(i, reply)) && c < |cfg.convs| && c != s.active[i]
    ensures |Do(cfg, s, Succeed(i, reply)).convs| == |cfg.convs|
    ensures Consistent(cfg, Do(cfg, s, Succeed(i, reply)), c)
  {
    hide TotalTurns, FilledIn, Dialogue, Counted, UpTo, TurnsIssued, Placed;
    InvShape(cfg, s);
    assert Consistent(cfg, s, c);
    SucceedMoves(cfg, s, i, reply, c);
    TimesWithout(s.active, i, c);
    TimesAppend(s.returning, s.active[i], c);
  }

  lemma SucceedKeepsOwn(cfg: Config, s: State, i: nat, reply: Reply)
    requires Inv(cfg, s) && Enabled(cfg, s, Succeed(i, reply)) && s.active[i] < |cfg.convs|
    ensures |Do(cfg, s, Succeed(i, reply)).convs| == |cfg.convs|
    ensures Consistent(cfg, Do(cfg, s, Succeed(i, reply)), s.active[i])
  {
    hide TotalTurns, FilledIn, Dialogue, Counted, UpTo, TurnsIssued;
    var c := s.active[i];
    assert Consistent(cfg, s, c);
    SucceedMoves(cfg, s, i, reply, c);
    TimesWithout(s.active, i, c);
    TimesMember(s.active, i);
    TimesAppend(s.returning, c, c);
    assert Places(s, c) == 1;
    OneMoreFilledIn(cfg.convs[c], s.convs[c].replies, reply);
    OneMoreAnswer(cfg.convs[c], s.convs[c].replies, reply);
  }

  lemma InvShape(cfg: Config, s: State)
    requires Inv(cfg, s)
    ensures |s.convs| == |cfg.convs|
  {
  }

  lemma StepKeepsConsistent(cfg: Config, s: State, a: Action, c: nat)
    requires Inv(cfg, s) && Enabled(cfg, s, a) && c < |cfg.convs|
    ensures |Do(cfg, s, a).convs| == |cfg.convs| && Consistent(cfg, Do(cfg, s, a), c)
  {
    hide Inv, Do, Consistent;
    match a
    case Get => GetKeepsConsistent(cfg, s, c);
    case Enter(i) =>
      if c == s.waiting[i] {
        EnterKeepsOwn(cfg, s, i);
      } else {
        EnterKeepsOthers(cfg, s, i, c);
      }
    case Succeed(i, reply) =>
      if c == s.active[i] {
        SucceedKeepsOwn(cfg, s, i, reply);
      } else {
        SucceedKeepsOthers(cfg, s, i, reply, c);
      }
    case Fail(i) => FailKeepsConsistent(cfg, s, i, c);
    case _ => PutKeepsConsistent(cfg, s, a, c);
  }

  /** Only the issuing loop adds to the turns given out. */
  lemma StepGiven(cfg: Config, s: State, a: Action, c: nat)
    requires Placed(cfg, s) && Enabled(cfg, s, a) && c < |s.convs|
    ensures |Do(cfg, s, a).convs| == |s.convs|
    ensures Given(Do(cfg, s, a), c) == Given(s, c) + if a.Get? then One(s.queue[0], c) else 0
  {
    hide TotalTurns, Running, Places, Placed;
    match a
    case Enter(i) => EnterMoves(cfg, s, i, c);
    case Succeed(i, reply) => SucceedMoves(cfg, s, i, reply, c);
    case Fail(i) => FailMoves(cfg, s, i, c);
    case _ => QueueMoves(cfg, s, a, c);
  }

  lemma StepKeepsCounted(cfg: Config, s: State, a: Action)
    requires Inv(cfg, s) && Enabled(cfg, s, a)
    ensures Counted(cfg, Do(cfg, s, a))
  {
    hide TotalTurns, Sum, Given, Placed, Consistent;
    var t := Do(cfg, s, a);
    var more := if a.Get? then GivenAll(s)[s.queue[0] := GivenAll(s)[s.queue[0]] + 1] else GivenAll(s);
    assert |t.convs| == |s.convs|;
    forall c: nat | c < |s.convs| ensures GivenAll(t)[c] == more[c] {
      StepGiven(cfg, s, a, c);
    }
    assert GivenAll(t) == more;
    if a.Get? {
      SumUpdate(GivenAll(s), s.queue[0], GivenAll(s)[s.queue[0]] + 1);
    }
  }

  lemma StepKeepsInv(cfg: Config, s: State, a: Action)
    requires Inv(cfg, s) && Enabled(cfg, s, a)
    ensures Inv(cfg, Do(cfg, s, a))
  {
    hide Do, Enabled, Placed, Consistent, Counted;
    StepKeepsPlaced(cfg, s, a);
    StepKeepsCounted(cfg, s, a);
    forall c: nat | c < |cfg.convs| ensures |Do(cfg, s, a).convs| == |cfg.convs| && Consistent(cfg, Do(cfg, s, a), c) {
      StepKeepsConsistent(cfg, s, a, c);
    }
  }

  lemma {:induction false} TimesUpTo(n: nat, c: nat)
    ensures Times(UpTo(n), c) == if c < n then 1 else 0
  {
    if n > 0 {
      TimesUpTo(n - 1, c);
      assert UpTo(n)[..n - 1] == UpTo(n - 1);
    }
  }

  lemma StartInv(cfg: Config)
    ensures Inv(cfg, Start(cfg))
  {
    var s := Start(cfg);
    assert s.queue == UpTo(|cfg.convs|);
    forall c: nat ensures Places(s, c) == if c < |cfg.convs| then 1 else 0 {
      TimesUpTo(|cfg.convs|, c);
    }
    SumZero(GivenAll(s));
    forall c: nat | c < |cfg.convs| ensures Consistent(cfg, s, c) {
      assert s.convs[c].prompts == FilledIn(cfg.convs[c], []);
    }
  }

  lemma {:induction false} RunKeepsInv(cfg: Config, s: State, run: seq<Action>)
    requires Inv(cfg, s) && Possible(cfg, s, run)
    ensures Inv(cfg, Exec(cfg, s, run))
    decreases |run|
  {
    hide Inv, Enabled, Do;
    if run != [] {
      StepKeepsInv(cfg, s, run[0]);
      RunKeepsInv(cfg, Do(cfg, s, run[0]), run[1..]);
    }
  }

  // ----- What every run guarantees -------------------------------------------------------------

  /** Putting a conversation back never waits for space. */
  lemma PutNeverBlocks(cfg: Config, run: seq<Action>, i: nat)
    requires Possible(cfg, Start(cfg), run)
    ensures var s := Exec(cfg, Start(cfg), run);
            && |s.queue| <= |cfg.convs|
            && (i < |s.returning| ==> Enabled(cfg, s, Put(i)))
  {
    StartInv(cfg);
    RunKeepsInv(cfg, Start(cfg), run);
  }

  /** Each turn is issued at most once and in turn order, failures or not; the log of a
      conversation is 0, 1, ..., m-1 with m the turns given out. */
  lemma TurnsIssuedInOrder(cfg: Config, run: seq<Action>, c: nat)
    requires Possible(cfg, Start(cfg), run) && c < |cfg.convs|
    ensures var s := Exec(cfg, Start(cfg), run);
            && c < |s.convs|
            && TurnsIssued(s.log, c) == UpTo(Given(s, c))
            && s.issued == |s.log| == Sum(GivenAll(s))
  {
    StartInv(cfg);
    RunKeepsInv(cfg, Start(cfg), run);
    assert Consistent(cfg, Exec(cfg, Start(cfg), run), c);
  }

  lemma {:induction false} DialogueLength(turns: seq<Turn>, replies: seq<Reply>)
    requires |replies| <= |turns|
    ensures |Dialogue(turns, replies)| == 2 * |replies|
    decreases |replies|
  {
    if replies != [] {
      DialogueLength(turns, replies[..|replies| - 1]);
    }
  }

  /** Input and actual output lengths of the first `k` turns. */
  function Exchanged(turns: seq<Turn>, replies: seq<Reply>, k: nat): nat
    requires k <= |turns| && k <= |replies|
  {
    if k == 0 then 0 else Exchanged(turns, replies, k - 1) + turns[k - 1].inputLen + replies[k - 1].outputLen
  }

  lemma {:induction false} SumFilledIn(turns: seq<Turn>, replies: seq<Reply>, k: nat)
    requires k <= |replies| <= |turns|
    ensures SumTurns(FilledIn(turns, replies)[..k]) == Exchanged(turns, replies, k)
  {
    if k > 0 {
      SumFilledIn(turns, replies, k - 1);
      assert FilledIn(turns, replies)[..k][..k - 1] == FilledIn(turns, replies)[..k - 1];
    }
  }

  /** A conversation waiting for its turn k holds exactly the 2k messages of its first k turns, and
      the context length it will send counts earlier inputs, actual outputs, and its own input. */
  lemma ContextAtTurn(cfg: Config, run: seq<Action>, c: nat)
    requires Possible(cfg, Start(cfg), run) && c < |cfg.convs|
    ensures var s := Exec(cfg, Start(cfg), run);
            && c < |s.convs|
            && var v := s.convs[c];
            var k := |v.replies|;
            && k <= |cfg.convs[c]|
            && (Times(s.queue, c) + Times(s.waiting, c) + Times(s.returning, c) > 0 ==>
                  v.messages == Dialogue(cfg.convs[c], v.replies) && |v.messages| == 2 * k)
            && (Times(s.active, c) > 0 ==>
                  && k < |cfg.convs[c]|
                  && v.messages == Dialogue(cfg.convs[c], v.replies) + [User(cfg.convs[c][k].prompt)]
                  && v.finishedPrompts < |v.prompts|
                  && PromptLen(v) == Exchanged(cfg.convs[c], v.replies, k) + cfg.convs[c][k].inputLen)
  {
    StartInv(cfg);
    RunKeepsInv(cfg, Start(cfg), run);
    var s := Exec(cfg, Start(cfg), run);
    hide Exec, Possible, Start, Sum;
    assert Consistent(cfg, s, c);
    assert Places(s, c) == 1;
    DialogueLength(cfg.convs[c], s.convs[c].replies);
    SumFilledIn(cfg.convs[c], s.convs[c].replies, |s.convs[c].replies|);
  }
}
