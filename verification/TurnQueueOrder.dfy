/** The order in which the turn-recycling queue issues conversations (benchmark/hicache/bench_serving.py). */
module TurnQueueOrder {
  import opened Common
  import opened TurnQueue

  /** The conversation that an action puts back into the queue, if any. */
  function ReturnedIn(s: State, a: Action): seq<nat> {
    if a.Put? && a.i < |s.returning| then [s.returning[a.i]] else []
  }

  /** The conversations put back during a run, in order. */
  ghost function Returned(cfg: Config, s: State, run: seq<Action>): seq<nat>
    requires Possible(cfg, s, run)
    decreases |run|
  {
    if run == [] then [] else ReturnedIn(s, run[0]) + Returned(cfg, Do(cfg, s, run[0]), run[1..])
  }

  /** The conversations of the issues, in order. */
  function Convs(log: seq<Issue>): (r: seq<nat>)
    ensures |r| == |log| && forall i | 0 <= i < |r| :: r[i] == log[i].conv
  {
    seq(|log|, i requires 0 <= i < |log| => log[i].conv)
  }

  lemma StepIsFifo(cfg: Config, s: State, a: Action)
    requires Enabled(cfg, s, a)
    ensures Convs(Do(cfg, s, a).log) + Do(cfg, s, a).queue == Convs(s.log) + s.queue + ReturnedIn(s, a)
  {
    hide TotalTurns;
    var t := Do(cfg, s, a);
    if a.Get? {
      assert t.log[..|s.log|] == s.log && Convs(t.log) == Convs(s.log) + [s.queue[0]];
      assert [s.queue[0]] + s.queue[1..] == s.queue;
    }
  }

  /** What has been issued, followed by what is queued, is what was queued, followed by what came back. */
  lemma {:induction false} RunIsFifo(cfg: Config, s: State, run: seq<Action>)
    requires Possible(cfg, s, run)
    ensures var t := Exec(cfg, s, run); Convs(t.log) + t.queue == Convs(s.log) + s.queue + Returned(cfg, s, run)
    decreases |run|
  {
    hide Enabled, Do, ReturnedIn;
    if run != [] {
      StepIsFifo(cfg, s, run[0]);
      var u := Do(cfg, s, run[0]);
      RunIsFifo(cfg, u, run[1..]);
      assert Convs(s.log) + s.queue + ReturnedIn(s, run[0]) + Returned(cfg, u, run[1..])
          == Convs(s.log) + s.queue + (ReturnedIn(s, run[0]) + Returned(cfg, u, run[1..]));
    }
  }

  /** From the start: first all conversations in the order of the data set, then each again as it comes back. */
  lemma IssuedInOrder(cfg: Config, run: seq<Action>)
    requires Possible(cfg, Start(cfg), run)
    ensures var t := Exec(cfg, Start(cfg), run);
            Convs(t.log) + t.queue == seq(|cfg.convs|, k requires 0 <= k => k) + Returned(cfg, Start(cfg), run)
  {
    hide Possible, Exec, Returned;
    RunIsFifo(cfg, Start(cfg), run);
  }

  // ----- Whose answers a conversation holds -------------------------------------------------------

  /** The answer that an action brings for conversation `c`, if any. */
  function ReplyIn(s: State, a: Action, c: nat): seq<Reply> {
    if a.Succeed? && a.i < |s.active| && s.active[a.i] == c then [a.reply] else []
  }

  /** The answers the server gave to conversation `c` during a run, after those in `sofar`. */
  ghost function Replies(cfg: Config, s: State, run: seq<Action>, c: nat, sofar: seq<Reply>): seq<Reply>
    requires Possible(cfg, s, run)
    decreases |run|
  {
    if run == [] then sofar
    else Replies(cfg, Do(cfg, s, run[0]), run[1..], c, sofar + ReplyIn(s, run[0], c))
  }

  lemma StepReplies(cfg: Config, s: State, a: Action, c: nat)
    requires Enabled(cfg, s, a) && c < |s.convs|
    ensures c < |Do(cfg, s, a).convs|
    ensures Do(cfg, s, a).convs[c].replies == s.convs[c].replies + ReplyIn(s, a, c)
  {
    hide TotalTurns;
  }

  lemma {:induction false} RunReplies(cfg: Config, s: State, run: seq<Action>, c: nat)
    requires Possible(cfg, s, run) && c < |s.convs|
    ensures c < |Exec(cfg, s, run).convs|
    ensures Exec(cfg, s, run).convs[c].replies == Replies(cfg, s, run, c, s.convs[c].replies)
    decreases |run|
  {
    hide Enabled, Do, ReplyIn;
    if run != [] {
      StepReplies(cfg, s, run[0], c);
      RunReplies(cfg, Do(cfg, s, run[0]), run[1..], c);
    }
  }

  /** The message list of a queued or waiting conversation is its prompts and the server's answers in turn, read off the
      run. */
  lemma MessagesOfRun(cfg: Config, run: seq<Action>, c: nat)
    requires Possible(cfg, Start(cfg), run) && c < |cfg.convs|
    ensures var s, replies := Exec(cfg, Start(cfg), run), Replies(cfg, Start(cfg), run, c, []);
            && c < |s.convs| && |replies| <= |cfg.convs[c]|
            && (Times(s.queue, c) + Times(s.waiting, c) + Times(s.returning, c) > 0 ==>
                  s.convs[c].messages == Dialogue(cfg.convs[c], replies))
            && (Times(s.active, c) > 0 ==>
                  |replies| < |cfg.convs[c]|
                  && s.convs[c].messages == Dialogue(cfg.convs[c], replies) + [User(cfg.convs[c][|replies|].prompt)])
  {
    assert c < |Start(cfg).convs| && Start(cfg).convs[c].replies == [];
    hide Possible, Exec, Replies, Start, Dialogue, Times;
    RunReplies(cfg, Start(cfg), run, c);
    ContextAtTurn(cfg, run, c);
  }
}
