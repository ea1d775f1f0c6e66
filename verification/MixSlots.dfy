/** The window of parallel requests in the mixed workload (benchmark/hicache/bench_mix.py). A failed
    response raises in the handler before the completed counter is reached, so its place in the
    window is never given back. */
module MixSlots {

  /** Idle: at the top of the loop. Sent: past the increment, about to look at the clock. Sleeping: awaiting
      a short sleep because the window is full. */
  datatype Sender = Idle | Checked | Sent | Sleeping | Done

  /** `lost` counts the failed responses that have been handled; a history variable. */
  datatype State = State(sent: nat, completed: nat, inFlight: nat, responses: seq<bool>, sender: Sender, lost: nat)

  const Start := State(0, 0, 0, [], Idle, 0)

  /** Check to Wake are the sender's steps, Respond and Break those of the request tasks, Handle the handler's.
      The tasks share the sender's event loop, so they get on only while it sleeps; the
      handler is a thread of its own. Tick leaves the loop when the time is over, and the tasks left are
      cancelled. */
  datatype Action = Check | Send | Tick(expired: bool) | Sleep | Wake | Respond(ok: bool) | Break | Handle

  predicate Enabled(maxParallel: int, s: State, a: Action) {
    match a
    case Check => s.sender.Idle? && s.sent - s.completed < maxParallel
    case Send => s.sender.Checked?
    case Tick(_) => s.sender.Sent?
    case Sleep => s.sender.Idle? && s.sent - s.completed >= maxParallel
    case Wake => s.sender.Sleeping?
    case Respond(_) => s.sender.Sleeping? && s.inFlight > 0
    case Break => s.sender.Sleeping? && s.inFlight > 0
    case Handle => s.responses != []
  }

  function Do(maxParallel: int, s: State, a: Action): State
    requires Enabled(maxParallel, s, a)
  {
    match a
    case Check => s.(sender := Checked)
    case Send => s.(sender := Sent, sent := s.sent + 1, inFlight := s.inFlight + 1)
    case Tick(expired) => s.(sender := if expired then Done else Idle)
    case Sleep => s.(sender := Sleeping)
    case Wake => s.(sender := Idle)
    case Respond(ok) => s.(inFlight := s.inFlight - 1, responses := s.responses + [ok])
    case Break => s.(inFlight := s.inFlight - 1, completed := s.completed + 1)
    case Handle =>
      if s.responses[0] then s.(responses := s.responses[1..], completed := s.completed + 1)
      else s.(responses := s.responses[1..], lost := s.lost + 1)
  }

  ghost predicate Possible(maxParallel: int, s: State, run: seq<Action>)
    decreases |run|
  {
    run != [] ==> Enabled(maxParallel, s, run[0]) && Possible(maxParallel, Do(maxParallel, s, run[0]), run[1..])
  }

  ghost function Exec(maxParallel: int, s: State, run: seq<Action>): State
    requires Possible(maxParallel, s, run)
    decreases |run|
  {
    if run == [] then s else Exec(maxParallel, Do(maxParallel, s, run[0]), run[1..])
  }

  /** Sent minus completed counts outstanding requests and every failure so far. */
  ghost predicate Accounted(maxParallel: int, s: State) {
    && s.sent == s.completed + s.inFlight + |s.responses| + s.lost
    && (s.sender.Checked? ==> s.sent - s.completed < maxParallel)
    && (s.sent > s.completed ==> s.sent - s.completed <= maxParallel)
  }

  lemma {:induction false} RunIsAccounted(maxParallel: int, s: State, run: seq<Action>)
    requires Accounted(maxParallel, s) && Possible(maxParallel, s, run)
    ensures Accounted(maxParallel, Exec(maxParallel, s, run))
    decreases |run|
  {
    if run != [] {
      RunIsAccounted(maxParallel, Do(maxParallel, s, run[0]), run[1..]);
    }
  }

  /** In every reachable state the failures and the outstanding requests share the window, and the
      sender can go on exactly when they leave room. */
  lemma FailuresUseUpTheWindow(maxParallel: int, run: seq<Action>)
    requires Possible(maxParallel, Start, run)
    ensures var s := Exec(maxParallel, Start, run);
            && s.sent - s.completed == s.inFlight + |s.responses| + s.lost
            && s.inFlight + |s.responses| + s.lost <= (if maxParallel < 0 then 0 else maxParallel)
            && (s.sender.Idle? ==>
                  (Enabled(maxParallel, s, Check) <==> s.inFlight + |s.responses| + s.lost < maxParallel))
  {
    RunIsAccounted(maxParallel, Start, run);
  }

  // ----- When the benchmark hangs -----------------------------------------------------------

  /** Steps that move a request on; the others only sleep and look again. */
  predicate Productive(a: Action) { !a.Sleep? && !a.Wake? }

  /** Whatever happens from here on, no request is sent, answered or handled any more. */
  ghost predicate Stuck(maxParallel: int, s: State) {
    forall run, i | Possible(maxParallel, s, run) && 0 <= i < |run| :: !Productive(run[i])
  }

  /** No response waits, and the sender has left, or the failures alone fill the window. */
  predicate WindowLost(maxParallel: int, s: State) {
    && s.responses == []
    && (s.sender.Done? || ((s.sender.Idle? || s.sender.Sleeping?) && s.inFlight == 0 && s.lost >= maxParallel))
  }

  lemma {:induction false} LostForGood(maxParallel: int, s: State, run: seq<Action>, i: nat)
    requires Accounted(maxParallel, s) && WindowLost(maxParallel, s) && Possible(maxParallel, s, run) && i < |run|
    ensures !Productive(run[i])
    decreases |run|
  {
    if i > 0 {
      LostForGood(maxParallel, Do(maxParallel, s, run[0]), run[1..], i - 1);
    }
  }

  /** One more step in front of a run. */
  lemma Before(maxParallel: int, s: State, a: Action, rest: seq<Action>) returns (run: seq<Action>)
    requires Enabled(maxParallel, s, a) && Possible(maxParallel, Do(maxParallel, s, a), rest)
    ensures run == [a] + rest && Possible(maxParallel, s, run)
    ensures Exec(maxParallel, s, run) == Exec(maxParallel, Do(maxParallel, s, a), rest)
  {
    run := [a] + rest;
    assert run[1..] == rest;
  }

  lemma Now(maxParallel: int, s: State, a: Action)
    requires Enabled(maxParallel, s, a) && Productive(a)
    ensures !Stuck(maxParallel, s)
  {
    var run := Before(maxParallel, s, a, []);
    assert Productive(run[0]);
  }

  lemma Later(maxParallel: int, s: State, a: Action)
    requires Enabled(maxParallel, s, a) && !Stuck(maxParallel, Do(maxParallel, s, a))
    ensures !Stuck(maxParallel, s)
  {
    var rest, i :| Possible(maxParallel, Do(maxParallel, s, a), rest) && 0 <= i < |rest| && Productive(rest[i]);
    var run := Before(maxParallel, s, a, rest);
    assert run[i + 1] == rest[i];
  }

  lemma CanGoOn(maxParallel: int, s: State)
    requires Accounted(maxParallel, s) && !WindowLost(maxParallel, s)
    ensures !Stuck(maxParallel, s)
  {
    hide Stuck;
    if s.responses != [] {
      Now(maxParallel, s, Handle);
    } else if s.sender.Checked? {
      Now(maxParallel, s, Send);
    } else if s.sender.Sent? {
      Now(maxParallel, s, Tick(true));
    } else if s.inFlight > 0 {
      if s.sender.Sleeping? {
        Now(maxParallel, s, Break);
      } else if s.sent - s.completed < maxParallel {
        Now(maxParallel, s, Check);
      } else {
        Now(maxParallel, Do(maxParallel, s, Sleep), Break);
        Later(maxParallel, s, Sleep);
      }
    } else if s.sender.Idle? {
      Now(maxParallel, s, Check);
    } else {
      Now(maxParallel, Do(maxParallel, s, Wake), Check);
      Later(maxParallel, s, Wake);
    }
  }

  /** A reachable state is stuck exactly when no response waits and the sender has left, or nothing is in flight
      and the failures alone fill the window. In the second case the sender never leaves: it looks
      at the clock only after sending. */
  lemma StuckIff(maxParallel: int, run: seq<Action>)
    requires Possible(maxParallel, Start, run)
    ensures var s := Exec(maxParallel, Start, run); Stuck(maxParallel, s) <==> WindowLost(maxParallel, s)
  {
    RunIsAccounted(maxParallel, Start, run);
    var s := Exec(maxParallel, Start, run);
    if WindowLost(maxParallel, s) {
      forall more, i | Possible(maxParallel, s, more) && 0 <= i < |more| ensures !Productive(more[i]) {
        LostForGood(maxParallel, s, more, i);
      }
    } else {
      CanGoOn(maxParallel, s);
    }
  }

  // ----- Failures do fill the window ------------------------------------------------------------

  /** Handles `n` failed responses. */
  lemma {:induction false} HandleAll(maxParallel: int, s: State, n: nat) returns (run: seq<Action>)
    requires |s.responses| == n && forall i | 0 <= i < n :: !s.responses[i]
    ensures Possible(maxParallel, s, run)
    ensures Exec(maxParallel, s, run) == s.(responses := [], lost := s.lost + n)
    decreases n
  {
    run := [];
    if n > 0 {
      var rest := HandleAll(maxParallel, Do(maxParallel, s, Handle), n - 1);
      run := Before(maxParallel, s, Handle, rest);
    }
  }

  /** Lets `n` requests fail while the sender sleeps, and handles the failures. */
  lemma {:induction false} FailAll(maxParallel: int, s: State, n: nat) returns (run: seq<Action>)
    requires s.sender.Sleeping? && s.inFlight == n && forall i | 0 <= i < |s.responses| :: !s.responses[i]
    ensures Possible(maxParallel, s, run)
    ensures Exec(maxParallel, s, run) == s.(inFlight := 0, responses := [], lost := s.lost + |s.responses| + n)
    decreases n
  {
    if n == 0 {
      run := HandleAll(maxParallel, s, |s.responses|);
    } else {
      var rest := FailAll(maxParallel, Do(maxParallel, s, Respond(false)), n - 1);
      run := Before(maxParallel, s, Respond(false), rest);
    }
  }

  /** Sends until the window is full, then lets everything fail. */
  lemma {:induction false} FillAndFail(maxParallel: nat, s: State, n: nat) returns (run: seq<Action>)
    requires n <= maxParallel && s == State(maxParallel - n, 0, maxParallel - n, [], Idle, 0)
    ensures Possible(maxParallel, s, run)
    ensures Exec(maxParallel, s, run) == State(maxParallel, 0, 0, [], Sleeping, maxParallel)
    decreases n
  {
    if n == 0 {
      var rest := FailAll(maxParallel, Do(maxParallel, s, Sleep), maxParallel);
      run := Before(maxParallel, s, Sleep, rest);
    } else {
      var s1 := Do(maxParallel, s, Check);
      var s2 := Do(maxParallel, s1, Send);
      var rest := FillAndFail(maxParallel, Do(maxParallel, s2, Tick(false)), n - 1);
      rest := Before(maxParallel, s2, Tick(false), rest);
      rest := Before(maxParallel, s1, Send, rest);
      run := Before(maxParallel, s, Check, rest);
    }
  }

  /** For every limit: send as many requests as fit, let all of them fail, and nothing moves any more. */
  lemma FailuresCanFillTheWindow(maxParallel: nat) returns (run: seq<Action>)
    ensures Possible(maxParallel, Start, run)
    ensures var s := Exec(maxParallel, Start, run);
            s.sent == s.lost == maxParallel && s.sender.Sleeping? && Stuck(maxParallel, s)
  {
    run := FillAndFail(maxParallel, Start, maxParallel);
    StuckIff(maxParallel, run);
  }
}
