/** The mixed multi-user workload (benchmark/hicache/bench_mix.py): where a returning user enters the
    timed queue, and what the per-round statistics conserve. */
module UserFlow {
  import opened Rounds

  // ----- The timed queue -----------------------------------------------------------------

  ghost predicate Ordered(q: seq<int>) {
    forall i, j | 0 <= i < j < |q| :: q[i] <= q[j]
  }

  /** The first entry from `k` on that starts strictly later than `x`, or the length. */
  function FirstLater(q: seq<int>, x: int, k: nat): (i: nat)
    requires k <= |q|
    ensures k <= i <= |q|
    ensures forall j | k <= j < i :: q[j] <= x
    ensures i < |q| ==> x < q[i]
    decreases |q| - k
  {
    if k == |q| || x < q[k] then k else FirstLater(q, x, k + 1)
  }

  /** The index the code uses: the scan's loop variable, which stays on the last entry when no entry
      starts later. */
  function UsedIndex(q: seq<int>, x: int): (i: nat)
    ensures i <= |q|
  {
    if q == [] then 0
    else
      var i := FirstLater(q, x, 0);
      if i == |q| then |q| - 1 else i
  }

  function InsertAt<T>(q: seq<T>, i: nat, x: T): seq<T>
    requires i <= |q|
  {
    q[..i] + [x] + q[i..]
  }

  /** The queue of start times after push. */
  function Pushed(q: seq<int>, x: int): seq<int> { InsertAt(q, UsedIndex(q, x), x) }

  /** Inserting where the scan stopped would keep the order. */
  lemma ScannedIndexKeepsOrder(q: seq<int>, x: int)
    requires Ordered(q)
    ensures Ordered(InsertAt(q, FirstLater(q, x, 0), x))
  {
    var i := FirstLater(q, x, 0);
    var r := InsertAt(q, i, x);
    assert forall k | 0 <= k < i :: r[k] == q[k];
    assert forall k | i < k < |r| :: r[k] == q[k - 1];
  }

  /** The code inserts there exactly when some queued user starts strictly later, or the queue is
      empty; otherwise the new user lands just before the last one. */
  lemma WhereTheUserLands(q: seq<int>, x: int)
    ensures UsedIndex(q, x) == FirstLater(q, x, 0) <==> q == [] || exists j :: 0 <= j < |q| && x < q[j]
    ensures q != [] && (forall j | 0 <= j < |q| :: q[j] <= x) ==>
              Pushed(q, x) == q[..|q| - 1] + [x] + [q[|q| - 1]]
  {
    var i := FirstLater(q, x, 0);
    if q != [] && (forall j | 0 <= j < |q| :: q[j] <= x) {
      assert i == |q|;
      assert q[|q| - 1..] == [q[|q| - 1]];
    }
  }

  /** On an ordered queue the order survives exactly when the new start is not later than the last. */
  lemma OrderSurvivesIff(q: seq<int>, x: int)
    requires Ordered(q)
    ensures Ordered(Pushed(q, x)) <==> q == [] || x <= q[|q| - 1]
  {
    ScannedIndexKeepsOrder(q, x);
    WhereTheUserLands(q, x);
    if q != [] {
      var n := |q| - 1;
      var r := Pushed(q, x);
      if FirstLater(q, x, 0) == |q| {
        assert r[n] == x && r[n + 1] == q[n];
        if x == q[n] {
          assert forall k | 0 <= k < n :: r[k] == q[k];
        }
      } else {
        assert x < q[FirstLater(q, x, 0)] <= q[n];
      }
    }
  }

  /** pop serves a queued user only if the head is due. On an ordered queue that is whenever anyone is
      due; with the order lost, a due user can be passed over for a new one. */
  lemma HeadSpeaksForQueue(q: seq<int>, now: int)
    requires Ordered(q)
    ensures (q != [] && now > q[0]) <==> exists j :: 0 <= j < |q| && now > q[j]
  {
    if q != [] && now > q[0] {
      assert 0 <= 0 < |q| && now > q[0];
    }
  }

  lemma DueUserCanBePassedOver()
    ensures var q := Pushed([5], 7);
            q == [7, 5] && !(6 > q[0]) && 6 > q[1]
  {
    assert FirstLater([5], 7, 0) == FirstLater([5], 7, 1);
    assert [5][..0] + [7] + [5][0..] == [7, 5];
  }

  // ----- The user generator --------------------------------------------------------------------

  class UserData {
    const userId: nat
    const totalRounds: nat
    var currentRound: nat
    var start: int

    constructor (userId: nat, totalRounds: nat)
      ensures this.userId == userId && this.totalRounds == totalRounds && currentRound == 0 && start == 0
    {
      this.userId, this.totalRounds := userId, totalRounds;
      currentRound, start := 0, 0;
    }
  }

  /** How many rounds a drawn number selects. */
  function RoundsFor(cumulative: seq<int>, drawn: int, k: nat): (total: nat)
    requires k <= |cumulative|
    ensures k < |cumulative| ==> k < total <= |cumulative|
    ensures k == |cumulative| ==> total == |cumulative|
    ensures total > k ==> forall j | k <= j < total - 1 :: drawn >= cumulative[j]
    ensures k < total < |cumulative| ==> drawn < cumulative[total - 1]
    decreases |cumulative| - k
  {
    if k == |cumulative| then |cumulative|
    else if drawn >= cumulative[k] then RoundsFor(cumulative, drawn, k + 1)
    else k + 1
  }

  /** The users of a set whose last round is `r`. */
  ghost function EndingAt(users: set<UserData>, r: int): set<UserData> {
    set u | u in users && u.totalRounds == r + 1
  }

  ghost function Ending(users: set<UserData>, r: int): nat { |EndingAt(users, r)| }

  lemma OneMoreEnding(users: set<UserData>, u: UserData, r: int)
    requires u !in users
    ensures Ending(users + {u}, r) == Ending(users, r) + if u.totalRounds == r + 1 then 1 else 0
  {
    if u.totalRounds == r + 1 {
      assert EndingAt(users + {u}, r) == EndingAt(users, r) + {u};
    } else {
      assert EndingAt(users + {u}, r) == EndingAt(users, r);
    }
  }

  /** How many users of a set have 1, 2, ..., n rounds. */
  ghost function Counts(users: set<UserData>, n: nat): (r: seq<nat>)
    ensures |r| == n && forall i | 0 <= i < n :: r[i] == Ending(users, i)
  {
    seq(n, i requires 0 <= i => Ending(users, i))
  }

  /** Counting by rounds counts everyone. */
  lemma {:induction false} CountsAddUp(users: set<UserData>, n: nat)
    requires forall u | u in users :: 1 <= u.totalRounds <= n
    ensures Sum(Counts(users, n)) == |users|
    decreases users
  {
    if users == {} {
      SumZero(Counts(users, n));
    } else {
      var u :| u in users;
      var rest, k := users - {u}, u.totalRounds - 1;
      CountsAddUp(rest, n);
      assert users == rest + {u};
      forall i | 0 <= i < n
        ensures Counts(users, n)[i] == Counts(rest, n)[k := Counts(rest, n)[k] + 1][i]
      {
        OneMoreEnding(rest, u, i);
      }
      assert Counts(users, n) == Counts(rest, n)[k := Counts(rest, n)[k] + 1];
      SumUpdate(Counts(rest, n), k, Counts(rest, n)[k] + 1);
    }
  }

  /** The three lists of statistics. */
  datatype PerRound = PerRound(users: seq<nat>, inputs: seq<nat>, outputs: seq<nat>)

  /** Users by number of rounds, and for each round: its outputs are the inputs of the next one and the users
      that finished there, those whose last round it was. `extra` is a round whose output has just
      been counted, if any. */
  ghost predicate Tallied(n: nat, ids: nat, s: PerRound, all: set<UserData>, gone: set<UserData>, extra: int) {
    && 1 <= n == |s.users| == |s.inputs| == |s.outputs|
    && s.inputs[0] == ids
    && (forall r | 0 <= r < n :: s.users[r] == Ending(all, r))
    && (forall r | 0 <= r < n ::
          s.outputs[r] == (if r + 1 < n then s.inputs[r + 1] else 0) + Ending(gone, r) + if r == extra then 1 else 0)
  }

  lemma TallyNewUser(n: nat, ids: nat, s: PerRound, all: set<UserData>, gone: set<UserData>, u: UserData)
    requires Tallied(n, ids, s, all, gone, -1) && u !in all && 1 <= u.totalRounds <= n
    ensures var k := u.totalRounds - 1;
            var s' := s.(users := s.users[k := s.users[k] + 1], inputs := s.inputs[0 := s.inputs[0] + 1]);
            Tallied(n, ids + 1, s', all + {u}, gone, -1)
  {
    hide Ending;
    forall r | 0 <= r < n ensures Ending(all + {u}, r) == Ending(all, r) + if u.totalRounds == r + 1 then 1 else 0 {
      OneMoreEnding(all, u, r);
    }
  }

  lemma TallyOutput(n: nat, ids: nat, s: PerRound, all: set<UserData>, gone: set<UserData>, k: nat)
    requires Tallied(n, ids, s, all, gone, -1) && k < n
    ensures Tallied(n, ids, s.(outputs := s.outputs[k := s.outputs[k] + 1]), all, gone, k)
  {
    hide Ending;
  }

  lemma TallyLastRound(n: nat, ids: nat, s: PerRound, all: set<UserData>, gone: set<UserData>, u: UserData)
    requires 1 <= u.totalRounds <= n && Tallied(n, ids, s, all, gone, u.totalRounds - 1) && u !in gone
    ensures Tallied(n, ids, s, all, gone + {u}, -1)
  {
    hide Ending;
    forall r | 0 <= r < n ensures Ending(gone + {u}, r) == Ending(gone, r) + if u.totalRounds == r + 1 then 1 else 0 {
      OneMoreEnding(gone, u, r);
    }
  }

  lemma TallyInput(n: nat, ids: nat, s: PerRound, all: set<UserData>, gone: set<UserData>, k: nat)
    requires Tallied(n, ids, s, all, gone, k) && k + 1 < n
    ensures Tallied(n, ids, s.(inputs := s.inputs[k + 1 := s.inputs[k + 1] + 1]), all, gone, -1)
  {
    hide Ending;
  }

  class UserGenerator {
    const numRounds: nat
    const cumulative: seq<int>
    var nextId: nat
    var queue: seq<UserData>
    var userStats: seq<nat>    // users per number of rounds
    var inputStats: seq<nat>   // inputs given per round
    var outputStats: seq<nat>  // outputs received per round
    ghost var all: set<UserData>   // every user generated
    ghost var out: set<UserData>   // handed out and not pushed back
    ghost var gone: set<UserData>  // through with their last round

    /** A user that has rounds to go. */
    ghost predicate Live(u: UserData)
      reads u
    {
      u.currentRound < u.totalRounds <= numRounds
    }

    ghost function Stats(): PerRound
      reads this
    {
      PerRound(userStats, inputStats, outputStats)
    }

    ghost predicate Shape()
      reads this
    {
      && 1 <= numRounds == |cumulative|
      && |userStats| == |inputStats| == |outputStats| == numRounds
      && (forall u | u in all :: 1 <= u.totalRounds <= numRounds)
    }

    /** Every generated user is queued, handed out or gone, and in only one of these. */
    ghost predicate Partitioned()
      reads this
    {
      && (forall i, j | 0 <= i < j < |queue| :: queue[i] != queue[j])
      && (forall u | u in queue :: u !in out && u !in gone)
      && out !! gone
      && (forall u | u in queue :: u in all) && out <= all && gone <= all
      && (forall u | u in all :: u in queue || u in out || u in gone)
      && nextId == |queue| + |out| + |gone| == |all|
    }

    ghost predicate Valid()
      reads this, queue, out
    {
      && Shape() && Partitioned() && Tallied(numRounds, nextId, Stats(), all, gone, -1)
      && (forall u | u in queue :: Live(u))
      && (forall u | u in out :: Live(u))
    }

    /** The statistics add up to the users generated and to the users that finished. */
    lemma StatsAddUp()
      requires Valid()
      ensures Sum(userStats) == nextId == |queue| + |out| + |gone|
      ensures Sum(Counts(gone, numRounds)) == |gone|
    {
      CountsAddUp(all, numRounds);
      CountsAddUp(gone, numRounds);
      assert userStats == Counts(all, numRounds);
    }

    constructor (cumulative: seq<int>)
      requires cumulative != []
      ensures Valid() && nextId == 0 && queue == [] && out == {}
    {
      numRounds, this.cumulative := |cumulative|, cumulative;
      nextId, queue, all, out, gone := 0, [], {}, {}, {};
      userStats, inputStats, outputStats := Zeros(|cumulative|), Zeros(|cumulative|), Zeros(|cumulative|);
    }

    /** The scan of the cumulative ratios. */
    method ChooseRounds(drawn: int) returns (total: nat)
      requires |cumulative| == numRounds
      ensures total == RoundsFor(cumulative, drawn, 0)
    {
      total := numRounds;
      for idx := 0 to numRounds
        invariant RoundsFor(cumulative, drawn, 0) == RoundsFor(cumulative, drawn, idx)
        invariant total == numRounds
      {
        if drawn < cumulative[idx] {
          return idx + 1;
        }
      }
    }

    /** A new user, with as many rounds as the drawn number selects. */
    method Gen(drawn: int) returns (u: UserData)
      requires Valid()
      modifies this
      ensures Valid() && fresh(u) && out == old(out) + {u} && queue == old(queue) && gone == old(gone)
      ensures all == old(all) + {u}
      ensures u.currentRound == 0 && u.start == 0 && u.userId == old(nextId) && nextId == old(nextId) + 1
      ensures u.totalRounds == RoundsFor(cumulative, drawn, 0)
      ensures outputStats == old(outputStats)
      ensures inputStats == old(inputStats)[0 := old(inputStats)[0] + 1]
      ensures userStats == old(userStats)[u.totalRounds - 1 := old(userStats)[u.totalRounds - 1] + 1]
    {
      var total := ChooseRounds(drawn);
      u := new UserData(nextId, total);
      Admit(u);
    }

    /** Count a new user in. */
    method Admit(u: UserData)
      requires Valid() && u !in all && u.currentRound == 0 && 1 <= u.totalRounds <= numRounds
      modifies this`nextId, this`inputStats, this`userStats, this`all, this`out
      ensures Valid() && nextId == old(nextId) + 1 && all == old(all) + {u} && out == old(out) + {u}
      ensures inputStats == old(inputStats)[0 := old(inputStats)[0] + 1]
      ensures userStats == old(userStats)[u.totalRounds - 1 := old(userStats)[u.totalRounds - 1] + 1]
    {
      hide Tallied;
      TallyNewUser(numRounds, nextId, Stats(), all, gone, u);
      nextId := nextId + 1;
      inputStats := inputStats[0 := inputStats[0] + 1];
      userStats := userStats[u.totalRounds - 1 := userStats[u.totalRounds - 1] + 1];
      all, out := all + {u}, out + {u};
    }

    /** Hand out the head of the queue if it is due, else a new user. */
    method Pop(now: int, drawn: int) returns (u: UserData)
      requires Valid()
      modifies this
      ensures Valid() && u in out && u !in old(out) && out == old(out) + {u} && gone == old(gone)
      ensures old(queue) != [] && now > old(queue[0].start) ==> u == old(queue)[0] && queue == old(queue)[1..]
      ensures !(old(queue) != [] && now > old(queue[0].start)) ==> fresh(u) && queue == old(queue)
    {
      if |queue| > 0 && now > queue[0].start {
        u := queue[0];
        assert u in queue;
        queue := queue[1..];
        out := out + {u};
      } else {
        u := Gen(drawn);
      }
    }

    /** The scan for the insertion index, with the index the code goes on to use. */
    method Scan(start: int) returns (idx: nat)
      ensures idx == UsedIndex(Starts(queue), start)
    {
      if |queue| == 0 {
        return 0;
      }
      idx := 0;
      var i := |queue|;
      while true
        invariant idx < |queue| && i == |queue|
        invariant FirstLater(Starts(queue), start, 0) == FirstLater(Starts(queue), start, idx)
        decreases |queue| - idx
      {
        if start < queue[idx].start {
          i := idx;
          break;
        }
        if idx + 1 == |queue| {
          break;
        }
        idx := idx + 1;
      }
    }

    /** User `u` has been counted out of round `r` and is nowhere else yet. */
    ghost predicate Between(u: UserData, r: nat)
      reads this, queue, out
    {
      && Shape() && r < numRounds && u in all
      && (forall i, j | 0 <= i < j < |queue| :: queue[i] != queue[j])
      && (forall v | v in queue :: v !in out && v !in gone && v != u)
      && out !! gone && u !in out && u !in gone
      && (forall v | v in queue :: v in all) && out <= all && gone <= all
      && (forall v | v in all :: v in queue || v in out || v in gone || v == u)
      && nextId == |queue| + |out| + |gone| + 1 == |all|
      && Tallied(numRounds, nextId, Stats(), all, gone, r)
      && (forall v | v in queue :: Live(v))
      && (forall v | v in out :: Live(v))
    }

    /** The last round is over. */
    ghost method Retire(u: UserData, r: nat)
      requires Between(u, r) && u.totalRounds == r + 1
      modifies this`gone
      ensures Valid() && gone == old(gone) + {u}
    {
      hide Tallied;
      TallyLastRound(numRounds, nextId, Stats(), all, gone, u);
      gone := gone + {u};
    }

    /** Give the user its next input and queue it. */
    method Enqueue(u: UserData, r: nat, start: int)
      requires Between(u, r) && u.currentRound == r + 1 && Live(u)
      modifies this`inputStats, this`queue, u`start
      ensures Valid() && queue == InsertAt(old(queue), UsedIndex(old(Starts(queue)), start), u)
      ensures r + 1 < |old(inputStats)| && inputStats == old(inputStats)[r + 1 := old(inputStats)[r + 1] + 1]
      ensures u.start == start && Starts(queue) == Pushed(old(Starts(queue)), start)
    {
      hide UsedIndex, Tallied;
      TallyInput(numRounds, nextId, Stats(), all, gone, r);
      inputStats := inputStats[r + 1 := inputStats[r + 1] + 1];
      u.start := start;
      var idx := Scan(start);
      assert Starts(queue) == old(Starts(queue));
      InsertedMembers(queue, idx, u);
      queue := InsertAt(queue, idx, u);
      StartsInserted(old(queue), idx, u);
    }

    /** Count the output of a handed-out user, which is nowhere for the moment. */
    method CountOutput(u: UserData)
      requires Valid() && u in out
      modifies this`outputStats, this`out, u`currentRound
      ensures u.currentRound == old(u.currentRound) + 1 && Between(u, old(u.currentRound))
      ensures u.currentRound <= u.totalRounds <= numRounds && out == old(out) - {u}
      ensures old(u.currentRound) < |old(outputStats)|
      ensures outputStats == old(outputStats)[old(u.currentRound) := old(outputStats)[old(u.currentRound)] + 1]
      ensures Starts(queue) == old(Starts(queue)) && u.start == old(u.start)
    {
      hide Tallied;
      var r := u.currentRound;
      TallyOutput(numRounds, nextId, Stats(), all, gone, r);
      assert u !in queue;
      outputStats := outputStats[r := outputStats[r] + 1];
      u.currentRound := r + 1;
      out := out - {u};
    }

    lemma LiveAgain(u: UserData)
      requires u.currentRound < u.totalRounds <= numRounds
      ensures Live(u)
    {
    }

    /** The response of a handed-out user: count it, and queue the user unless it was the last round. */
    method Push(u: UserData, start: int)
      requires Valid() && u in out
      modifies this, u
      ensures Valid() && out == old(out) - {u} && u.currentRound == old(u.currentRound) + 1
      ensures outputStats == old(outputStats)[old(u.currentRound) := old(outputStats)[old(u.currentRound)] + 1]
      ensures all == old(all) && userStats == old(userStats) && nextId == old(nextId)
      ensures u.currentRound >= u.totalRounds ==>
                && gone == old(gone) + {u} && queue == old(queue) && inputStats == old(inputStats)
                && Starts(queue) == old(Starts(queue)) && u.start == old(u.start)
      ensures u.currentRound < u.totalRounds ==>
                && gone == old(gone)
                && u.currentRound < |old(inputStats)|
                && inputStats == old(inputStats)[u.currentRound := old(inputStats)[u.currentRound] + 1]
                && queue == InsertAt(old(queue), UsedIndex(old(Starts(queue)), start), u)
                && u.start == start && Starts(queue) == Pushed(old(Starts(queue)), start)
    {
      hide *;
      var r := u.currentRound;
      CountOutput(u);
      if u.currentRound >= u.totalRounds {
        Retire(u, r);
        return;
      }
      LiveAgain(u);
      Enqueue(u, r, start);
    }
  }

  lemma StartsInserted(queue: seq<UserData>, i: nat, u: UserData)
    requires i <= |queue|
    ensures Starts(InsertAt(queue, i, u)) == InsertAt(Starts(queue), i, u.start)
  {
  }

  lemma InsertedMembers(queue: seq<UserData>, i: nat, u: UserData)
    requires i <= |queue| && u !in queue && forall j, k | 0 <= j < k < |queue| :: queue[j] != queue[k]
    ensures forall v :: v in InsertAt(queue, i, u) <==> v in queue || v == u
    ensures var q := InsertAt(queue, i, u);
            |q| == |queue| + 1 && forall j, k | 0 <= j < k < |q| :: q[j] != q[k]
  {
    var q := InsertAt(queue, i, u);
    forall v | v in queue ensures v in q {
      var j :| 0 <= j < |queue| && queue[j] == v;
      assert q[if j < i then j else j + 1] == v;
    }
    assert q[i] == u;
  }

  function Zeros(n: nat): (z: seq<nat>)
    ensures |z| == n && forall i | 0 <= i < n :: z[i] == 0
  {
    seq(n, _ => 0)
  }

  function Starts(queue: seq<UserData>): (r: seq<int>)
    reads queue
    ensures |r| == |queue|
  {
    seq(|queue|, i requires 0 <= i < |queue| reads queue => queue[i].start)
  }
}
