/** Sums and counts over clients, and the round arithmetic of the multi-turn workload
    generator (benchmark/hicache/bench_multiturn.py, WorkloadGenerator.__init__). */
module Rounds {
  import opened Common

  function Sum(s: seq<nat>): nat {
    if s == [] then 0 else Sum(s[..|s| - 1]) + s[|s| - 1]
  }

  lemma {:induction false} SumUpdate(s: seq<nat>, i: nat, v: nat)
    requires i < |s|
    ensures s[i] <= Sum(s) && Sum(s[i := v]) == Sum(s) - s[i] + v
  {
    var front := s[..|s| - 1];
    if i < |s| - 1 {
      SumUpdate(front, i, v);
      assert s[i := v][..|s| - 1] == front[i := v];
    } else {
      assert s[i := v][..|s| - 1] == front;
    }
  }

  lemma {:induction false} SumAtLeast(s: seq<nat>, i: nat)
    requires i < |s|
    ensures s[i] <= Sum(s)
  {
    SumUpdate(s, i, 0);
  }

  lemma {:induction false} SumZero(s: seq<nat>)
    requires forall i | 0 <= i < |s| :: s[i] == 0
    ensures Sum(s) == 0
  {
    if s != [] {
      SumZero(s[..|s| - 1]);
    }
  }

  lemma {:induction false} SumMonotone(s: seq<nat>, t: seq<nat>)
    requires |s| == |t| && forall i | 0 <= i < |s| :: s[i] <= t[i]
    ensures Sum(s) <= Sum(t)
    ensures Sum(s) == Sum(t) ==> s == t
  {
    if s != [] {
      SumMonotone(s[..|s| - 1], t[..|t| - 1]);
      assert s == s[..|s| - 1] + [s[|s| - 1]] && t == t[..|t| - 1] + [t[|t| - 1]];
    }
  }

  function Plus(s: seq<nat>, t: seq<nat>): (r: seq<nat>)
    requires |s| == |t|
    ensures |r| == |s|
  {
    seq(|s|, i requires 0 <= i < |s| => s[i] + t[i])
  }

  lemma {:induction false} SumPlus(s: seq<nat>, t: seq<nat>)
    requires |s| == |t|
    ensures Sum(Plus(s, t)) == Sum(s) + Sum(t)
  {
    if s != [] {
      SumPlus(s[..|s| - 1], t[..|t| - 1]);
      assert Plus(s, t)[..|s| - 1] == Plus(s[..|s| - 1], t[..|t| - 1]);
    }
  }

  /** One at the members of a set. */
  ghost function Marks(n: nat, members: set<nat>): (r: seq<nat>)
    ensures |r| == n
  {
    seq(n, c requires 0 <= c => if c in members then 1 else 0)
  }

  lemma {:induction false} SumMarks(n: nat, members: set<nat>)
    requires forall c: nat | c in members :: c < n
    ensures Sum(Marks(n, members)) == |members|
  {
    if n == 0 {
      assert members == {};
    } else {
      SumMarks(n - 1, members - {n - 1});
      assert Marks(n, members)[..n - 1] == Marks(n - 1, members - {n - 1});
    }
  }

  // ----- Round counts ---------------------------------------------------------------

  datatype Limits = Limits(min: int, max: int)

  /** Which bounds --min-rounds, --max-rounds and --num-rounds select, or why they are
      rejected. */
  function ResolveRounds(minRounds: int, maxRounds: int, numRounds: int): (r: Result<Limits>)
    ensures r.Ok? ==> 1 <= r.value.min <= r.value.max
    ensures r.Ok? && minRounds != 0 && maxRounds != 0 ==> r.value == Limits(minRounds, maxRounds)
    ensures r.Ok? && minRounds == 0 && maxRounds != 0 ==> r.value == Limits(maxRounds, maxRounds)
    ensures r.Ok? && minRounds != 0 && maxRounds == 0 ==> r.value == Limits(minRounds, minRounds)
    ensures r.Ok? && minRounds == maxRounds == 0 ==> r.value == Limits(numRounds, numRounds)
    ensures r.Err? <==> (minRounds == 0 && maxRounds == 0 && numRounds < 1)
                        || minRounds < 0 || maxRounds < 0 || (maxRounds != 0 && maxRounds < minRounds)
  {
    var limits :=
      if minRounds == 0 && maxRounds == 0 then Limits(numRounds, numRounds)
      else if minRounds == 0 then Limits(maxRounds, maxRounds)
      else if maxRounds == 0 then Limits(minRounds, minRounds)
      else Limits(minRounds, maxRounds);
    if limits.min < 1 then Err("--min-rounds must be >= 1")
    else if limits.min > limits.max then Err("--min-rounds must be <= --max-rounds")
    else Ok(limits)
  }

  /** clients_per_round[r]: how many clients take part in round r. */
  function ClientsInRound(totals: seq<nat>, r: nat): nat {
    if totals == [] then 0
    else ClientsInRound(totals[..|totals| - 1], r) + if totals[|totals| - 1] > r then 1 else 0
  }

  ghost function Participants(totals: seq<nat>, r: nat): set<nat> {
    set c: nat | c < |totals| && totals[c] > r
  }

  lemma {:induction false} ParticipantsCounted(totals: seq<nat>, r: nat)
    ensures |Participants(totals, r)| == ClientsInRound(totals, r)
  {
    if totals != [] {
      var n := |totals| - 1;
      var front := totals[..n];
      ParticipantsCounted(front, r);
      if totals[n] > r {
        assert Participants(totals, r) == Participants(front, r) + {n};
      } else {
        assert Participants(totals, r) == Participants(front, r);
      }
    }
  }

  /** The list that the constructor computes. */
  function ClientsPerRound(totals: seq<nat>, maxRounds: nat): (s: seq<nat>)
    ensures |s| == maxRounds
  {
    seq(maxRounds, r requires 0 <= r => ClientsInRound(totals, r))
  }

  /** Later rounds have no more clients than earlier ones. */
  lemma {:induction false} NonIncreasing(totals: seq<nat>, r: nat, q: nat)
    requires r <= q
    ensures ClientsInRound(totals, q) <= ClientsInRound(totals, r)
  {
    if totals != [] {
      NonIncreasing(totals[..|totals| - 1], r, q);
    }
  }

  lemma {:induction false} SumPerRound(totals: seq<nat>, t: nat, m: nat)
    ensures Sum(ClientsPerRound(totals + [t], m)) == Sum(ClientsPerRound(totals, m)) + if t < m then t else m
  {
    if m > 0 {
      SumPerRound(totals, t, m - 1);
      var all, some := ClientsPerRound(totals + [t], m), ClientsPerRound(totals, m);
      assert all[..m - 1] == ClientsPerRound(totals + [t], m - 1);
      assert some[..m - 1] == ClientsPerRound(totals, m - 1);
      assert (totals + [t])[..|totals|] == totals;
    }
  }

  /** Counting requests by round or by client gives the same total. */
  lemma {:induction false} RoundsAddUp(totals: seq<nat>, maxRounds: nat)
    requires forall c | 0 <= c < |totals| :: totals[c] <= maxRounds
    ensures Sum(ClientsPerRound(totals, maxRounds)) == Sum(totals)
  {
    if totals == [] {
      SumZero(ClientsPerRound(totals, maxRounds));
    } else {
      var n := |totals| - 1;
      RoundsAddUp(totals[..n], maxRounds);
      SumPerRound(totals[..n], totals[n], maxRounds);
      assert totals[..n] + [totals[n]] == totals;
    }
  }
}
