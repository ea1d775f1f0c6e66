/** Inter-token latencies of a streamed answer (benchmark/hicache/bench_warm_cache.py). Each chunk
    reports how many tokens have been produced so far; the time since the last counted chunk is
    spread evenly over the new tokens. Time stamps are real numbers here. */
module TokenLatency {

  /** A chunk that carries text: when it arrived and the tokens produced so far. */
  datatype Chunk = Chunk(time: real, tokens: int)

  function Total(s: seq<real>): real {
    if s == [] then 0.0 else Total(s[..|s| - 1]) + s[|s| - 1]
  }

  /** [x] * n, which is empty for a negative n. */
  function Copies(x: real, n: int): seq<real> {
    if n <= 0 then [] else Copies(x, n - 1) + [x]
  }

  lemma OneMore(a: real, x: real)
    ensures (a + 1.0) * x == a * x + x
  {
  }

  lemma CopiesSnoc(x: real, n: int)
    ensures n <= 0 ==> Copies(x, n) == []
    ensures n > 0 ==> Copies(x, n) == Copies(x, n - 1) + [x]
  {
  }

  lemma TotalSnoc(s: seq<real>, x: real)
    ensures Total([]) == 0.0 && Total(s + [x]) == Total(s) + x
  {
    assert (s + [x])[..|s|] == s;
  }

  lemma {:induction false} CopiesAdd(x: real, n: nat)
    ensures |Copies(x, n)| == n && Total(Copies(x, n)) == n as real * x
  {
    hide Copies, Total;
    CopiesSnoc(x, n);
    if n > 0 {
      CopiesAdd(x, n - 1);
      TotalSnoc(Copies(x, n - 1), x);
      assert n as real == (n - 1) as real + 1.0;
      OneMore((n - 1) as real, x);
    } else {
      TotalSnoc([], x);
    }
  }

  lemma {:induction false} TotalConcat(s: seq<real>, t: seq<real>)
    ensures Total(s + t) == Total(s) + Total(t)
  {
    if t == [] {
      assert s + t == s;
    } else {
      assert (s + t)[..|s + t| - 1] == s + t[..|t| - 1];
      TotalConcat(s, t[..|t| - 1]);
    }
  }

  /** Token counts never go back. */
  ghost predicate NonDecreasing(chunks: seq<Chunk>) {
    forall i, j | 0 <= i < j < |chunks| :: chunks[i].tokens <= chunks[j].tokens
  }

  /** When the last chunk arrived that brought new tokens. */
  function LastCounted(chunks: seq<Chunk>): real
    requires chunks != []
  {
    var n := |chunks| - 1;
    if n == 0 || chunks[n].tokens != chunks[n - 1].tokens then chunks[n].time
    else LastCounted(chunks[..n])
  }

  /** The variables of the loop: first-token time, latencies, last counted time and token count. */
  datatype Tally = Tally(ttft: real, itl: seq<real>, recent: real, lastLen: int)

  /** One chunk. A chunk without progress is skipped, so its time counts for the next one. */
  function Counted(start: real, t: Tally, c: Chunk): Tally {
    if t.ttft == 0.0 then t.(ttft := c.time - start, recent := c.time, lastLen := c.tokens)
    else
      var added := c.tokens - t.lastLen;
      if added == 0 then t
      else
        var each := (c.time - t.recent) / added as real;
        t.(itl := t.itl + Copies(each, added), recent := c.time, lastLen := c.tokens)
  }

  function CountedAll(start: real, chunks: seq<Chunk>): Tally {
    if chunks == [] then Tally(0.0, [], start, 0)
    else Counted(start, CountedAll(start, chunks[..|chunks| - 1]), chunks[|chunks| - 1])
  }

  /** The loop over the stream of a request started at `start`. */
  method Account(start: real, chunks: seq<Chunk>) returns (ttft: real, itl: seq<real>, outputLen: int)
    ensures var t := CountedAll(start, chunks); ttft == t.ttft && itl == t.itl && outputLen == t.lastLen
  {
    ttft, itl, outputLen := 0.0, [], 0;
    var recent, lastLen := start, 0;
    for k := 0 to |chunks|
      invariant Tally(ttft, itl, recent, lastLen) == CountedAll(start, chunks[..k])
      invariant outputLen == lastLen
    {
      assert chunks[..k + 1][..k] == chunks[..k];
      var c := chunks[k];
      if ttft == 0.0 {
        ttft := c.time - start;
      } else {
        var added := c.tokens - lastLen;
        if added == 0 {
          continue;
        }
        var gap := c.time - recent;
        itl := itl + Copies(gap / added as real, added);
      }
      recent, lastLen, outputLen := c.time, c.tokens, c.tokens;
    }
    assert chunks[..|chunks|] == chunks;
  }

  lemma Spread(gap: real, n: int)
    requires n > 0
    ensures Total(Copies(gap / n as real, n)) == gap && |Copies(gap / n as real, n)| == n
  {
    CopiesAdd(gap / n as real, n);
  }

  /** The time between counted chunks across which the count went back. */
  function Lost(chunks: seq<Chunk>): real {
    var n := |chunks| - 1;
    if n <= 0 then 0.0
    else Lost(chunks[..n]) + if chunks[n].tokens < chunks[n - 1].tokens
                             then chunks[n].time - LastCounted(chunks[..n]) else 0.0
  }

  /** By how many tokens the count went back in all. */
  function TakenBack(chunks: seq<Chunk>): nat {
    var n := |chunks| - 1;
    if n <= 0 then 0
    else TakenBack(chunks[..n]) + if chunks[n].tokens < chunks[n - 1].tokens
                                  then chunks[n - 1].tokens - chunks[n].tokens else 0
  }

  /** What one chunk adds, once the first one has been seen. */
  lemma StepTotals(start: real, t: Tally, c: Chunk)
    requires t.ttft != 0.0
    ensures var t', added := Counted(start, t, c), c.tokens - t.lastLen;
            && t'.ttft == t.ttft && t'.lastLen == c.tokens
            && t'.recent == (if added == 0 then t.recent else c.time)
            && |t'.itl| == |t.itl| + (if added > 0 then added else 0)
            && Total(t'.itl) == Total(t.itl) + (if added > 0 then c.time - t.recent else 0.0)
  {
    hide Copies, Total;
    var added := c.tokens - t.lastLen;
    if added != 0 {
      var each := (c.time - t.recent) / added as real;
      TotalConcat(t.itl, Copies(each, added));
      if added > 0 {
        Spread(c.time - t.recent, added);
      } else {
        CopiesSnoc(each, added);
        TotalSnoc([], each);
      }
    }
  }

  /** For every stream with a first token after the start: the latencies and the time lost when the count went
      back add up to the time from the first token to the last counted chunk, and there is one
      latency per token gained after the first chunk. */
  lemma {:induction false} LatenciesAddUp(start: real, chunks: seq<Chunk>)
    requires chunks != [] && chunks[0].time > start
    ensures var t := CountedAll(start, chunks);
            && t.ttft == chunks[0].time - start
            && t.lastLen == chunks[|chunks| - 1].tokens
            && t.recent == LastCounted(chunks)
            && |t.itl| == t.lastLen - chunks[0].tokens + TakenBack(chunks)
            && Total(t.itl) + Lost(chunks) == LastCounted(chunks) - chunks[0].time
  {
    var n := |chunks| - 1;
    var front, c := chunks[..n], chunks[n];
    if n == 0 {
      assert front == [];
    } else {
      hide Counted, Total;
      LatenciesAddUp(start, front);
      assert front[|front| - 1] == chunks[n - 1];
      StepTotals(start, CountedAll(start, front), c);
    }
  }

  lemma {:induction false} CopiesAre(x: real, n: nat, i: nat)
    requires i < n
    ensures |Copies(x, n)| == n && Copies(x, n)[i] == x
  {
    CopiesAdd(x, n);
    if i < n - 1 {
      CopiesAre(x, n - 1, i);
    } else {
      CopiesAdd(x, n - 1);
    }
  }

  /** A chunk that brings tokens adds one latency for each, all equal: the time since the last counted chunk, shared
      out evenly. Earlier latencies stay, and a chunk without new tokens adds none. */
  lemma LatencyOfChunk(start: real, chunks: seq<Chunk>)
    requires |chunks| > 1 && chunks[0].time > start
    ensures var n := |chunks| - 1;
            var before, after, added := CountedAll(start, chunks[..n]).itl, CountedAll(start, chunks).itl,
                                        chunks[n].tokens - chunks[n - 1].tokens;
            && before <= after
            && |after| == |before| + (if added > 0 then added else 0)
            && forall i | |before| <= i < |after| ::
                 added > 0 && after[i] == (chunks[n].time - LastCounted(chunks[..n])) / added as real
  {
    hide Total;
    var n := |chunks| - 1;
    var front, c := chunks[..n], chunks[n];
    LatenciesAddUp(start, front);
    assert front[n - 1] == chunks[n - 1] && front[0] == chunks[0];
    var t, added := CountedAll(start, front), c.tokens - chunks[n - 1].tokens;
    assert CountedAll(start, chunks) == Counted(start, t, c);
    hide Copies, CountedAll, LastCounted;
    StepTotals(start, t, c);
    if added > 0 {
      var each := (c.time - t.recent) / added as real;
      CopiesAdd(each, added);
      forall i: nat | i < added ensures Copies(each, added)[i] == each { CopiesAre(each, added, i); }
    } else if added < 0 {
      CopiesSnoc((c.time - t.recent) / added as real, added);
    }
  }

  lemma {:induction false} NothingLost(chunks: seq<Chunk>)
    requires NonDecreasing(chunks)
    ensures Lost(chunks) == 0.0 && TakenBack(chunks) == 0
  {
    if |chunks| > 1 {
      NothingLost(chunks[..|chunks| - 1]);
    }
  }

  /** For token counts that never go back, the latencies alone add up. */
  lemma LatenciesTelescope(start: real, chunks: seq<Chunk>)
    requires chunks != [] && NonDecreasing(chunks) && chunks[0].time > start
    ensures var t := CountedAll(start, chunks);
            && t.ttft == chunks[0].time - start
            && t.lastLen == chunks[|chunks| - 1].tokens
            && t.recent == LastCounted(chunks)
            && |t.itl| == t.lastLen - chunks[0].tokens
            && Total(t.itl) == LastCounted(chunks) - chunks[0].time
  {
    LatenciesAddUp(start, chunks);
    NothingLost(chunks);
  }

  /** Chunks arrive one after the other. */
  ghost predicate Increasing(chunks: seq<Chunk>) {
    forall i, j | 0 <= i < j < |chunks| :: chunks[i].time < chunks[j].time
  }

  lemma {:induction false} LastCountedBefore(chunks: seq<Chunk>)
    requires chunks != [] && Increasing(chunks)
    ensures LastCounted(chunks) <= chunks[|chunks| - 1].time
  {
    var n := |chunks| - 1;
    if n > 0 {
      LastCountedBefore(chunks[..n]);
      assert chunks[..n][n - 1] == chunks[n - 1];
    }
  }

  lemma {:induction false} SomethingLostIff(chunks: seq<Chunk>)
    requires Increasing(chunks)
    ensures Lost(chunks) >= 0.0
    ensures Lost(chunks) == 0.0 <==> NonDecreasing(chunks)
  {
    var n := |chunks| - 1;
    if n > 0 {
      var front := chunks[..n];
      SomethingLostIff(front);
      LastCountedBefore(front);
      assert front[n - 1] == chunks[n - 1] && chunks[n - 1].time < chunks[n].time;
      hide LastCounted;
      NonDecreasingSnoc(chunks);
    }
  }

  lemma NonDecreasingSnoc(chunks: seq<Chunk>)
    requires |chunks| > 1
    ensures var n := |chunks| - 1;
            NonDecreasing(chunks) <==> NonDecreasing(chunks[..n]) && chunks[n - 1].tokens <= chunks[n].tokens
  {
    var n := |chunks| - 1;
    var front := chunks[..n];
    if NonDecreasing(front) && front[n - 1].tokens <= chunks[n].tokens {
      forall i, j | 0 <= i < j < |chunks| ensures chunks[i].tokens <= chunks[j].tokens {
        if j == n && i < n - 1 {
          assert front[i].tokens <= front[n - 1].tokens;
        }
      }
    }
  }

  /** With chunks arriving one after the other, the latencies add up exactly when the count never goes back;
      otherwise the sum falls short. */
  lemma TelescopesIff(start: real, chunks: seq<Chunk>)
    requires chunks != [] && chunks[0].time > start && Increasing(chunks)
    ensures var sum, span := Total(CountedAll(start, chunks).itl), LastCounted(chunks) - chunks[0].time;
            && sum <= span
            && (sum == span <==> NonDecreasing(chunks))
  {
    LatenciesAddUp(start, chunks);
    SomethingLostIff(chunks);
  }

  /** A stream that falls short: the count goes back from two to one, and one of two seconds is lost. */
  lemma GoingBackLosesTime()
    ensures var chunks := [Chunk(1.0, 2), Chunk(2.0, 1), Chunk(3.0, 2)];
            var t := CountedAll(0.0, chunks);
            Total(t.itl) == 1.0 && t.recent - chunks[0].time == 2.0
  {
    var a, b, c := Chunk(1.0, 2), Chunk(2.0, 1), Chunk(3.0, 2);
    assert [a][..0] == [] && [a, b][..1] == [a] && [a, b, c][..2] == [a, b];
    var t1, t2, t3 := CountedAll(0.0, [a]), CountedAll(0.0, [a, b]), CountedAll(0.0, [a, b, c]);
    assert CountedAll(0.0, []) == Tally(0.0, [], 0.0, 0);
    assert t1 == Counted(0.0, CountedAll(0.0, []), a);
    assert t1 == Tally(1.0, [], 1.0, 2);
    assert Copies(-1.0, -1) == [];
    assert t2 == Tally(1.0, [], 2.0, 1);
    assert Copies(1.0, 0) == [] && Copies(1.0, 1) == [1.0];
    assert t3.itl == [1.0];
    assert [1.0][..0] == [] && Total([1.0]) == 1.0;
  }
}
