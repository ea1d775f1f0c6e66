/** Sampling conversations by filtering a data set in a cycle (benchmark/hicache/data_processing.py).
    The outer loop goes over the data set again and again until enough conversations have been
    kept; nothing stops it if no conversation survives the filter. */
module ChatFilter {
  import opened Common

  import opened Arithmetic

  /** A prompt and its completion. */
  datatype Pair = Pair(prompt: string, completion: string)

  datatype Entry = Entry(prompt: string, promptLen: nat, outputLen: nat)

  /** The bounds on prompt and output lengths, each optional, and a fixed output length. */
  datatype Limits = Limits(minPrompt: Option<int>, minOutput: Option<int>, maxPrompt: Option<int>,
                           maxOutput: Option<int>, fixedOutput: Option<nat>)

  /** `size` stands for the number of tokens the tokenizer yields. */
  function Measured(p: Pair, size: string -> nat, limits: Limits): Entry {
    Entry(p.prompt, size(p.prompt), if limits.fixedOutput.None? then size(p.completion) else limits.fixedOutput.value)
  }

  predicate Pruned(e: Entry, limits: Limits) {
    || (limits.minPrompt.Some? && e.promptLen < limits.minPrompt.value)
    || (limits.minOutput.Some? && e.outputLen < limits.minOutput.value)
    || (limits.maxPrompt.Some? && e.promptLen > limits.maxPrompt.value)
    || (limits.maxOutput.Some? && e.outputLen > limits.maxOutput.value)
  }

  /** The turns of a conversation that pass the filter, in order. */
  function KeptTurns(conv: seq<Pair>, size: string -> nat, limits: Limits): seq<Entry> {
    if conv == [] then []
    else
      var e := Measured(conv[|conv| - 1], size, limits);
      KeptTurns(conv[..|conv| - 1], size, limits) + if Pruned(e, limits) then [] else [e]
  }

  /** A turn is within the limits: each bound that is given holds, for the prompt's length and for the length of the
      completion or the fixed output length in its place. */
  predicate Within(p: Pair, size: string -> nat, limits: Limits) {
    var output := if limits.fixedOutput.Some? then limits.fixedOutput.value else size(p.completion);
    && (limits.minPrompt.Some? ==> limits.minPrompt.value <= size(p.prompt))
    && (limits.maxPrompt.Some? ==> size(p.prompt) <= limits.maxPrompt.value)
    && (limits.minOutput.Some? ==> limits.minOutput.value <= output)
    && (limits.maxOutput.Some? ==> output <= limits.maxOutput.value)
  }

  /** `js` lists exactly the numbers below `n` that are `good`, in order. */
  ghost predicate Chosen(js: seq<nat>, n: nat, good: nat -> bool) {
    && (forall i, j | 0 <= i < j < |js| :: js[i] < js[j])
    && (forall j: nat :: j in js <==> j < n && good(j))
  }

  lemma ChosenNext(js: seq<nat>, n: nat, good: nat -> bool, good': nat -> bool)
    requires Chosen(js, n, good) && forall j: nat | j < n :: good(j) == good'(j)
    ensures Chosen(if good'(n) then js + [n] else js, n + 1, good')
  {
    forall i | 0 <= i < |js| ensures js[i] < n { assert js[i] in js; }
  }

  lemma NoneChosen(good: nat -> bool)
    ensures Chosen([], 0, good)
  {
  }

  function Turns(conv: seq<Pair>, size: string -> nat, limits: Limits): nat -> bool {
    (j: nat) => j < |conv| && Within(conv[j], size, limits)
  }

  /** What is kept of a turn: its prompt and the two lengths. */
  predicate EntryOf(e: Entry, p: Pair, size: string -> nat, limits: Limits) {
    && e.prompt == p.prompt && e.promptLen == size(p.prompt)
    && e.outputLen == (if limits.fixedOutput.Some? then limits.fixedOutput.value else size(p.completion))
  }

  lemma KeptLast(conv: seq<Pair>, size: string -> nat, limits: Limits)
    requires conv != []
    ensures var n := |conv| - 1;
            var e := Measured(conv[n], size, limits);
            && EntryOf(e, conv[n], size, limits)
            && KeptTurns(conv, size, limits)
               == KeptTurns(conv[..n], size, limits) + if Within(conv[n], size, limits) then [e] else []
  {
  }

  /** The i-th entry is kept of turn `js[i]`. */
  ghost predicate EntriesOf(js: seq<nat>, kept: seq<Entry>, conv: seq<Pair>, size: string -> nat, limits: Limits) {
    |js| == |kept| && forall i | 0 <= i < |js| :: js[i] < |conv| && EntryOf(kept[i], conv[js[i]], size, limits)
  }

  lemma EntriesNext(js: seq<nat>, kept: seq<Entry>, conv: seq<Pair>, size: string -> nat, limits: Limits, e: Entry)
    requires conv != [] && EntriesOf(js, kept, conv[..|conv| - 1], size, limits)
    requires EntryOf(e, conv[|conv| - 1], size, limits)
    ensures EntriesOf(js, kept, conv, size, limits)
    ensures EntriesOf(js + [|conv| - 1], kept + [e], conv, size, limits)
  {
    hide EntryOf;
  }

  lemma TurnsNext(js: seq<nat>, conv: seq<Pair>, size: string -> nat, limits: Limits)
    requires conv != [] && Chosen(js, |conv| - 1, Turns(conv[..|conv| - 1], size, limits))
    ensures var n := |conv| - 1;
            Chosen(if Within(conv[n], size, limits) then js + [n] else js, |conv|, Turns(conv, size, limits))
  {
    hide Chosen, Within;
    var n := |conv| - 1;
    ChosenNext(js, n, Turns(conv[..n], size, limits), Turns(conv, size, limits));
  }

  /** The kept turns are exactly the turns within the limits, in order, each with its prompt and its two lengths. */
  lemma {:induction false} KeptTurnsAre(conv: seq<Pair>, size: string -> nat, limits: Limits) returns (js: seq<nat>)
    ensures Chosen(js, |conv|, Turns(conv, size, limits))
    ensures EntriesOf(js, KeptTurns(conv, size, limits), conv, size, limits)
  {
    if conv == [] {
      NoneChosen(Turns(conv, size, limits));
      js := [];
    } else {
      hide *;
      var n := |conv| - 1;
      js := KeptTurnsAre(conv[..n], size, limits);
      KeptLast(conv, size, limits);
      TurnsNext(js, conv, size, limits);
      EntriesNext(js, KeptTurns(conv[..n], size, limits), conv, size, limits, Measured(conv[n], size, limits));
      if Within(conv[n], size, limits) {
        js := js + [n];
      } else {
        assert KeptTurns(conv[..n], size, limits) + [] == KeptTurns(conv[..n], size, limits);
      }
    }
  }

  /** The conversations that keep a turn, in order. */
  function Survivors(data: seq<seq<Pair>>, size: string -> nat, limits: Limits): seq<seq<Entry>> {
    if data == [] then []
    else
      var kept := KeptTurns(data[|data| - 1], size, limits);
      Survivors(data[..|data| - 1], size, limits) + if kept == [] then [] else [kept]
  }

  /** Some turn of conversation `j` is within the limits. */
  ghost predicate HasTurnWithin(conv: seq<Pair>, size: string -> nat, limits: Limits) {
    exists t :: 0 <= t < |conv| && Within(conv[t], size, limits)
  }

  lemma KeepsSomeIff(conv: seq<Pair>, size: string -> nat, limits: Limits)
    ensures KeptTurns(conv, size, limits) != [] <==> HasTurnWithin(conv, size, limits)
  {
    var js := KeptTurnsAre(conv, size, limits);
    hide KeptTurns, Within;
    if js != [] {
      assert js[0] in js;
    }
    if t: nat :| t < |conv| && Within(conv[t], size, limits) {
      assert t in js;
    }
  }

  ghost function Keeping(data: seq<seq<Pair>>, size: string -> nat, limits: Limits): nat -> bool {
    (j: nat) => j < |data| && HasTurnWithin(data[j], size, limits)
  }

  /** The i-th survivor is what is kept of conversation `js[i]`. */
  ghost predicate SurvivorsOf(js: seq<nat>, survivors: seq<seq<Entry>>, data: seq<seq<Pair>>, size: string -> nat, limits: Limits) {
    |js| == |survivors| && forall i | 0 <= i < |js| :: js[i] < |data| && survivors[i] == KeptTurns(data[js[i]], size, limits)
  }

  lemma SurvivorsNext(js: seq<nat>, survivors: seq<seq<Entry>>, data: seq<seq<Pair>>, size: string -> nat, limits: Limits)
    requires data != [] && SurvivorsOf(js, survivors, data[..|data| - 1], size, limits)
    ensures SurvivorsOf(js, survivors, data, size, limits)
    ensures SurvivorsOf(js + [|data| - 1], survivors + [KeptTurns(data[|data| - 1], size, limits)], data, size, limits)
  {
    hide KeptTurns;
  }

  lemma KeepingNext(js: seq<nat>, data: seq<seq<Pair>>, size: string -> nat, limits: Limits)
    requires data != [] && Chosen(js, |data| - 1, Keeping(data[..|data| - 1], size, limits))
    ensures var n := |data| - 1;
            Chosen(if HasTurnWithin(data[n], size, limits) then js + [n] else js, |data|, Keeping(data, size, limits))
  {
    hide Chosen, HasTurnWithin;
    var n := |data| - 1;
    ChosenNext(js, n, Keeping(data[..n], size, limits), Keeping(data, size, limits));
  }

  lemma SurvivorsLast(data: seq<seq<Pair>>, size: string -> nat, limits: Limits)
    requires data != []
    ensures var n := |data| - 1;
            Survivors(data, size, limits)
            == Survivors(data[..n], size, limits)
               + if HasTurnWithin(data[n], size, limits) then [KeptTurns(data[n], size, limits)] else []
  {
    KeepsSomeIff(data[|data| - 1], size, limits);
    hide KeptTurns, HasTurnWithin;
  }

  /** The survivors are the kept turns of exactly the conversations with a turn within the limits, in order. */
  lemma {:induction false} SurvivorsAre(data: seq<seq<Pair>>, size: string -> nat, limits: Limits) returns (js: seq<nat>)
    ensures Chosen(js, |data|, Keeping(data, size, limits))
    ensures SurvivorsOf(js, Survivors(data, size, limits), data, size, limits)
  {
    if data == [] {
      NoneChosen(Keeping(data, size, limits));
      js := [];
    } else {
      hide *;
      var n := |data| - 1;
      js := SurvivorsAre(data[..n], size, limits);
      SurvivorsLast(data, size, limits);
      KeepingNext(js, data, size, limits);
      SurvivorsNext(js, Survivors(data[..n], size, limits), data, size, limits);
      if HasTurnWithin(data[n], size, limits) {
        js := js + [n];
      } else {
        assert Survivors(data[..n], size, limits) + [] == Survivors(data[..n], size, limits);
      }
    }
  }

  function PromptTokens(conv: seq<Entry>): nat {
    if conv == [] then 0 else PromptTokens(conv[..|conv| - 1]) + conv[|conv| - 1].promptLen
  }

  function OutputTokens(conv: seq<Entry>): nat {
    if conv == [] then 0 else OutputTokens(conv[..|conv| - 1]) + conv[|conv| - 1].outputLen
  }

  function AllPromptTokens(convs: seq<seq<Entry>>): nat {
    if convs == [] then 0 else AllPromptTokens(convs[..|convs| - 1]) + PromptTokens(convs[|convs| - 1])
  }

  function AllOutputTokens(convs: seq<seq<Entry>>): nat {
    if convs == [] then 0 else AllOutputTokens(convs[..|convs| - 1]) + OutputTokens(convs[|convs| - 1])
  }

  // ----- One conversation and one pass -----------------------------------------------------

  /** The innermost loop. */
  method FilterTurns(conv: seq<Pair>, size: string -> nat, limits: Limits)
    returns (processed: seq<Entry>, inputTokens: nat, outputTokens: nat)
    ensures processed == KeptTurns(conv, size, limits)
    ensures inputTokens == PromptTokens(processed) && outputTokens == OutputTokens(processed)
  {
    processed, inputTokens, outputTokens := [], 0, 0;
    for j := 0 to |conv|
      invariant processed == KeptTurns(conv[..j], size, limits)
      invariant inputTokens == PromptTokens(processed) && outputTokens == OutputTokens(processed)
    {
      assert conv[..j + 1][..j] == conv[..j];
      var e := Measured(conv[j], size, limits);
      if !Pruned(e, limits) {
        assert (processed + [e])[..|processed|] == processed;
        inputTokens, outputTokens := inputTokens + e.promptLen, outputTokens + e.outputLen;
        processed := processed + [e];
      }
    }
    assert conv[..|conv|] == conv;
  }

  /** What one pass over the data set adds. */
  function AfterPass(kept: seq<seq<Entry>>, survivors: seq<seq<Entry>>, wanted: int): seq<seq<Entry>>
    requires |kept| <= wanted
  {
    kept + if |survivors| <= wanted - |kept| then survivors else survivors[..wanted - |kept|]
  }

  /** The for loop, left early when enough conversations have been kept. */
  method Pass(kept: seq<seq<Entry>>, wanted: int, data: seq<seq<Pair>>, size: string -> nat, limits: Limits,
              inputTokens: nat, outputTokens: nat)
    returns (kept': seq<seq<Entry>>, inputTokens': nat, outputTokens': nat)
    requires |kept| <= wanted
    requires inputTokens == AllPromptTokens(kept) && outputTokens == AllOutputTokens(kept)
    ensures kept' == AfterPass(kept, Survivors(data, size, limits), wanted)
    ensures inputTokens' == AllPromptTokens(kept') && outputTokens' == AllOutputTokens(kept')
  {
    hide Survivors, KeptTurns, AllPromptTokens, AllOutputTokens, PromptTokens, OutputTokens;
    kept', inputTokens', outputTokens' := kept, inputTokens, outputTokens;
    ghost var all := Survivors(data, size, limits);
    ghost var some: seq<seq<Entry>> := [];
    NoneSurvive(size, limits);
    assert data[..0] == [];
    for i := 0 to |data|
      invariant some == Survivors(data[..i], size, limits)
      invariant |kept'| <= wanted && kept' == kept + some
      invariant inputTokens' == AllPromptTokens(kept') && outputTokens' == AllOutputTokens(kept')
    {
      if |kept'| == wanted {
        PrefixSurvives(data, size, limits, i);
        assert some == all[..wanted - |kept|];
        return;
      }
      SurvivorsStep(data, size, limits, i);
      var processed, extraIn, extraOut := FilterTurns(data[i], size, limits);
      if |processed| != 0 {
        TokensAppend(kept', processed);
        kept' := kept' + [processed];
        some := some + [processed];
        inputTokens', outputTokens' := inputTokens' + extraIn, outputTokens' + extraOut;
      }
    }
    assert data[..|data|] == data;
  }

  lemma NoneSurvive(size: string -> nat, limits: Limits)
    ensures Survivors([], size, limits) == []
  {
  }

  lemma SurvivorsStep(data: seq<seq<Pair>>, size: string -> nat, limits: Limits, i: nat)
    requires i < |data|
    ensures var kept := KeptTurns(data[i], size, limits);
            Survivors(data[..i + 1], size, limits) == Survivors(data[..i], size, limits) + if kept == [] then [] else [kept]
  {
    assert data[..i + 1][..i] == data[..i];
  }

  lemma TokensAppend(convs: seq<seq<Entry>>, conv: seq<Entry>)
    ensures AllPromptTokens(convs + [conv]) == AllPromptTokens(convs) + PromptTokens(conv)
    ensures AllOutputTokens(convs + [conv]) == AllOutputTokens(convs) + OutputTokens(conv)
  {
    assert (convs + [conv])[..|convs|] == convs;
  }

  lemma {:induction false} PrefixSurvives(data: seq<seq<Pair>>, size: string -> nat, limits: Limits, i: nat)
    requires i <= |data|
    ensures Survivors(data[..i], size, limits) <= Survivors(data, size, limits)
  {
    if i < |data| {
      PrefixSurvives(data[..|data| - 1], size, limits, i);
      assert data[..|data| - 1][..i] == data[..i];
    } else {
      assert data[..i] == data;
    }
  }

  // ----- The cycle ---------------------------------------------------------------------------

  /** The k-th of an endless repetition of `survivors`. */
  ghost predicate Cyclic(kept: seq<seq<Entry>>, survivors: seq<seq<Entry>>) {
    survivors != [] && forall k | 0 <= k < |kept| :: kept[k] == survivors[k % |survivors|]
  }

  lemma PassKeepsCycle(kept: seq<seq<Entry>>, survivors: seq<seq<Entry>>, wanted: int)
    requires Cyclic(kept, survivors) && |kept| < wanted && |kept| % |survivors| == 0
    ensures var t := AfterPass(kept, survivors, wanted);
            Cyclic(t, survivors) && |kept| < |t| && (|t| == wanted || |t| % |survivors| == 0)
  {
    var t, n := AfterPass(kept, survivors, wanted), |survivors|;
    assert |kept| == |kept| / n * n;
    forall k | 0 <= k < |t| ensures t[k] == survivors[k % n] {
      if k >= |kept| {
        DivModUnique(k, |kept| / n, k - |kept|, n);
      }
    }
    if |t| < wanted {
      assert |t| == |kept| + n;
      OneMore(|kept| / n, n);
      DivModUnique(|t|, |kept| / n + 1, 0, n);
    }
  }

  /** common_filter_chat, on the inputs on which it ends. Entry k is the k-th surviving conversation in
      the cycle, and the token totals are those of the returned entries. */
  method CommonFilterChat(wanted: int, data: seq<seq<Pair>>, size: string -> nat, limits: Limits)
    returns (kept: seq<seq<Entry>>, inputTokens: nat, outputTokens: nat)
    requires wanted <= 0 || Survivors(data, size, limits) != []
    ensures wanted <= 0 ==> kept == []
    ensures wanted > 0 ==> |kept| == wanted && Cyclic(kept, Survivors(data, size, limits))
    ensures inputTokens == AllPromptTokens(kept) && outputTokens == AllOutputTokens(kept)
  {
    kept, inputTokens, outputTokens := [], 0, 0;
    ghost var survivors := Survivors(data, size, limits);
    while |kept| < wanted
      invariant |kept| == 0 || |kept| <= wanted
      invariant wanted > 0 ==> Cyclic(kept, survivors) && (|kept| == wanted || |kept| % |survivors| == 0)
      invariant inputTokens == AllPromptTokens(kept) && outputTokens == AllOutputTokens(kept)
      decreases wanted - |kept|
    {
      PassKeepsCycle(kept, survivors, wanted);
      kept, inputTokens, outputTokens := Pass(kept, wanted, data, size, limits, inputTokens, outputTokens);
    }
  }

  /** The result of `n` passes of the outer loop. */
  function Passes(n: nat, survivors: seq<seq<Entry>>, wanted: int): (kept: seq<seq<Entry>>)
    ensures |kept| == 0 || |kept| <= wanted
  {
    if n == 0 then []
    else
      var kept := Passes(n - 1, survivors, wanted);
      if |kept| < wanted then AfterPass(kept, survivors, wanted) else kept
  }

  lemma {:induction false} PassesGrow(n: nat, survivors: seq<seq<Entry>>, wanted: int)
    requires survivors != [] && 0 <= n <= wanted
    ensures |Passes(n, survivors, wanted)| >= n
  {
    if n > 0 {
      PassesGrow(n - 1, survivors, wanted);
    }
  }

  lemma {:induction false} PassesStall(n: nat, wanted: int)
    ensures Passes(n, [], wanted) == []
  {
    if n > 0 {
      PassesStall(n - 1, wanted);
    }
  }

  /** The outer loop ends exactly when nothing is wanted or some conversation keeps a turn; otherwise no
      pass makes any progress. */
  lemma EndsIff(survivors: seq<seq<Entry>>, wanted: int)
    ensures (exists n: nat :: |Passes(n, survivors, wanted)| >= wanted) <==> wanted <= 0 || survivors != []
  {
    if wanted <= 0 {
      assert |Passes(0, survivors, wanted)| >= wanted;
    } else if survivors != [] {
      PassesGrow(wanted, survivors, wanted);
    } else {
      forall n: nat ensures |Passes(n, survivors, wanted)| < wanted { PassesStall(n, wanted); }
    }
  }

  // ----- Repeating a prompt to a length ------------------------------------------------------------

  function Repeat<T>(s: seq<T>, times: nat): seq<T> {
    if times == 0 then [] else Repeat(s, times - 1) + s
  }

  /** Repeat and truncate, as sample_random_requests does. */
  function FitLength<T>(tokens: seq<T>, length: nat): (r: seq<T>)
    requires tokens != []
    ensures |r| == length
  {
    if |tokens| > length then tokens[..length]
    else
      var ratio := (length + |tokens| - 1) / |tokens|;
      RepeatLength(tokens, ratio);
      CeilingCovers(length, |tokens|);
      Repeat(tokens, ratio)[..length]
  }

  lemma {:induction false} RepeatLength<T>(s: seq<T>, times: nat)
    ensures |Repeat(s, times)| == times * |s|
  {
    if times > 0 {
      RepeatLength(s, times - 1);
    }
  }

  lemma {:induction false} RepeatAt<T>(s: seq<T>, times: nat, k: nat)
    requires s != [] && k < times * |s|
    ensures k < |Repeat(s, times)| && Repeat(s, times)[k] == s[k % |s|]
  {
    RepeatLength(s, times);
    RepeatLength(s, times - 1);
    var before := (times - 1) * |s|;
    if k < before {
      RepeatAt(s, times - 1, k);
    } else {
      OneMore(times - 1, |s|);
      DivModUnique(k, times - 1, k - before, |s|);
    }
  }

  /** The prompt has exactly the drawn length and runs through the tokens in a cycle. */
  lemma FitLengthIsCyclic<T>(tokens: seq<T>, length: nat, k: nat)
    requires tokens != [] && k < length
    ensures FitLength(tokens, length)[k] == tokens[k % |tokens|]
  {
    if |tokens| > length {
      DivModUnique(k, 0, k, |tokens|);
    } else {
      CeilingCovers(length, |tokens|);
      RepeatAt(tokens, (length + |tokens| - 1) / |tokens|, k);
    }
  }
}
