/** Speculative generation: one request is answered ahead of use and later gens are
    cut out of the answer. When does a program see a difference? */
module Speculation {
  import opened Prelude
  import opened Ir
  import opened Executor

  /** Programs of constant text and gens. */
  datatype Step = FillStep(value: string) | GenStep(key: Key, params: Params)

  // ----- when a request is made -----

  /** What is speculated will do: without stop strings, when it is as long as asked for; with a list of
      them, when there is anything at all. */
  predicate Suffices(speculated: string, params: Params) {
    (params.stop.None? && params.maxNewTokens <= |speculated|) || (params.stop.Some? && speculated != "")
  }

  /** The reply to the one request that is made if it does not: at the raised limit, without stop strings. */
  function Reply(b: Backend, text: string, params: Params, ahead: nat): string {
    b.generate(text, Params(Max(params.maxNewTokens, ahead), None, params.others))
  }

  /** The text a speculative gen cuts its completion from. */
  function Pool(b: Backend, e: Exec, params: Params, ahead: nat): string {
    if Suffices(e.speculated, params) then e.speculated else Reply(b, e.text, params, ahead)
  }

  /** The completion and what is left over are all of the pool. */
  lemma GenSplitsPool(b: Backend, e: Exec, params: Params, ahead: nat)
    ensures SpecGen(e, b, params, ahead).0 + SpecGen(e, b, params, ahead).1 == Pool(b, e, params, ahead)
    ensures NeedsRegen(e, params) <==> !Suffices(e.speculated, params)
  {
  }

  /** The model makes no difference to a speculative gen exactly when what is speculated will do. */
  lemma ModelDoesNotMatterIff(e: Exec, params: Params, ahead: nat)
    ensures (forall b: Backend, b': Backend :: SpecGen(e, b, params, ahead) == SpecGen(e, b', params, ahead)) <==>
            Suffices(e.speculated, params)
  {
    if !Suffices(e.speculated, params) {
      var mute := Backend((text, p) => "", (text, choices) => "");
      var letter := Backend((text, p) => "x", (text, choices) => "x");
      GenSplitsPool(mute, e, params, ahead);
      GenSplitsPool(letter, e, params, ahead);
      assert SpecGen(e, mute, params, ahead) != SpecGen(e, letter, params, ahead);
    }
  }

  /** A step that asks for nothing: a fill of what is speculated next, or a gen that will do with it. */
  predicate AsksNothing(e: Exec, step: Step) {
    match step
    case FillStep(value) => IsPrefix(value, e.speculated)
    case GenStep(_, params) => Suffices(e.speculated, params)
  }

  ghost predicate NeverAsks(b: Backend, ahead: nat, e: Exec, program: seq<Step>)
    decreases |program|
  {
    program != [] ==> AsksNothing(e, program[0]) && NeverAsks(b, ahead, SpecStep(b, ahead, e, program[0]), program[1..])
  }

  lemma StepUsesSupply(b: Backend, b': Backend, ahead: nat, e: Exec, step: Step)
    requires AsksNothing(e, step)
    ensures SpecStep(b, ahead, e, step) == SpecStep(b', ahead, e, step)
    ensures var e' := SpecStep(b, ahead, e, step); e'.text + e'.speculated == e.text + e.speculated
  {
    match step
    case FillStep(value) =>
      assert value + e.speculated[|value|..] == e.speculated;
      assert e.text + value + e.speculated[|value|..] == e.text + (value + e.speculated[|value|..]);
    case GenStep(_, params) =>
      GenSplitsPool(b, e, params, ahead);
      var (completion, rest) := SpecGen(e, b, params, ahead);
      assert e.text + completion + rest == e.text + (completion + rest);
  }

  /** A program that follows what is speculated runs to its end on it: the model makes no difference, and
      the text moves on through the speculated text, letter by letter. */
  lemma {:induction false} SupplyServesProgram(b: Backend, b': Backend, ahead: nat, e: Exec, program: seq<Step>)
    requires NeverAsks(b, ahead, e, program)
    ensures RunSpec(b, ahead, e, program) == RunSpec(b', ahead, e, program)
    ensures var e' := RunSpec(b, ahead, e, program).0; e'.text + e'.speculated == e.text + e.speculated
    decreases |program|
  {
    if program != [] {
      StepUsesSupply(b, b', ahead, e, program[0]);
      SupplyServesProgram(b, b', ahead, SpecStep(b, ahead, e, program[0]), program[1..]);
      if program[0].GenStep? {
        GenSplitsPool(b, e, program[0].params, ahead);
        GenSplitsPool(b', e, program[0].params, ahead);
      }
    }
  }

  // ----- any backend: the speculated text is what is left of one reply -----

  /** A run that remembers the text and the reply of the last request. */
  datatype Ledger = Ledger(exec: Exec, base: string, reply: string)

  function StepLedger(b: Backend, ahead: nat, l: Ledger, step: Step): Ledger {
    match step
    case FillStep(value) => l.(exec := Fill(l.exec, value))
    case GenStep(key, params) =>
      var exec := SpeculativeGen(l.exec, b, key, params, ahead);
      if Suffices(l.exec.speculated, params) then l.(exec := exec)
      else Ledger(exec, l.exec.text, Reply(b, l.exec.text, params, ahead))
  }

  function RunLedger(b: Backend, ahead: nat, l: Ledger, program: seq<Step>): Ledger
    decreases |program|
  {
    if program == [] then l else RunLedger(b, ahead, StepLedger(b, ahead, l, program[0]), program[1..])
  }

  predicate Balanced(l: Ledger) {
    l.exec.speculated == "" || l.exec.text + l.exec.speculated == l.base + l.reply
  }

  lemma FillStaysBalanced(l: Ledger, value: string)
    requires Balanced(l)
    ensures Balanced(l.(exec := Fill(l.exec, value)))
  {
    if IsPrefix(value, l.exec.speculated) {
      AppendTwice(l.exec.text, value, l.exec.speculated[|value|..]);
      assert value + l.exec.speculated[|value|..] == l.exec.speculated;
    }
  }

  lemma StepStaysBalanced(b: Backend, ahead: nat, l: Ledger, step: Step)
    requires Balanced(l)
    ensures Balanced(StepLedger(b, ahead, l, step))
  {
    match step
    case FillStep(value) => FillStaysBalanced(l, value);
    case GenStep(key, params) =>
      var (completion, rest) := SpecGen(l.exec, b, params, ahead);
      GenSplitsPool(b, l.exec, params, ahead);
      AppendTwice(l.exec.text, completion, rest);
  }

  /** After any run, whatever the backend: either nothing is speculated, or the text and what is still
      speculated make up the text at the last request followed by the reply to it. */
  lemma {:induction false} RunStaysBalanced(b: Backend, ahead: nat, l: Ledger, program: seq<Step>)
    requires Balanced(l)
    ensures Balanced(RunLedger(b, ahead, l, program))
    decreases |program|
  {
    if program != [] {
      StepStaysBalanced(b, ahead, l, program[0]);
      RunStaysBalanced(b, ahead, StepLedger(b, ahead, l, program[0]), program[1..]);
    }
  }

  /** With a stop list, no completion contains a stop string, other than the empty one. */
  lemma CompletionHasNoStop(e: Exec, b: Backend, params: Params, ahead: nat, w: string, q: nat)
    requires params.stop.Some? && w in params.stop.value && w != ""
    ensures !OccursAt(SpecGen(e, b, params, ahead).0, w, q)
  {
    var spec := Pool(b, e, params, ahead);
    var completion := SpecGen(e, b, params, ahead).0;
    FirstStopIsEarliest(spec, params.stop.value);
    if OccursAt(completion, w, q) {
      OccursInPrefix(spec, |completion|, w, q);
      assert StopAt(spec, params.stop.value, q);
    }
  }

  lemma OccursInPrefix(s: string, n: nat, w: string, q: nat)
    requires n <= |s|
    ensures OccursAt(s[..n], w, q) <==> q + |w| <= n && OccursAt(s, w, q)
  {
    if q + |w| <= n {
      assert s[..n][q..q + |w|] == s[q..q + |w|];
    }
  }

  /** A stop string begins at q and ends by n. */
  predicate Fits(w: string, stops: seq<string>, q: nat, n: nat) {
    exists s :: s in stops && OccursAt(w, s, q) && q + |s| <= n
  }

  lemma StopInPrefix(w: string, n: nat, stops: seq<string>, q: nat)
    requires n <= |w|
    ensures StopAt(w[..n], stops, q) <==> Fits(w, stops, q, n)
  {
    forall s | s in stops
      ensures OccursAt(w[..n], s, q) <==> q + |s| <= n && OccursAt(w, s, q)
    {
      OccursInPrefix(w, n, s, q);
    }
  }

  /** The first stop of a prefix is the first position at which a stop string fits into it. */
  lemma FirstStopOfPrefix(w: string, n: nat, stops: seq<string>)
    requires n <= |w|
    ensures var first := FirstStop(w[..n], stops);
            && (first.Some? ==> first.value <= n && Fits(w, stops, first.value, n))
            && (forall q: nat :: Fits(w, stops, q, n) ==> first.Some? && first.value <= q)
  {
    var first := FirstStop(w[..n], stops);
    FirstStopIsEarliest(w[..n], stops);
    if first.Some? {
      StopInPrefix(w, n, stops, first.value);
    }
    forall q: nat | Fits(w, stops, q, n)
      ensures first.Some? && first.value <= q
    {
      StopInPrefix(w, n, stops, q);
    }
  }

  // ----- a completion model: one token a character, greedy -----

  /** The model continues each text in one way, and continues its own continuations. */
  ghost predicate Coherent(continuation: string -> string) {
    forall t, w :: IsPrefix(w, continuation(t)) ==> continuation(t + w) == continuation(t)[|w|..]
  }

  /** What a completion request returns of a continuation: at most the limit, up to the first stop string. */
  function Cut(w: string, params: Params): string {
    var head := Take(w, params.maxNewTokens);
    if params.stop.None? then head
    else
      var stop := FirstStop(head, params.stop.value);
      if stop.Some? then Take(head, stop.value) else head
  }

  ghost predicate Completes(b: Backend, continuation: string -> string) {
    forall t, params :: b.generate(t, params) == Cut(continuation(t), params)
  }

  /** What is speculated is what the model says next. */
  predicate Ahead(continuation: string -> string, e: Exec) {
    IsPrefix(e.speculated, continuation(e.text))
  }

  lemma PoolIsAhead(b: Backend, continuation: string -> string, e: Exec, params: Params, ahead: nat)
    requires Completes(b, continuation) && Ahead(continuation, e)
    ensures IsPrefix(Pool(b, e, params, ahead), continuation(e.text))
    ensures !Suffices(e.speculated, params) ==>
              |Pool(b, e, params, ahead)| == Min(Max(params.maxNewTokens, ahead), |continuation(e.text)|)
  {
    var request := params.(maxNewTokens := Max(params.maxNewTokens, ahead), stop := None);
    assert b.generate(e.text, request) == Cut(continuation(e.text), request);
  }

  lemma StepStaysAhead(b: Backend, continuation: string -> string, ahead: nat, e: Exec, step: Step)
    requires Completes(b, continuation) && Coherent(continuation) && Ahead(continuation, e)
    ensures Ahead(continuation, SpecStep(b, ahead, e, step))
  {
    var w := continuation(e.text);
    match step
    case FillStep(value) =>
      if IsPrefix(value, e.speculated) {
        assert value == e.speculated[..|value|] == w[..|e.speculated|][..|value|] == w[..|value|];
        assert continuation(e.text + value) == w[|value|..];
        assert e.speculated[|value|..] == w[|value|..][..|e.speculated| - |value|];
      }
    case GenStep(key, params) =>
      PoolIsAhead(b, continuation, e, params, ahead);
      var pool := Pool(b, e, params, ahead);
      var (completion, rest) := SpecGen(e, b, params, ahead);
      assert completion == pool[..|completion|] == w[..|pool|][..|completion|] == w[..|completion|];
      assert continuation(e.text + completion) == w[|completion|..];
      assert rest == pool[|completion|..] == w[|completion|..][..|rest|];
  }

  /** When a speculative gen returns what a plain gen returns. Without stop strings: always. With a
      stop string in the speculated text: when it is found whole within the token limit, and no other
      one that starts earlier runs past the end of the speculated text. With none: when the speculated
      text is not longer than the limit, if it was requested here (the limit is raised to the size of
      the request); otherwise when it is at least as long as the limit, or the model itself would end
      where it ends. */
  ghost predicate Exact(b: Backend, continuation: string -> string, e: Exec, params: Params, ahead: nat) {
    params.stop.None? ||
    var stops, limit, pool, w := params.stop.value, params.maxNewTokens,
                                 Pool(b, e, params, ahead), continuation(e.text);
    match FirstStop(pool, stops)
    case Some(p) =>
      p == limit ||
      (Fits(w, stops, p, Min(limit, |pool|)) && forall q: nat :: q < p ==> !Fits(w, stops, q, Min(limit, |w|)))
    case None =>
      if e.speculated == "" then |pool| <= limit
      else |pool| >= limit || w == pool || FirstStop(Take(w, limit), stops) == Some(|pool|)
  }

  /** Both completions are beginnings of what the model says next, so only their lengths can differ. */
  lemma CompletionsAreBeginnings(b: Backend, continuation: string -> string, e: Exec, params: Params, ahead: nat)
    requires Completes(b, continuation) && Ahead(continuation, e)
    ensures IsPrefix(SpecGen(e, b, params, ahead).0, continuation(e.text))
    ensures IsPrefix(Cut(continuation(e.text), params), continuation(e.text))
  {
    PoolIsAhead(b, continuation, e, params, ahead);
    var w, pool := continuation(e.text), Pool(b, e, params, ahead);
    var completion := SpecGen(e, b, params, ahead).0;
    assert completion == pool[..|completion|] == w[..|pool|][..|completion|] == w[..|completion|];
    var head := Take(w, params.maxNewTokens);
    var cut := Cut(w, params);
    assert cut == head[..|cut|] == w[..|head|][..|cut|] == w[..|cut|];
  }

  lemma SameLengthIffExact(b: Backend, continuation: string -> string, e: Exec, params: Params, ahead: nat)
    requires Completes(b, continuation) && Ahead(continuation, e)
    ensures |SpecGen(e, b, params, ahead).0| == |Cut(continuation(e.text), params)| <==>
            Exact(b, continuation, e, params, ahead)
  {
    PoolIsAhead(b, continuation, e, params, ahead);
    var w, pool := continuation(e.text), Pool(b, e, params, ahead);
    if params.stop.Some? {
      var head := Take(w, params.maxNewTokens);
      assert pool == w[..|pool|] && head == w[..|head|];
      var stops, limit := params.stop.value, params.maxNewTokens;
      FirstStopOfPrefix(w, |pool|, stops);
      FirstStopOfPrefix(w, |head|, stops);
      if FirstStop(pool, stops).Some? {
        var p := FirstStop(pool, stops).value;
        LongerRoom(w, stops, Min(limit, |pool|), |pool|);
        LongerRoom(w, stops, Min(limit, |pool|), |head|);
        if |head| <= |pool| {
          LongerRoom(w, stops, |head|, |pool|);
        } else {
          LongerRoom(w, stops, |pool|, |head|);
        }
      } else if |head| <= |pool| {
        LongerRoom(w, stops, |head|, |pool|);
      }
    }
  }

  lemma LongerRoom(w: string, stops: seq<string>, n: nat, m: nat)
    requires n <= m
    ensures forall q: nat :: Fits(w, stops, q, n) ==> Fits(w, stops, q, m)
  {
    forall q: nat | Fits(w, stops, q, n)
      ensures Fits(w, stops, q, m)
    {
      var s :| s in stops && OccursAt(w, s, q) && q + |s| <= n;
    }
  }

  /** A speculative gen and a plain gen give the same completion exactly when the gen is exact. */
  lemma SameCompletionIffExact(b: Backend, continuation: string -> string, e: Exec, params: Params, ahead: nat)
    requires Completes(b, continuation) && Ahead(continuation, e)
    ensures SpecGen(e, b, params, ahead).0 == b.generate(e.text, params) <==> Exact(b, continuation, e, params, ahead)
  {
    CompletionsAreBeginnings(b, continuation, e, params, ahead);
    SameLengthIffExact(b, continuation, e, params, ahead);
  }

  /** The use the feature is made for: one non-empty stop string, found in the speculated text within
      the token limit. */
  lemma SingleStopIsExact(b: Backend, continuation: string -> string, e: Exec, params: Params, ahead: nat,
                          stop: string, p: nat)
    requires Completes(b, continuation) && Ahead(continuation, e)
    requires params.stop == Some([stop]) && Find(Pool(b, e, params, ahead), stop) == Some(p)
    requires p + |stop| <= params.maxNewTokens
    ensures Exact(b, continuation, e, params, ahead)
  {
    var w, pool, stops := continuation(e.text), Pool(b, e, params, ahead), params.stop.value;
    PoolIsAhead(b, continuation, e, params, ahead);
    assert stops[..0] == [] && FirstStop(pool, stops) == Earlier(FirstStop(pool, []), Find(pool, stop)) == Some(p);
    assert pool == w[..|pool|];
    FirstStopOfPrefix(w, |pool|, stops);
    forall q: nat | q < p
      ensures !Fits(w, stops, q, Min(params.maxNewTokens, |w|))
    {
      SingleFits(w, stop, q, Min(params.maxNewTokens, |w|));
      SingleFits(w, stop, q, |pool|);
    }
    SingleFits(w, stop, p, |pool|);
    SingleFits(w, stop, p, Min(params.maxNewTokens, |pool|));
  }

  lemma SingleFits(w: string, stop: string, q: nat, n: nat)
    ensures Fits(w, [stop], q, n) <==> OccursAt(w, stop, q) && q + |stop| <= n
  {
    assert stop in [stop];
  }

  /** The default stop list of a run is empty. A gen under it that requests text ahead returns all
      of the reply, beyond the number of tokens it was asked for whenever the model says more. */
  lemma EmptyStopListIgnoresLimit(b: Backend, continuation: string -> string, e: Exec, params: Params, ahead: nat)
    requires Completes(b, continuation) && Ahead(continuation, e)
    requires params.stop == Some([]) && e.speculated == ""
    ensures |SpecGen(e, b, params, ahead).0| == Min(Max(params.maxNewTokens, ahead), |continuation(e.text)|)
    ensures Exact(b, continuation, e, params, ahead) <==>
            ahead <= params.maxNewTokens || |continuation(e.text)| <= params.maxNewTokens
  {
    PoolIsAhead(b, continuation, e, params, ahead);
  }

  // ----- whole programs -----

  function SpecStep(b: Backend, ahead: nat, e: Exec, step: Step): Exec {
    match step
    case FillStep(value) => Fill(e, value)
    case GenStep(key, params) => SpeculativeGen(e, b, key, params, ahead)
  }

  function PlainStep(b: Backend, e: Exec, step: Step): Exec {
    match step
    case FillStep(value) => Fill(e, value)
    case GenStep(key, params) => PlainGen(e, b, key, params)
  }

  /** The state a run ends in and the completions on the way. */
  function RunSpec(b: Backend, ahead: nat, e: Exec, program: seq<Step>): (Exec, seq<string>)
    decreases |program|
  {
    if program == [] then (e, [])
    else
      var (e', completions) := RunSpec(b, ahead, SpecStep(b, ahead, e, program[0]), program[1..]);
      (e', (if program[0].GenStep? then [SpecGen(e, b, program[0].params, ahead).0] else []) + completions)
  }

  function RunPlain(b: Backend, e: Exec, program: seq<Step>): (Exec, seq<string>)
    decreases |program|
  {
    if program == [] then (e, [])
    else
      var (e', completions) := RunPlain(b, PlainStep(b, e, program[0]), program[1..]);
      (e', (if program[0].GenStep? then [b.generate(e.text, program[0].params)] else []) + completions)
  }

  /** The fills of a program and its completions, one after the other. */
  function Written(program: seq<Step>, completions: seq<string>): string
    decreases |program|
  {
    if program == [] then ""
    else if program[0].FillStep? then program[0].value + Written(program[1..], completions)
    else if completions == [] then ""
    else completions[0] + Written(program[1..], completions[1..])
  }

  lemma WrittenStep(text: string, step: Step, out: string, rest: seq<Step>, completions: seq<string>)
    requires step.FillStep? ==> out == step.value
    ensures (text + out) + Written(rest, completions) ==
            text + Written([step] + rest, (if step.GenStep? then [out] else []) + completions)
  {
    AppendTwice(text, out, Written(rest, completions));
    assert ([step] + rest)[1..] == rest;
    if step.GenStep? {
      assert ([out] + completions)[1..] == completions;
    } else {
      assert [] + completions == completions;
    }
  }

  /** A plain run writes the fills and its completions in order, one completion for each gen. */
  lemma {:induction false} PlainRunWrites(b: Backend, e: Exec, program: seq<Step>)
    ensures RunPlain(b, e, program).0.text == e.text + Written(program, RunPlain(b, e, program).1)
    decreases |program|
  {
    if program != [] {
      var step, e' := program[0], PlainStep(b, e, program[0]);
      PlainRunWrites(b, e', program[1..]);
      WrittenStep(e.text, step, if step.FillStep? then step.value else b.generate(e.text, step.params),
                  program[1..], RunPlain(b, e', program[1..]).1);
      assert [step] + program[1..] == program;
    }
  }

  /** A gen asks once, with its own parameters, about the text there is; a fill asks nothing. */
  lemma PlainStepAsks(b: Backend, e: Exec, step: Step)
    ensures var (e', completions) := RunPlain(b, e, [step]);
            match step
            case FillStep(value) => completions == [] && e'.text == e.text + value && e'.variables == e.variables
            case GenStep(key, params) =>
              && completions == [b.generate(e.text, params)]
              && e'.text == e.text + completions[0] && e'.variables == e.variables[key := completions[0]]
  {
    assert [step][1..] == [];
  }

  /** A program runs step by step. */
  lemma PlainRunsInSteps(b: Backend, e: Exec, step: Step, rest: seq<Step>)
    ensures var (e', completions) := RunPlain(b, e, [step]);
            var (e'', more) := RunPlain(b, e', rest);
            RunPlain(b, e, [step] + rest) == (e'', completions + more)
  {
    assert ([step] + rest)[1..] == rest && [step][1..] == [];
    var e', own := PlainStep(b, e, step), if step.GenStep? then [b.generate(e.text, step.params)] else [];
    assert RunPlain(b, e', []) == (e', []) && own + [] == own;
    assert RunPlain(b, e, [step]) == (e', own);
  }

  /** So does a speculative run. */
  lemma {:induction false} SpeculativeRunWrites(b: Backend, ahead: nat, e: Exec, program: seq<Step>)
    ensures RunSpec(b, ahead, e, program).0.text == e.text + Written(program, RunSpec(b, ahead, e, program).1)
    decreases |program|
  {
    if program != [] {
      var step, e' := program[0], SpecStep(b, ahead, e, program[0]);
      SpeculativeRunWrites(b, ahead, e', program[1..]);
      WrittenStep(e.text, step, if step.FillStep? then step.value else SpecGen(e, b, step.params, ahead).0,
                  program[1..], RunSpec(b, ahead, e', program[1..]).1);
      assert [step] + program[1..] == program;
    }
  }

  /** Every gen of the speculative run is exact where it is executed. */
  ghost predicate AllExact(b: Backend, continuation: string -> string, ahead: nat, e: Exec, program: seq<Step>)
    decreases |program|
  {
    program != [] ==>
      && (program[0].GenStep? ==> Exact(b, continuation, e, program[0].params, ahead))
      && AllExact(b, continuation, ahead, SpecStep(b, ahead, e, program[0]), program[1..])
  }

  predicate SameSoFar(e: Exec, e': Exec) {
    e.text == e'.text && e.variables == e'.variables
  }

  /** A speculative run refines the plain run: the completions are the same exactly when every gen is
      exact, and then the text and all variables are the same too. */
  lemma {:induction false} SpeculationRefines(b: Backend, continuation: string -> string, ahead: nat, e: Exec,
                                              e': Exec, program: seq<Step>)
    requires Completes(b, continuation) && Coherent(continuation) && Ahead(continuation, e)
    requires SameSoFar(e, e')
    ensures RunSpec(b, ahead, e, program).1 == RunPlain(b, e', program).1 <==>
            AllExact(b, continuation, ahead, e, program)
    ensures AllExact(b, continuation, ahead, e, program) ==>
              SameSoFar(RunSpec(b, ahead, e, program).0, RunPlain(b, e', program).0)
    decreases |program|
  {
    if program != [] {
      var step := program[0];
      StepStaysAhead(b, continuation, ahead, e, step);
      if step.GenStep? {
        SameCompletionIffExact(b, continuation, e, step.params, ahead);
      }
      if step.FillStep? || Exact(b, continuation, e, step.params, ahead) {
        SpeculationRefines(b, continuation, ahead, SpecStep(b, ahead, e, step), PlainStep(b, e', step), program[1..]);
        var rest, rest' := RunSpec(b, ahead, SpecStep(b, ahead, e, step), program[1..]).1,
                           RunPlain(b, PlainStep(b, e', step), program[1..]).1;
        var completions, completions' := RunSpec(b, ahead, e, program).1, RunPlain(b, e', program).1;
        var n := if step.GenStep? then 1 else 0;
        assert completions[n..] == rest && completions'[n..] == rest';
        assert completions[..n] == completions'[..n];
        assert completions == completions[..n] + completions[n..];
        assert completions' == completions'[..n] + completions'[n..];
      } else {
        assert RunSpec(b, ahead, e, program).1[0] != RunPlain(b, e', program).1[0];
      }
    }
  }
}
