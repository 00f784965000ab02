/** What the streams of an unthreaded run hold, and each stream as the interpreter runs it by itself. */
module StreamTexts {
  import opened Prelude
  import opened Ir
  import opened ChatTemplates
  import opened Executor
  import opened Network
  import opened Tracer
  import opened CompiledMeaning
  import opened PrefixTracing
  import opened PrefixExtent

  /** What the first n submissions contribute to a stream, one after the other. */
  function Contributions(b: Backends, program: seq<Submission>, width: nat, s: nat, n: nat): string
    requires n <= |program|
  {
    if n == 0 then ""
    else
      Contributions(b, program, width, s, n - 1) +
      if program[n - 1].stream == s then OutputOf(b, program, width, n - 1) else ""
  }

  predicate IsText(b: Backends, program: seq<Submission>, width: nat, s: nat, n: nat)
    requires s < width && n <= |program|
  {
    Unthreaded(b, program, width, n)[s].text == Contributions(b, program, width, s, n)
  }

  lemma OneMoreContribution(b: Backends, program: seq<Submission>, width: nat, s: nat, n: nat)
    requires s < width && n < |program| && IsText(b, program, width, s, n)
    ensures IsText(b, program, width, s, n + 1)
  {
    assert Contributions(b, program, width, s, n) + "" == Contributions(b, program, width, s, n);
  }

  lemma TextIsContributions(b: Backends, program: seq<Submission>, width: nat, s: nat, n: nat)
    requires s < width && n <= |program|
    ensures Unthreaded(b, program, width, n)[s].text == Contributions(b, program, width, s, n)
  {
    for i := 0 to n
      invariant IsText(b, program, width, s, i)
    {
      OneMoreContribution(b, program, width, s, i);
    }
  }

  /** The text of a stream is what its submissions contribute, in order: a text itself; the answer of the
      stream's model to what stands there before; and for a read what its definition contributed. */
  lemma ContributionsAre(b: Backends, program: seq<Submission>, width: nat, k: nat)
    requires WellFormed(program, width) && k < |program|
    ensures forall n: nat, s: nat :: n <= |program| && s < width ==>
              Unthreaded(b, program, width, n)[s].text == Contributions(b, program, width, s, n)
    ensures var s, out := program[k].stream, OutputOf(b, program, width, k);
            match program[k].op
            case Text(value) => out == value
            case Gen(_, params) => out == b(s).generate(Contributions(b, program, width, s, k), params)
            case Select(_, choices) => out == b(s).select(Contributions(b, program, width, s, k), choices)
            case Read(source, name, _) =>
              exists d: nat :: d < k && SoleDefinition(program, d, source, name) &&
                               out == OutputOf(b, program, width, d)
  {
    forall n: nat, s: nat | n <= |program| && s < width
      ensures Unthreaded(b, program, width, n)[s].text == Contributions(b, program, width, s, n)
    {
      TextIsContributions(b, program, width, s, n);
    }
    if program[k].op.Read? {
      assert ReadIsServed(program, k);
      ReadContributes(b, program, width, k, DefinitionOf(program, k));
    }
  }

  lemma ReadContributes(b: Backends, program: seq<Submission>, width: nat, k: nat, d: nat)
    requires WellFormed(program, width) && d < k < |program| && program[k].op.Read?
    requires SoleDefinition(program, d, program[k].op.source, program[k].op.name)
    ensures OutputOf(b, program, width, k) == OutputOf(b, program, width, d)
  {
    VariableIsKept(b, program, width, d, program[k].op.source, program[k].op.name, k);
  }

  // ----- one stream by itself -----

  /** The submission is the one for the element, on stream s. */
  predicate IsFor(w: World, x: Expr, sub: Submission, s: nat, arguments: map<string, string>, value: string) {
    && x.Object? && sub.stream == s
    && Ok(sub.op) == OpOf(x.kind, if sub.op.Read? then sub.op.source else 0, sub.op.Read? && sub.op.onWorker,
                          arguments, w.defaults)
    && (x.kind.Variable? ==> w.values(x.kind.name, x.kind.source) == value)
  }

  /** The elements for stream s are submitted as they are met, and the world gives their variables the
      values that the reads of the run have. */
  ghost predicate AreFor(b: Backends, w: World, xs: seq<Expr>, program: seq<Submission>, width: nat, s: nat,
                   arguments: map<string, string>) {
    && |program| == |xs| && w.backend == b(s)
    && (forall name :: name in arguments ==> arguments[name] == w.arguments(name))
    && forall i: nat :: i < |xs| && program[i].stream == s ==>
         IsFor(w, xs[i], program[i], s, arguments, OutputOf(b, program, width, i))
  }

  function ElementsFor(xs: seq<Expr>, program: seq<Submission>, s: nat, n: nat): seq<Expr>
    requires n <= |xs| == |program|
  {
    if n == 0 then []
    else ElementsFor(xs, program, s, n - 1) + if program[n - 1].stream == s then [xs[n - 1]] else []
  }

  lemma ElementIsStep(b: Backends, w: World, template: ChatTemplate, execs: seq<Exec>, x: Expr, sub: Submission,
                      s: nat, arguments: map<string, string>)
    requires s < |execs| && w.backend == b(s) && IsFor(w, x, sub, s, arguments, Output(b, execs, sub))
    requires forall name :: name in arguments ==> arguments[name] == w.arguments(name)
    ensures RunElement(w, template, execs[s], x) == Ok(Apply(execs[s], sub.op, Output(b, execs, sub)))
  {
  }

  /** After n submissions, the stream is where its own elements lead the interpreter. */
  predicate RunsUpTo(b: Backends, w: World, template: ChatTemplate, xs: seq<Expr>, program: seq<Submission>,
                     width: nat, s: nat, n: nat)
    requires n <= |xs| == |program| && s < width
  {
    RunElements(w, template, FRESH, ElementsFor(xs, program, s, n)) == Ok(Unthreaded(b, program, width, n)[s])
  }

  /** Each stream of a run is in the state in which the interpreter is that executes the stream's elements
      by themselves, in a world where variables have the values read in the run. */
  lemma RunsAsStream(b: Backends, w: World, template: ChatTemplate, xs: seq<Expr>, program: seq<Submission>,
                     width: nat, s: nat, arguments: map<string, string>, n: nat)
    requires s < width && AreFor(b, w, xs, program, width, s, arguments) && n <= |xs|
    ensures RunsUpTo(b, w, template, xs, program, width, s, n)
  {
    NothingRuns(b, w, template, xs, program, width, s);
    for i := 0 to n
      invariant RunsUpTo(b, w, template, xs, program, width, s, i)
    {
      RunsOneMore(b, w, template, xs, program, width, s, arguments, i);
    }
  }

  lemma OtherStream(b: Backends, w: World, template: ChatTemplate, xs: seq<Expr>, program: seq<Submission>,
                    width: nat, s: nat, n: nat)
    requires s < width && n < |xs| == |program| && program[n].stream != s
    requires RunsUpTo(b, w, template, xs, program, width, s, n)
    ensures RunsUpTo(b, w, template, xs, program, width, s, n + 1)
  {
    StreamIsIdle(b, program, width, s, n, n + 1);
    var own := ElementsFor(xs, program, s, n);
    assert ElementsFor(xs, program, s, n + 1) == own + [] == own;
  }

  lemma NothingRuns(b: Backends, w: World, template: ChatTemplate, xs: seq<Expr>, program: seq<Submission>,
                    width: nat, s: nat)
    requires s < width && |xs| == |program|
    ensures RunsUpTo(b, w, template, xs, program, width, s, 0)
  {
  }

  lemma RunsOneMore(b: Backends, w: World, template: ChatTemplate, xs: seq<Expr>, program: seq<Submission>,
                    width: nat, s: nat, arguments: map<string, string>, n: nat)
    requires s < width && AreFor(b, w, xs, program, width, s, arguments) && n < |xs|
    requires RunsUpTo(b, w, template, xs, program, width, s, n)
    ensures RunsUpTo(b, w, template, xs, program, width, s, n + 1)
  {
    if program[n].stream == s {
      assert IsFor(w, xs[n], program[n], s, arguments, OutputOf(b, program, width, n));
      ElementIsStep(b, w, template, Unthreaded(b, program, width, n), xs[n], program[n], s, arguments);
      OwnStream(b, w, template, xs, program, width, s, n);
    } else {
      OtherStream(b, w, template, xs, program, width, s, n);
    }
  }

  lemma OwnStream(b: Backends, w: World, template: ChatTemplate, xs: seq<Expr>, program: seq<Submission>,
                  width: nat, s: nat, n: nat)
    requires s < width && n < |xs| == |program| && program[n].stream == s
    requires RunsUpTo(b, w, template, xs, program, width, s, n)
    requires var before := Unthreaded(b, program, width, n);
             RunElement(w, template, before[s], xs[n]) ==
             Ok(Apply(before[s], program[n].op, Output(b, before, program[n])))
    ensures RunsUpTo(b, w, template, xs, program, width, s, n + 1)
  {
    RunInTwo(w, template, FRESH, ElementsFor(xs, program, s, n), xs[n]);
  }
}
