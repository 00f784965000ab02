/** Models whose answers all have the same length: with them, how long a text is does not depend on what
    was asked. */
module FixedLengthModels {
  import opened Prelude
  import opened Ir
  import opened Executor
  import opened Network

  ghost predicate FixedLength(m: nat, b: Backends) {
    && (forall k: nat, text: string, params: Params :: |b(k).generate(text, params)| == m)
    && (forall k: nat, text: string, choices: seq<string> :: |b(k).select(text, choices)| == m)
  }

  const LETTER: Backend := Backend((text, params) => "x", (text, choices) => "x")
  const TERSE: Backends := Everywhere(LETTER)

  lemma ApplyAdds(e: Exec, op: Op, output: string)
    ensures |Apply(e, op, output).text| == |e.text| + |output| && IsPrefix(e.text, Apply(e, op, output).text)
    ensures e.speculated == "" ==> Apply(e, op, output).speculated == ""
    ensures e.speculated == "" && output == "" && op.Text? ==> Apply(e, op, output) == e
  {
  }

  /** A stream grows by what is submitted to it. */
  lemma LengthGrows(b: Backends, program: seq<Submission>, width: nat, k: nat, s: nat)
    requires k < |program| && s < width
    ensures |Unthreaded(b, program, width, k + 1)[s].text| ==
            |Unthreaded(b, program, width, k)[s].text| +
            if program[k].stream == s then |OutputOf(b, program, width, k)| else 0
  {
    var before := Unthreaded(b, program, width, k);
    ApplyAdds(before[s], program[k].op, OutputOf(b, program, width, k));
  }

  lemma {:induction false} TextStays(b: Backends, program: seq<Submission>, width: nat, s: nat, m: nat, n: nat)
    requires m <= n <= |program| && s < width
    ensures IsPrefix(Unthreaded(b, program, width, m)[s].text, Unthreaded(b, program, width, n)[s].text)
  {
    if m < n {
      TextStays(b, program, width, s, m, n - 1);
      var before := Unthreaded(b, program, width, n - 1)[s];
      ApplyAdds(before, program[n - 1].op, OutputOf(b, program, width, n - 1));
      var text, text' := Unthreaded(b, program, width, m)[s].text, Unthreaded(b, program, width, n)[s].text;
      assert text'[..|text|] == text'[..|before.text|][..|text|];
    }
  }

  lemma {:induction false} FixedVariables(m: nat, b: Backends, program: seq<Submission>, width: nat, k: nat, s: nat,
                                              key: Key)
    requires FixedLength(m, b) && k <= |program| && s < width
    ensures key in Unthreaded(b, program, width, k)[s].variables ==>
              |Unthreaded(b, program, width, k)[s].variables[key]| == m
  {
    if k > 0 {
      FixedVariables(m, b, program, width, k - 1, s, key);
      var sub := program[k - 1];
      assert Defines(sub.op).Some? && sub.stream < width ==>
          |Output(b, Unthreaded(b, program, width, k - 1), sub)| == m;
    }
  }

  lemma {:induction false} VariableStays(b: Backends, program: seq<Submission>, width: nat, d: nat, k: nat,
                                         name: string)
    requires d < k <= |program| && program[d].stream < width && Defines(program[d].op) == Some(Some(name))
    ensures Some(name) in Unthreaded(b, program, width, k)[program[d].stream].variables
  {
    if d + 1 < k {
      VariableStays(b, program, width, d, k - 1, name);
    }
  }

  /** What an operation adds to the text, at most: m letters for everything that is answered. */
  function Cost(m: nat, op: Op): nat {
    match op
    case Text(value) => |value|
    case _ => m
  }

  lemma OutputCosts(m: nat, b: Backends, program: seq<Submission>, width: nat, i: nat)
    requires FixedLength(m, b) && i < |program| && program[i].stream < width
    ensures |OutputOf(b, program, width, i)| <= Cost(m, program[i].op)
    ensures !program[i].op.Read? ==> |OutputOf(b, program, width, i)| == Cost(m, program[i].op)
  {
    var op := program[i].op;
    if op.Read? && op.source < width {
      FixedVariables(m, b, program, width, i, op.source, Some(op.name));
    }
  }

  /** A read of a variable that was defined before adds m letters. */
  lemma ReadCosts(m: nat, b: Backends, program: seq<Submission>, width: nat, d: nat, i: nat)
    requires FixedLength(m, b) && d < i < |program| && program[d].stream < width
    requires program[i].op.Read? && program[i].op.source == program[d].stream
    requires Defines(program[d].op) == Some(Some(program[i].op.name))
    ensures |OutputOf(b, program, width, i)| == m
  {
    VariableStays(b, program, width, d, i, program[i].op.name);
    FixedVariables(m, b, program, width, i, program[i].op.source, Some(program[i].op.name));
  }
}
