/** Models that answer at greater length than any text the program itself submits. */
module HeavyModels {
  import opened Ir
  import opened Network

  function Stars(n: nat): (s: string)
    ensures |s| == n
  {
    seq(n, _ => '*')
  }

  /** Every answer is longer than the text before it, by the given length. */
  function Heavy(w: nat): Backend {
    Backend((text, params) => Stars(|text| + w), (text, choices) => Stars(|text| + w))
  }

  function Heavily(w: nat): Backends {
    Everywhere(Heavy(w))
  }

  predicate TextsAreShorter(program: seq<Submission>, w: nat) {
    forall i :: 0 <= i < |program| && program[i].op.Text? ==> |program[i].op.value| < w
  }

  /** The letters of all texts that a program submits. */
  function Letters(program: seq<Submission>): nat {
    if program == [] then 0
    else
      var last := program[|program| - 1].op;
      Letters(program[..|program| - 1]) + if last.Text? then |last.value| else 0
  }

  lemma {:induction false} TextFits(program: seq<Submission>, i: nat)
    requires i < |program| && program[i].op.Text?
    ensures |program[i].op.value| <= Letters(program)
  {
    if i < |program| - 1 {
      TextFits(program[..|program| - 1], i);
    }
  }

  lemma HeavyOut(w: nat, program: seq<Submission>, width: nat, i: nat)
    requires i < |program| && program[i].stream < width && Defines(program[i].op).Some?
    ensures |OutputOf(Heavily(w), program, width, i)| ==
            |Unthreaded(Heavily(w), program, width, i)[program[i].stream].text| + w
  {
  }

  /** A stream to which only text is submitted is no longer than all texts. */
  lemma {:induction false} OnlyText(b: Backends, program: seq<Submission>, width: nat, s: nat, n: nat)
    requires n <= |program| && s < width
    requires forall i :: 0 <= i < n && program[i].stream == s ==> program[i].op.Text?
    ensures |Unthreaded(b, program, width, n)[s].text| <= Letters(program[..n])
  {
    if n > 0 {
      OnlyText(b, program, width, s, n - 1);
      assert program[..n][..n - 1] == program[..n - 1];
    }
  }
}
