/** Models that answer every question of two given programs differently: from their answers one can tell
    what they were asked. */
module DiscerningModels {
  import opened Prelude
  import opened Ir
  import opened Executor
  import opened FixedLengthModels
  import opened HeavyModels
  import opened Network

  // ----- what a model is asked -----

  /** What the model is asked by submission n, apart from the letters of the text: how many of them the
      program gave, and how many answers the text holds. */
  datatype Query =
    | Generated(params: Params, given: nat, answers: int)
    | Selected(choices: seq<string>, given: nat, answers: int)

  const MUTE: Backend := Backend((text, params) => "", (text, choices) => "")
  const SILENT: Backends := Everywhere(MUTE)

  /** The letters of the text before a submission that the program gave, and the answers in it. */
  function Given(program: seq<Submission>, width: nat, n: nat): nat
    requires n < |program| && program[n].stream < width
  {
    |Unthreaded(SILENT, program, width, n)[program[n].stream].text|
  }

  function Answers(program: seq<Submission>, width: nat, n: nat): int
    requires n < |program| && program[n].stream < width
  {
    |Unthreaded(TERSE, program, width, n)[program[n].stream].text| - Given(program, width, n)
  }

  function QueryOf(program: seq<Submission>, width: nat, n: nat): Option<Query>
    requires n < |program| && program[n].stream < width
  {
    match program[n].op
    case Gen(_, params) => Some(Generated(params, Given(program, width, n), Answers(program, width, n)))
    case Select(_, choices) => Some(Selected(choices, Given(program, width, n), Answers(program, width, n)))
    case _ => None
  }

  /** The lengths after n submissions, with answers of m letters, of none and of one. */
  predicate LengthsAddUp(m: nat, b: Backends, program: seq<Submission>, width: nat, n: nat)
    requires n <= |program|
  {
    forall s :: 0 <= s < width ==>
      AddsUp(m, Unthreaded(b, program, width, n)[s], Unthreaded(SILENT, program, width, n)[s],
             Unthreaded(TERSE, program, width, n)[s])
  }

  /** The length of so many answers of m letters. */
  function Blocks(m: nat, answers: nat): nat {
    if answers == 0 then 0 else m + Blocks(m, answers - 1)
  }

  lemma {:induction false} BlocksAdd(m: nat, x: nat, y: nat)
    ensures Blocks(m, x + y) == Blocks(m, x) + Blocks(m, y)
  {
    if x > 0 {
      BlocksAdd(m, x - 1, y);
    }
  }

  predicate AddsUp(m: nat, e: Exec, e0: Exec, e1: Exec) {
    && |e0.text| <= |e1.text| && |e.text| == |e0.text| + Blocks(m, |e1.text| - |e0.text|)
    && e.variables.Keys == e0.variables.Keys == e1.variables.Keys
  }

  /** What one submission contributes adds up in the same way. */
  lemma OutputAddsUp(m: nat, b: Backends, program: seq<Submission>, width: nat, n: nat)
    requires FixedLength(m, b) && n < |program| && program[n].stream < width && LengthsAddUp(m, b, program, width, n)
    ensures var o, o0, o1 := |OutputOf(b, program, width, n)|, |OutputOf(SILENT, program, width, n)|,
                             |OutputOf(TERSE, program, width, n)|;
            o0 <= o1 && o == o0 + Blocks(m, o1 - o0)
  {
    OutputCosts(m, b, program, width, n);
    OutputCosts(0, SILENT, program, width, n);
    OutputCosts(1, TERSE, program, width, n);
    var op := program[n].op;
    if op.Read? && op.source < width {
      FixedVariables(m, b, program, width, n, op.source, Some(op.name));
      FixedVariables(0, SILENT, program, width, n, op.source, Some(op.name));
      FixedVariables(1, TERSE, program, width, n, op.source, Some(op.name));
      assert AddsUp(m, Unthreaded(b, program, width, n)[op.source], Unthreaded(SILENT, program, width, n)[op.source],
                    Unthreaded(TERSE, program, width, n)[op.source]);
    }
  }

  lemma GrownAddsUp(m: nat, e: Exec, e0: Exec, e1: Exec, f: Exec, f0: Exec, f1: Exec, o: nat, o0: nat, o1: nat)
    requires AddsUp(m, e, e0, e1) && o0 <= o1 && o == o0 + Blocks(m, o1 - o0)
    requires |f.text| == |e.text| + o && |f0.text| == |e0.text| + o0 && |f1.text| == |e1.text| + o1
    requires f.variables.Keys == f0.variables.Keys == f1.variables.Keys
    ensures AddsUp(m, f, f0, f1)
  {
    BlocksAdd(m, |e1.text| - |e0.text|, o1 - o0);
    assert |f1.text| - |f0.text| == |e1.text| - |e0.text| + (o1 - o0);
  }

  function StoredKeys(op: Op): set<Key> {
    match op
    case Gen(key, _) => {key}
    case Select(key, _) => if key.Some? then {key} else {}
    case _ => {}
  }

  /** Which variables a stream has depends on no answer. */
  lemma KeysGrow(b: Backends, program: seq<Submission>, width: nat, k: nat, s: nat)
    requires k < |program| && s < width
    ensures Unthreaded(b, program, width, k + 1)[s].variables.Keys ==
            Unthreaded(b, program, width, k)[s].variables.Keys +
            if program[k].stream == s then StoredKeys(program[k].op) else {}
  {
  }

  lemma StartAddsUp(m: nat, b: Backends, program: seq<Submission>, width: nat)
    ensures LengthsAddUp(m, b, program, width, 0)
  {
    assert Blocks(m, 0) == 0;
  }

  lemma {:induction false} AllLengthsAddUp(m: nat, b: Backends, program: seq<Submission>, width: nat, n: nat)
    requires FixedLength(m, b) && n <= |program|
    ensures LengthsAddUp(m, b, program, width, n)
  {
    if n == 0 {
      StartAddsUp(m, b, program, width);
    } else {
      AllLengthsAddUp(m, b, program, width, n - 1);
      StepAddsUp(m, b, program, width, n);
    }
  }

  lemma StepAddsUp(m: nat, b: Backends, program: seq<Submission>, width: nat, n: nat)
    requires FixedLength(m, b) && 0 < n <= |program| && LengthsAddUp(m, b, program, width, n - 1)
    ensures LengthsAddUp(m, b, program, width, n)
  {
    forall s: nat | s < width
      ensures AddsUp(m, Unthreaded(b, program, width, n)[s], Unthreaded(SILENT, program, width, n)[s],
                     Unthreaded(TERSE, program, width, n)[s])
    {
      StreamAddsUp(m, b, program, width, n - 1, s);
    }
  }

  lemma StreamAddsUp(m: nat, b: Backends, program: seq<Submission>, width: nat, k: nat, s: nat)
    requires FixedLength(m, b) && k < |program| && s < width && LengthsAddUp(m, b, program, width, k)
    ensures AddsUp(m, Unthreaded(b, program, width, k + 1)[s], Unthreaded(SILENT, program, width, k + 1)[s],
                   Unthreaded(TERSE, program, width, k + 1)[s])
  {
    KeysGrow(b, program, width, k, s);
    KeysGrow(SILENT, program, width, k, s);
    KeysGrow(TERSE, program, width, k, s);
    LengthGrows(b, program, width, k, s);
    LengthGrows(SILENT, program, width, k, s);
    LengthGrows(TERSE, program, width, k, s);
    var e, e0, e1 := Unthreaded(b, program, width, k)[s], Unthreaded(SILENT, program, width, k)[s],
                     Unthreaded(TERSE, program, width, k)[s];
    assert AddsUp(m, e, e0, e1);
    if program[k].stream == s {
      OutputAddsUp(m, b, program, width, k);
      GrownAddsUp(m, e, e0, e1, Unthreaded(b, program, width, k + 1)[s], Unthreaded(SILENT, program, width, k + 1)[s],
                  Unthreaded(TERSE, program, width, k + 1)[s], |OutputOf(b, program, width, k)|,
                  |OutputOf(SILENT, program, width, k)|, |OutputOf(TERSE, program, width, k)|);
    }
  }

  /** With answers that are longer than all that a program says, lengths tell how much of a text is answers. */
  lemma LengthTellsAnswers(m: nat, a: nat, g: nat, a': nat, g': nat)
    requires a < m && a' < m && a + Blocks(m, g) == a' + Blocks(m, g')
    ensures a == a' && g == g'
  {
    if g < g' {
      LaterBlock(m, g, g');
    } else if g' < g {
      LaterBlock(m, g', g);
    }
  }

  lemma LaterBlock(m: nat, g: nat, g': nat)
    requires g < g'
    ensures Blocks(m, g) + m <= Blocks(m, g')
  {
    BlocksAdd(m, g, g' - g);
  }

  // ----- a model that answers every question differently -----

  datatype Question = Generating(params: Params, text: string) | Selecting(choices: seq<string>, text: string)

  /** A number, written in m letters. */
  function Block(n: nat, m: nat): string {
    seq(m, i => if i < n then 'y' else 'x')
  }

  lemma BlocksDiffer(n: nat, n': nat, m: nat)
    requires n < n' <= m
    ensures Block(n, m) != Block(n', m)
  {
    assert Block(n, m)[n] == 'x' && Block(n', m)[n] == 'y';
  }

  /** It answers what is in the table by its number. */
  function Tabled(table: map<Question, nat>, m: nat): Backend {
    Backend((text: string, params: Params) =>
              Block(if Generating(params, text) in table then table[Generating(params, text)] else 0, m),
            (text: string, choices: seq<string>) =>
              Block(if Selecting(choices, text) in table then table[Selecting(choices, text)] else 0, m))
  }

  predicate Numbered(table: map<Question, nat>) {
    && (forall q :: q in table ==> table[q] < |table|)
    && (forall q, q' :: q in table && q' in table && q != q' ==> table[q] != table[q'])
  }

  predicate Within(table: map<Question, nat>, table': map<Question, nat>) {
    forall q :: q in table ==> q in table' && table'[q] == table[q]
  }

  function QuestionAt(b: Backends, program: seq<Submission>, width: nat, n: nat): Option<Question>
    requires n < |program| && program[n].stream < width
  {
    var text := Unthreaded(b, program, width, n)[program[n].stream].text;
    match program[n].op
    case Gen(_, params) => Some(Generating(params, text))
    case Select(_, choices) => Some(Selecting(choices, text))
    case _ => None
  }

  /** The table holds what submission i asks when the model of the table answers. */
  predicate Asked(table: map<Question, nat>, m: nat, program: seq<Submission>, width: nat, i: nat)
    requires i < |program|
  {
    program[i].stream < width ==>
      var q := QuestionAt(Everywhere(Tabled(table, m)), program, width, i);
      q.Some? ==> q.value in table
  }

  predicate Covers(table: map<Question, nat>, m: nat, program: seq<Submission>, width: nat, n: nat)
    requires n <= |program|
  {
    forall i :: 0 <= i < n ==> Asked(table, m, program, width, i)
  }

  predicate RunAlike(table: map<Question, nat>, table': map<Question, nat>, m: nat, program: seq<Submission>,
                     width: nat, n: nat)
    requires n <= |program|
  {
    Unthreaded(Everywhere(Tabled(table', m)), program, width, n) ==
    Unthreaded(Everywhere(Tabled(table, m)), program, width, n)
  }

  lemma AnswersTheSame(table: map<Question, nat>, table': map<Question, nat>, m: nat, program: seq<Submission>,
                       width: nat, n: nat)
    requires Within(table, table') && n < |program| && RunAlike(table, table', m, program, width, n)
    requires Asked(table, m, program, width, n)
    ensures Asked(table', m, program, width, n)
    ensures program[n].stream < width ==>
              OutputOf(Everywhere(Tabled(table', m)), program, width, n) ==
              OutputOf(Everywhere(Tabled(table, m)), program, width, n)
  {
  }

  lemma StaysAlike(b: Backends, b': Backends, program: seq<Submission>, width: nat, n: nat)
    requires n < |program| && Unthreaded(b', program, width, n) == Unthreaded(b, program, width, n)
    requires program[n].stream < width ==> OutputOf(b', program, width, n) == OutputOf(b, program, width, n)
    ensures Unthreaded(b', program, width, n + 1) == Unthreaded(b, program, width, n + 1)
  {
  }

  /** More questions in the table do not change a run that asks none of them. */
  lemma MoreIsTheSame(table: map<Question, nat>, table': map<Question, nat>, m: nat,
                      program: seq<Submission>, width: nat, n: nat)
    requires Within(table, table') && n <= |program| && Covers(table, m, program, width, n)
    ensures RunAlike(table, table', m, program, width, n) && Covers(table', m, program, width, n)
  {
    NothingRunsAlike(table, table', m, program, width);
    for i := 0 to n
      invariant RunAlike(table, table', m, program, width, i) && Covers(table', m, program, width, i)
    {
      AnswersTheSame(table, table', m, program, width, i);
      StaysAlike(Everywhere(Tabled(table, m)), Everywhere(Tabled(table', m)), program, width, i);
    }
  }

  lemma NothingRunsAlike(table: map<Question, nat>, table': map<Question, nat>, m: nat,
                         program: seq<Submission>, width: nat)
    ensures RunAlike(table, table', m, program, width, 0)
  {
  }

  lemma AddQuestion(table: map<Question, nat>, q: Question)
    requires Numbered(table) && q !in table
    ensures Within(table, table[q := |table|]) && Numbered(table[q := |table|])
    ensures |table[q := |table|]| == |table| + 1
  {
    assert table[q := |table|].Keys == table.Keys + {q};
  }

  /** The table is extended by what the next submission asks. */
  lemma ExtendTable(before: map<Question, nat>, m: nat, program: seq<Submission>, width: nat, n: nat)
    returns (table: map<Question, nat>)
    requires n < |program| && Numbered(before) && Covers(before, m, program, width, n)
    ensures Within(before, table) && Numbered(table) && |table| <= |before| + 1
    ensures Covers(table, m, program, width, n + 1)
  {
    table := before;
    if !Asked(before, m, program, width, n) {
      var q := QuestionAt(Everywhere(Tabled(before, m)), program, width, n).value;
      table := before[q := |before|];
      AddQuestion(before, q);
      MoreIsTheSame(before, table, m, program, width, n);
      assert QuestionAt(Everywhere(Tabled(table, m)), program, width, n) == Some(q);
    }
  }

  /** A table with all questions that a program asks of the model of that table. */
  lemma {:induction false} BuildTable(before: map<Question, nat>, m: nat, program: seq<Submission>, width: nat, n: nat)
    returns (table: map<Question, nat>)
    requires n <= |program| && Numbered(before)
    ensures Within(before, table) && Numbered(table) && |table| <= |before| + n
    ensures Covers(table, m, program, width, n)
  {
    if n == 0 {
      table := before;
    } else {
      var init := BuildTable(before, m, program, width, n - 1);
      table := ExtendTable(init, m, program, width, n - 1);
    }
  }

  /** Whatever the two programs ask, equal answers are answers to equal questions; and answers are longer
      than all that either program says. */
  ghost predicate Discerns(m: nat, b: Backend, p: seq<Submission>, width: nat, p': seq<Submission>, width': nat) {
    && FixedLength(m, Everywhere(b)) && Letters(p) < m && Letters(p') < m
    && forall i: nat, i': nat :: i < |p| && i' < |p'| && p[i].stream < width && p'[i'].stream < width' ==>
         AnswersTell(b, p, width, i, p', width', i')
  }

  predicate AnswersTell(b: Backend, p: seq<Submission>, width: nat, i: nat, p': seq<Submission>, width': nat, i': nat)
    requires i < |p| && i' < |p'| && p[i].stream < width && p'[i'].stream < width'
  {
    var q, q' := QuestionAt(Everywhere(b), p, width, i), QuestionAt(Everywhere(b), p', width', i');
    q.Some? && q'.Some? && OutputOf(Everywhere(b), p, width, i) == OutputOf(Everywhere(b), p', width', i') ==> q == q'
  }

  lemma TableTells(table: map<Question, nat>, m: nat, p: seq<Submission>, width: nat, i: nat, p': seq<Submission>,
                   width': nat, i': nat)
    requires Numbered(table) && |table| <= m && i < |p| && i' < |p'| && p[i].stream < width && p'[i'].stream < width'
    requires Covers(table, m, p, width, |p|) && Covers(table, m, p', width', |p'|)
    ensures AnswersTell(Tabled(table, m), p, width, i, p', width', i')
  {
    var b := Everywhere(Tabled(table, m));
    var q, q' := QuestionAt(b, p, width, i), QuestionAt(b, p', width', i');
    assert Asked(table, m, p, width, i) && Asked(table, m, p', width', i');
    if q.Some? && q'.Some? && q != q' {
      var n, n' := table[q.value], table[q'.value];
      if n < n' {
        BlocksDiffer(n, n', m);
      } else {
        BlocksDiffer(n', n, m);
      }
    }
  }

  lemma DiscerningModel(p: seq<Submission>, width: nat, p': seq<Submission>, width': nat) returns (m: nat, b: Backend)
    ensures Discerns(m, b, p, width, p', width')
  {
    m := 1 + |p| + |p'| + Letters(p) + Letters(p');
    var first := BuildTable(map[], m, p, width, |p|);
    var table := BuildTable(first, m, p', width', |p'|);
    MoreIsTheSame(first, table, m, p, width, |p|);
    b := Tabled(table, m);
    forall i: nat, i': nat | i < |p| && i' < |p'| && p[i].stream < width && p'[i'].stream < width'
      ensures AnswersTell(b, p, width, i, p', width', i')
    {
      TableTells(table, m, p, width, i, p', width', i');
    }
  }

  lemma TextAddsUp(m: nat, b: Backends, p: seq<Submission>, width: nat, i: nat)
    requires FixedLength(m, b) && Letters(p) < m && i < |p| && p[i].stream < width
    ensures Given(p, width, i) < m && Answers(p, width, i) >= 0
    ensures |Unthreaded(b, p, width, i)[p[i].stream].text| == Given(p, width, i) + Blocks(m, Answers(p, width, i))
  {
    AllLengthsAddUp(m, b, p, width, i);
    SaysAtMost(p, width, p[i].stream, i);
    assert AddsUp(m, Unthreaded(b, p, width, i)[p[i].stream], Unthreaded(SILENT, p, width, i)[p[i].stream],
                  Unthreaded(TERSE, p, width, i)[p[i].stream]);
  }

  /** Equal questions are asked after texts with as much said by the program and as many answers. */
  lemma SameQuestionSameQuery(m: nat, b: Backends, p: seq<Submission>, width: nat, i: nat, p': seq<Submission>,
                              width': nat, i': nat)
    requires FixedLength(m, b) && Letters(p) < m && Letters(p') < m
    requires i < |p| && i' < |p'| && p[i].stream < width && p'[i'].stream < width'
    requires QuestionAt(b, p, width, i).Some? && QuestionAt(b, p, width, i) == QuestionAt(b, p', width', i')
    ensures QueryOf(p, width, i) == QueryOf(p', width', i')
  {
    TextAddsUp(m, b, p, width, i);
    TextAddsUp(m, b, p', width', i');
    LengthTellsAnswers(m, Given(p, width, i), Answers(p, width, i), Given(p', width', i'), Answers(p', width', i'));
  }

  lemma {:induction false} SaysAtMost(program: seq<Submission>, width: nat, s: nat, n: nat)
    requires n <= |program| && s < width
    ensures |Unthreaded(SILENT, program, width, n)[s].text| <= Letters(program[..n]) <= Letters(program)
  {
    LettersGrow(program, n);
    if n > 0 {
      SaysAtMost(program, width, s, n - 1);
      assert program[..n][..n - 1] == program[..n - 1];
      LengthGrows(SILENT, program, width, n - 1, s);
      if program[n - 1].stream == s {
        OutputCosts(0, SILENT, program, width, n - 1);
      }
    }
  }

  lemma {:induction false} LettersGrow(program: seq<Submission>, n: nat)
    requires n <= |program|
    ensures Letters(program[..n]) <= Letters(program)
    decreases |program|
  {
    if n < |program| {
      assert program[..|program| - 1][..n] == program[..n];
      LettersGrow(program[..|program| - 1], n);
    } else {
      assert program[..n] == program;
    }
  }
}
