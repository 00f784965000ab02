/** The text found by tracing a program on dummy arguments is a prefix of the text of every
    real run, whatever its arguments and whatever the model answers. */
module PrefixTracing {
  import opened Prelude
  import opened Ir
  import opened ChatTemplates
  import opened Executor
  import opened Tracing
  import opened Tracer

  /** What a real run is given: the argument values, the values read from other calls, the model. */
  datatype World = World(
    backend: Backend,
    arguments: string -> string,
    values: (string, Id) -> string,
    defaults: Params)

  /** The interpreter on one element that is not a list. */
  function RunElement(w: World, template: ChatTemplate, e: Exec, x: Expr): Result<Exec> {
    match x
    case Object(_, Const(value)) => Ok(Fill(e, value))
    case Object(_, Argument(name)) => Ok(Fill(e, w.arguments(name)))
    case Object(_, Gen(key, o)) => Ok(PlainGen(e, w.backend, key, ResolveParams(w.defaults, o)))
    case Object(_, Select(key, choices)) => Ok(Decide(e, key, w.backend.select(e.text, choices)))
    case Object(_, Variable(name, source)) => Ok(Fill(e, w.values(name, source)))
    case ExprList(_) => Ok(e)
    case RoleBegin(role) => BeginRole(e, template, role)
    case RoleEnd(role) => Ok(CloseRole(e, template, role))
    case Unknown(added) => Ok(e.(text := e.text + added))
  }

  function RunElements(w: World, template: ChatTemplate, e: Exec, xs: seq<Expr>): Result<Exec>
    decreases |xs|
  {
    if xs == [] then Ok(e)
    else
      match RunElement(w, template, e, xs[0])
      case Err(error) => Err(error)
      case Ok(e') => RunElements(w, template, e', xs[1..])
  }

  /** Elements whose text is the same in every run. */
  predicate IsConstant(x: Expr) {
    match x
    case Object(_, kind) => kind.Const?
    case Unknown(_) => false
    case _ => true
  }

  /** A real run does what was traced, up to its first element that depends on an argument or on
      the model; from there on it may do anything. */
  ghost predicate Follows(traced: seq<Expr>, run: seq<Expr>) {
    traced <= run ||
    exists k :: 0 < k <= |traced| && traced[..k] <= run && !IsConstant(traced[k - 1])
  }

  lemma LeadingOneMore(kinds: seq<Kind>, i: nat)
    requires i < |kinds| && kinds[i].Const?
    ensures LeadingText(kinds[i..]) == kinds[i].value + LeadingText(kinds[i + 1..])
  {
    assert kinds[i..][1..] == kinds[i + 1..];
  }

  /** The loop that accumulates the prefix. */
  method AccumulatePrefix(kinds: seq<Kind>) returns (prefix: string)
    ensures prefix == LeadingText(kinds)
  {
    prefix := "";
    var i := 0;
    while i < |kinds| && kinds[i].Const?
      invariant i <= |kinds|
      invariant LeadingText(kinds) == prefix + LeadingText(kinds[i..])
    {
      LeadingOneMore(kinds, i);
      AppendTwice(prefix, kinds[i].value, LeadingText(kinds[i + 1..]));
      prefix := prefix + kinds[i].value;
      i := i + 1;
    }
  }

  /** `extract_prefix_by_tracing`: a failed assertion is not caught. */
  method ExtractPrefix(program: seq<Expr>, heap: IrHeap, template: ChatTemplate) returns (prefix: Result<string>)
    requires heap.Valid() && forall x :: x in program ==> Created(x, heap.kinds)
    modifies heap
    ensures prefix == Extracted(template, FlattenAll(program))
  {
    var tracer := new TracerProgramState(0, heap, template, true, map[]);
    var status := tracer.Execute(ExprList(program));
    if status.Asserted? {
      return Err(AssertionError);
    }
    var text := AccumulatePrefix(KindsOf(tracer.nodes, heap.kinds));
    prefix := Ok(text);
  }

  const UNTRACED: TracerState := TracerState([], [], None)

  function Extracted(template: ChatTemplate, traced: seq<Expr>): Result<string> {
    var (s, status) := TraceElements(UNTRACED, template, true, traced);
    if status.Asserted? then Err(AssertionError) else Ok(LeadingText(s.kinds))
  }

  // ----- the tracer and the interpreter side by side -----

  predicate AllConstant(kinds: seq<Kind>) {
    forall i :: 0 <= i < |kinds| ==> kinds[i].Const?
  }

  /** As long as all that was appended is constant, the texts are equal; the recorded contents
      differ, but the roles and the number of the messages do not. */
  predicate Matches(s: TracerState, e: Exec) {
    && AllConstant(s.kinds) && LeadingText(s.kinds) == e.text
    && s.curRole == e.curRole
    && |s.messages| == |e.messages|
    && (forall i :: 0 <= i < |s.messages| ==> s.messages[i].content.Some? && e.messages[i].content.Some?)
  }

  lemma SameAffixes(s: TracerState, e: Exec, template: ChatTemplate, role: string)
    requires Matches(s, e)
    ensures template.PrefixAndSuffix(role, s.messages) == template.PrefixAndSuffix(role, e.messages)
  {
  }

  lemma {:induction false} LeadingOfTwo(a: seq<Kind>, b: seq<Kind>)
    requires AllConstant(a)
    ensures LeadingText(a + b) == LeadingText(a) + LeadingText(b)
  {
    if a == [] {
      assert a + b == b;
    } else {
      assert (a + b)[1..] == a[1..] + b;
      LeadingOfTwo(a[1..], b);
    }
  }

  lemma FillMatches(s: TracerState, e: Exec, value: string)
    requires Matches(s, e)
    ensures Matches(s.Append(Const(value)), Fill(e, value))
  {
    LeadingOfTwo(s.kinds, [Const(value)]);
    assert LeadingText([Const(value)]) == value + LeadingText([Const(value)][1..]);
  }

  lemma OpenMatches(s: TracerState, e: Exec, template: ChatTemplate, role: string)
    requires Matches(s, e)
    ensures Matches(OpenTraced(s, template, role), OpenRole(e, template, role))
  {
    SameAffixes(s, e, template, role);
    FillMatches(s.(curRole := Some(role)), e.(curRole := Some(role)), template.PrefixAndSuffix(role, s.messages).0);
  }

  lemma CloseMatches(s: TracerState, e: Exec, template: ChatTemplate, role: string)
    requires Matches(s, e)
    ensures Matches(CloseTraced(s, template, role), CloseRole(e, template, role))
  {
    SameAffixes(s, e, template, role);
    FillMatches(s.(curRole := None), e.(curRole := None), template.PrefixAndSuffix(role, s.messages).1);
  }

  lemma BeginMatches(s: TracerState, e: Exec, template: ChatTemplate, role: string)
    requires Matches(s, e)
    ensures BeginRole(e, template, role).Ok? <==> BeginTraced(s, template, role).1.Running?
    ensures BeginRole(e, template, role).Ok? ==>
              Matches(BeginTraced(s, template, role).0, BeginRole(e, template, role).value)
  {
    if s.curRole.None? {
      if template.InsertsSystem(e.messages, role) {
        var prompt := template.defaultSystemPrompt.value;
        OpenMatches(s, e, template, "system");
        FillMatches(OpenTraced(s, template, "system"), OpenRole(e, template, "system"), prompt);
        CloseMatches(OpenTraced(s, template, "system").Append(Const(prompt)),
                     Fill(OpenRole(e, template, "system"), prompt),
                     template, "system");
        OpenMatches(SystemTraced(s, template), SystemBlock(e, template), template, role);
      } else {
        OpenMatches(s, e, template, role);
      }
    }
  }

  /** A constant element keeps the two in step. */
  lemma ConstantMatches(w: World, s: TracerState, e: Exec, template: ChatTemplate, x: Expr)
    requires Matches(s, e) && IsConstant(x)
    ensures RunElement(w, template, e, x).Ok? <==> TraceElement(s, template, true, x).1.Running?
    ensures RunElement(w, template, e, x).Ok? ==>
              Matches(TraceElement(s, template, true, x).0, RunElement(w, template, e, x).value)
  {
    match x
    case Object(_, kind) => FillMatches(s, e, kind.value);
    case RoleBegin(role) => BeginMatches(s, e, template, role);
    case RoleEnd(role) => CloseMatches(s, e, template, role);
    case _ =>
  }

  lemma PrefixIsTransitive(a: string, b: string, c: string)
    requires IsPrefix(a, b) && IsPrefix(b, c)
    ensures IsPrefix(a, c)
  {
    assert c[..|a|] == c[..|b|][..|a|];
  }

  lemma ElementGrows(w: World, template: ChatTemplate, e: Exec, x: Expr)
    requires RunElement(w, template, e, x).Ok?
    ensures IsPrefix(e.text, RunElement(w, template, e, x).value.text)
  {
    if x.RoleBegin? && template.InsertsSystem(e.messages, x.role) {
      var begun := OpenRole(e, template, "system");
      var filled := Fill(begun, template.defaultSystemPrompt.value);
      var closed := CloseRole(filled, template, "system");
      PrefixIsTransitive(e.text, begun.text, filled.text);
      PrefixIsTransitive(e.text, filled.text, closed.text);
      PrefixIsTransitive(e.text, closed.text, OpenRole(closed, template, x.role).text);
    }
  }

  lemma {:induction false} TextOnlyGrows(w: World, template: ChatTemplate, e: Exec, xs: seq<Expr>)
    requires RunElements(w, template, e, xs).Ok?
    ensures IsPrefix(e.text, RunElements(w, template, e, xs).value.text)
    decreases |xs|
  {
    if xs != [] {
      var e' := RunElement(w, template, e, xs[0]).value;
      ElementGrows(w, template, e, xs[0]);
      TextOnlyGrows(w, template, e', xs[1..]);
      PrefixIsTransitive(e.text, e'.text, RunElements(w, template, e, xs).value.text);
    }
  }

  lemma {:induction false} KindsOnlyGrow(s: TracerState, template: ChatTemplate, xs: seq<Expr>)
    ensures s.kinds <= TraceElements(s, template, true, xs).0.kinds
    decreases |xs|
  {
    if xs != [] {
      var (s', status) := TraceElement(s, template, true, xs[0]);
      if status.Running? {
        KindsOnlyGrow(s', template, xs[1..]);
      }
    }
  }

  /** After an element that is not constant nothing more is extracted. */
  lemma NothingMore(s: TracerState, template: ChatTemplate, xs: seq<Expr>)
    requires AllConstant(s.kinds) && xs != [] && !IsConstant(xs[0])
    ensures LeadingText(TraceElements(s, template, true, xs).0.kinds) == LeadingText(s.kinds)
  {
    var (s', status) := TraceElement(s, template, true, xs[0]);
    LeadingOfTwo(s.kinds, []);
    assert s.kinds + [] == s.kinds;
    if status.Running? {
      KindsOnlyGrow(s', template, xs[1..]);
      var final := TraceElements(s', template, true, xs[1..]).0.kinds;
      assert s'.kinds <= final && s'.kinds == s.kinds + [xs[0].kind];
      LeadingOfTwo(s.kinds, final[|s.kinds|..]);
      assert final == s.kinds + final[|s.kinds|..];
      assert final[|s.kinds|..][0] == xs[0].kind;
    }
  }

  /** From matching states, a run that follows the trace has the extracted text as a prefix. */
  lemma {:induction false} ExtractedIsPrefix(w: World, template: ChatTemplate, s: TracerState, e: Exec,
                                             traced: seq<Expr>, run: seq<Expr>)
    requires Matches(s, e) && Follows(traced, run)
    requires RunElements(w, template, e, run).Ok?
    ensures IsPrefix(LeadingText(TraceElements(s, template, true, traced).0.kinds),
                     RunElements(w, template, e, run).value.text)
    decreases |traced|
  {
    if traced == [] {
      TextOnlyGrows(w, template, e, run);
    } else if !IsConstant(traced[0]) {
      NothingMore(s, template, traced);
      TextOnlyGrows(w, template, e, run);
    } else {
      assert run != [] && traced[0] == run[0] by {
        if !(traced <= run) {
          var k :| 0 < k <= |traced| && traced[..k] <= run && !IsConstant(traced[k - 1]);
          assert traced[..k][0] == run[0];
        }
      }
      ConstantMatches(w, s, e, template, traced[0]);
      FollowsTail(traced, run);
      ExtractedIsPrefix(w, template, TraceElement(s, template, true, traced[0]).0,
                        RunElement(w, template, e, run[0]).value, traced[1..], run[1..]);
    }
  }

  lemma FollowsTail(traced: seq<Expr>, run: seq<Expr>)
    requires Follows(traced, run) && traced != [] && IsConstant(traced[0]) && run != []
    ensures Follows(traced[1..], run[1..])
  {
    if !(traced <= run) {
      var k :| 0 < k <= |traced| && traced[..k] <= run && !IsConstant(traced[k - 1]);
      assert traced[1..][..k - 1] == traced[..k][1..];
      assert traced[1..][..k - 1] <= run[1..];
      assert !IsConstant(traced[1..][k - 2]);
    }
  }

  /** The extracted prefix is a prefix of the text of every real run that follows the trace. */
  lemma PrefixOfEveryRun(w: World, template: ChatTemplate, traced: seq<Expr>, run: seq<Expr>)
    requires Follows(traced, run)
    requires Extracted(template, traced).Ok?
    requires RunElements(w, template, FRESH, run).Ok?
    ensures IsPrefix(Extracted(template, traced).value, RunElements(w, template, FRESH, run).value.text)
  {
    ExtractedIsPrefix(w, template, UNTRACED, FRESH, traced, run);
  }

  /** A program made only of constants, roles included: nothing of its text is missed. */
  lemma {:induction false} ConstantProgramIsExtracted(w: World, template: ChatTemplate, s: TracerState, e: Exec,
                                                      program: seq<Expr>)
    requires Matches(s, e) && forall x :: x in program ==> IsConstant(x)
    ensures RunElements(w, template, e, program).Ok? <==> TraceElements(s, template, true, program).1.Running?
    ensures RunElements(w, template, e, program).Ok? ==>
              LeadingText(TraceElements(s, template, true, program).0.kinds) ==
              RunElements(w, template, e, program).value.text
    decreases |program|
  {
    if program != [] {
      ConstantMatches(w, s, e, template, program[0]);
      if RunElement(w, template, e, program[0]).Ok? {
        ConstantProgramIsExtracted(w, template, TraceElement(s, template, true, program[0]).0,
                                   RunElement(w, template, e, program[0]).value, program[1..]);
      }
    }
  }
}
