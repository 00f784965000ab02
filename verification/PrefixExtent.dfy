/** How much is extracted by tracing: the text of the leading constants, no less and no more. */
module PrefixExtent {
  import opened Prelude
  import opened Ir
  import opened ChatTemplates
  import opened Executor
  import opened Tracer
  import opened PrefixTracing

  /** The elements before the first one that depends on an argument, a variable or the model. */
  function ConstantPart(xs: seq<Expr>): (n: nat)
    ensures n <= |xs| && forall i :: 0 <= i < n ==> IsConstant(xs[i])
    ensures n < |xs| ==> !IsConstant(xs[n])
  {
    if xs == [] || !IsConstant(xs[0]) then 0 else 1 + ConstantPart(xs[1..])
  }

  /** Tracing stops at arguments, at variables, and at what the tracer does not know. */
  predicate StopsTracing(x: Expr) {
    match x
    case Object(_, kind) => kind.Argument? || kind.Variable?
    case Unknown(_) => true
    case _ => false
  }

  /** The elements that are traced. */
  function TracedPart(xs: seq<Expr>): (n: nat)
    ensures n <= |xs| && forall i :: 0 <= i < n ==> !StopsTracing(xs[i])
    ensures n < |xs| ==> StopsTracing(xs[n])
  {
    if xs == [] || StopsTracing(xs[0]) then 0 else 1 + TracedPart(xs[1..])
  }

  // ----- errors -----

  /** Tracer and interpreter are in the same role, with as many messages. */
  predicate SameRoles(s: TracerState, e: Exec) {
    && s.curRole == e.curRole && |s.messages| == |e.messages|
    && (forall i :: 0 <= i < |s.messages| ==> s.messages[i].content.Some? && e.messages[i].content.Some?)
  }

  lemma BeginSameRoles(s: TracerState, e: Exec, template: ChatTemplate, role: string)
    requires SameRoles(s, e)
    ensures BeginRole(e, template, role).Ok? <==> BeginTraced(s, template, role).1.Running?
    ensures BeginTraced(s, template, role).1 == if BeginRole(e, template, role).Ok? then Running else Asserted
    ensures BeginRole(e, template, role).Ok? ==>
              SameRoles(BeginTraced(s, template, role).0, BeginRole(e, template, role).value)
  {
  }

  predicate OneMore(before: seq<Message>, after: seq<Message>) {
    |after| == |before| + 1 && after[..|before|] == before && after[|before|].content.Some?
  }

  lemma EndRecords(w: World, template: ChatTemplate, e: Exec, role: string)
    ensures var r := RunElement(w, template, e, RoleEnd(role));
            r.Ok? && OneMore(e.messages, r.value.messages) && r.value.curRole.None?
  {
    assert CloseRole(e, template, role).messages == e.messages + [Message(role, Some(Lstrip(RoleBody(e))))];
  }

  lemma TracedEndRecords(s: TracerState, template: ChatTemplate, role: string)
    ensures var (s', status) := TraceElement(s, template, true, RoleEnd(role));
            status.Running? && OneMore(s.messages, s'.messages) && s'.curRole.None?
  {
    assert CloseTraced(s, template, role).messages == s.messages + [Message(role, Some(""))];
  }

  lemma OneMoreEach(s: TracerState, e: Exec, s': TracerState, e': Exec)
    requires SameRoles(s, e) && s'.curRole == e'.curRole
    requires OneMore(s.messages, s'.messages) && OneMore(e.messages, e'.messages)
    ensures SameRoles(s', e')
  {
    forall i | 0 <= i < |s.messages|
      ensures s'.messages[i].content.Some? && e'.messages[i].content.Some?
    {
      assert s'.messages[i] == s'.messages[..|s.messages|][i] && e'.messages[i] == e'.messages[..|e.messages|][i];
    }
  }

  /** Only roles change roles. */
  lemma OthersKeepRoles(w: World, template: ChatTemplate, e: Exec, x: Expr)
    requires !x.RoleBegin? && !x.RoleEnd?
    ensures RunElement(w, template, e, x).Ok?
    ensures var e' := RunElement(w, template, e, x).value; e'.messages == e.messages && e'.curRole == e.curRole
  {
  }

  lemma OthersKeepTracedRoles(s: TracerState, template: ChatTemplate, x: Expr)
    requires !x.RoleBegin? && !x.RoleEnd? && !StopsTracing(x)
    ensures TraceElement(s, template, true, x).1.Running?
    ensures var s' := TraceElement(s, template, true, x).0; s'.messages == s.messages && s'.curRole == s.curRole
  {
  }

  lemma SameRolesElsewhere(s: TracerState, e: Exec, s': TracerState, e': Exec)
    requires SameRoles(s, e) && s'.messages == s.messages && s'.curRole == s.curRole
    requires e'.messages == e.messages && e'.curRole == e.curRole
    ensures SameRoles(s', e')
  {
  }

  /** Tracing an element fails if executing it does, and else they stay in the same role. */
  predicate StaySame(traced: (TracerState, Status), run: Result<Exec>) {
    if run.Ok? then traced.1.Running? && SameRoles(traced.0, run.value) else traced.1.Asserted?
  }

  lemma OtherSameRoles(w: World, template: ChatTemplate, s: TracerState, e: Exec, x: Expr)
    requires SameRoles(s, e) && !StopsTracing(x) && !x.RoleBegin? && !x.RoleEnd?
    ensures StaySame(TraceElement(s, template, true, x), RunElement(w, template, e, x))
  {
    OthersKeepRoles(w, template, e, x);
    OthersKeepTracedRoles(s, template, x);
    SameRolesElsewhere(s, e, TraceElement(s, template, true, x).0, RunElement(w, template, e, x).value);
  }

  lemma BeginStaysSame(w: World, template: ChatTemplate, s: TracerState, e: Exec, role: string)
    requires SameRoles(s, e)
    ensures StaySame(TraceElement(s, template, true, RoleBegin(role)), RunElement(w, template, e, RoleBegin(role)))
  {
    BeginSameRoles(s, e, template, role);
    var traced, run := BeginTraced(s, template, role), BeginRole(e, template, role);
    assert StaySame(traced, run);
  }

  lemma EndStaysSame(w: World, template: ChatTemplate, s: TracerState, e: Exec, role: string)
    requires SameRoles(s, e)
    ensures StaySame(TraceElement(s, template, true, RoleEnd(role)), RunElement(w, template, e, RoleEnd(role)))
  {
    EndRecords(w, template, e, role);
    TracedEndRecords(s, template, role);
    OneMoreEach(s, e, TraceElement(s, template, true, RoleEnd(role)).0,
                RunElement(w, template, e, RoleEnd(role)).value);
  }

  lemma ElementSameRoles(w: World, template: ChatTemplate, s: TracerState, e: Exec, x: Expr)
    requires SameRoles(s, e) && !StopsTracing(x)
    ensures StaySame(TraceElement(s, template, true, x), RunElement(w, template, e, x))
  {
    if x.RoleBegin? {
      BeginStaysSame(w, template, s, e, x.role);
    } else if x.RoleEnd? {
      EndStaysSame(w, template, s, e, x.role);
    } else {
      OtherSameRoles(w, template, s, e, x);
    }
  }

  /** Tracing fails exactly when every real run fails on what is traced. */
  lemma {:induction false} AssertsIff(w: World, template: ChatTemplate, s: TracerState, e: Exec, xs: seq<Expr>)
    requires SameRoles(s, e)
    ensures TraceElements(s, template, true, xs).1.Asserted? <==>
            RunElements(w, template, e, xs[..TracedPart(xs)]).Err?
    decreases |xs|
  {
    if xs != [] && !StopsTracing(xs[0]) {
      ElementSameRoles(w, template, s, e, xs[0]);
      var n := TracedPart(xs);
      assert xs[..n][0] == xs[0] && xs[..n][1..] == xs[1..][..n - 1];
      if RunElement(w, template, e, xs[0]).Ok? {
        AssertsIff(w, template, TraceElement(s, template, true, xs[0]).0,
                   RunElement(w, template, e, xs[0]).value, xs[1..]);
      }
    }
  }

  // ----- the extracted text -----

  /** From matching states, what is extracted is the text after the leading constants. */
  lemma {:induction false} ExtractsConstants(w: World, template: ChatTemplate, s: TracerState, e: Exec, xs: seq<Expr>)
    requires Matches(s, e) && RunElements(w, template, e, xs[..ConstantPart(xs)]).Ok?
    ensures LeadingText(TraceElements(s, template, true, xs).0.kinds) ==
            RunElements(w, template, e, xs[..ConstantPart(xs)]).value.text
    decreases |xs|
  {
    if xs != [] && IsConstant(xs[0]) {
      var n := ConstantPart(xs);
      assert xs[..n][0] == xs[0] && xs[..n][1..] == xs[1..][..n - 1];
      ConstantMatches(w, s, e, template, xs[0]);
      ExtractsConstants(w, template, TraceElement(s, template, true, xs[0]).0,
                        RunElement(w, template, e, xs[0]).value, xs[1..]);
    } else if xs != [] {
      NothingMore(s, template, xs);
    }
  }

  lemma ConstantsAreTraced(xs: seq<Expr>)
    ensures ConstantPart(xs) <= TracedPart(xs)
  {
    var n := TracedPart(xs);
    assert n < |xs| ==> StopsTracing(xs[n]) && !IsConstant(xs[n]);
  }

  lemma {:induction false} BeginningRuns(w: World, template: ChatTemplate, e: Exec, xs: seq<Expr>, n: nat)
    requires n <= |xs| && RunElements(w, template, e, xs).Ok?
    ensures RunElements(w, template, e, xs[..n]).Ok?
    decreases |xs|
  {
    if n > 0 {
      assert xs[..n][0] == xs[0] && xs[..n][1..] == xs[1..][..n - 1];
      BeginningRuns(w, template, RunElement(w, template, e, xs[0]).value, xs[1..], n - 1);
    }
  }

  /** For every program and every real run: extracting fails exactly when the run fails on what is traced, and
      else gives just the text the run has after the leading constants. */
  lemma ExtractedIsConstantText(w: World, template: ChatTemplate, xs: seq<Expr>)
    ensures Extracted(template, xs).Err? <==> RunElements(w, template, FRESH, xs[..TracedPart(xs)]).Err?
    ensures Extracted(template, xs).Ok? ==>
              && RunElements(w, template, FRESH, xs[..ConstantPart(xs)]).Ok?
              && Extracted(template, xs).value == RunElements(w, template, FRESH, xs[..ConstantPart(xs)]).value.text
  {
    AssertsIff(w, template, UNTRACED, FRESH, xs);
    if Extracted(template, xs).Ok? {
      ConstantsAreTraced(xs);
      BeginningRuns(w, template, FRESH, xs[..TracedPart(xs)], ConstantPart(xs));
      assert xs[..TracedPart(xs)][..ConstantPart(xs)] == xs[..ConstantPart(xs)];
      ExtractsConstants(w, template, UNTRACED, FRESH, xs);
    }
  }

  /** A program without lists is executed element by element. */
  lemma {:induction false} PlainIsFlat(xs: seq<Expr>)
    requires forall x :: x in xs ==> !x.ExprList?
    ensures FlattenAll(xs) == xs
  {
    if xs != [] {
      PlainIsFlat(xs[1..]);
    }
  }

  // ----- nothing longer is common to all runs -----

  /** A world in which every argument, variable and answer is empty. */
  function EmptyWorld(defaults: Params): World {
    World(Backend((text, params) => "", (text, choices) => ""), name => "", (name, source) => "", defaults)
  }

  lemma {:induction false} RunInTwo(w: World, template: ChatTemplate, e: Exec, xs: seq<Expr>, x: Expr)
    requires RunElements(w, template, e, xs).Ok?
    ensures RunElements(w, template, e, xs + [x]) == RunElement(w, template, RunElements(w, template, e, xs).value, x)
    decreases |xs|
  {
    if xs == [] {
      assert xs + [x] == [x] && [x][1..] == [];
    } else {
      assert (xs + [x])[0] == xs[0] && (xs + [x])[1..] == xs[1..] + [x];
      RunInTwo(w, template, RunElement(w, template, e, xs[0]).value, xs[1..], x);
    }
  }

  /** The run that follows the trace just so far as it must. */
  function ShortestRun(xs: seq<Expr>): seq<Expr> {
    var n := ConstantPart(xs);
    if n == |xs| then xs else xs[..n + 1]
  }

  lemma ShortestFollows(xs: seq<Expr>)
    ensures Follows(xs, ShortestRun(xs))
  {
    var n := ConstantPart(xs);
    if n < |xs| {
      assert xs[..n + 1] <= ShortestRun(xs) && !IsConstant(xs[n + 1 - 1]);
    }
  }

  /** What the first element that is not constant adds to every run: nothing, but for an element of fixed
      text that the tracer does not know. */
  function FixedText(xs: seq<Expr>): string {
    var n := ConstantPart(xs);
    if n < |xs| && xs[n].Unknown? then xs[n].added else ""
  }

  lemma EmptyWorldAdds(template: ChatTemplate, xs: seq<Expr>, defaults: Params)
    requires Extracted(template, xs).Ok?
    ensures RunElements(EmptyWorld(defaults), template, FRESH, ShortestRun(xs)).Ok?
    ensures RunElements(EmptyWorld(defaults), template, FRESH, ShortestRun(xs)).value.text ==
            Extracted(template, xs).value + FixedText(xs)
  {
    var w, n := EmptyWorld(defaults), ConstantPart(xs);
    ExtractedIsConstantText(w, template, xs);
    if n == |xs| {
      assert xs[..n] == xs;
      assert Extracted(template, xs).value + "" == Extracted(template, xs).value;
    } else {
      assert xs[..n + 1] == xs[..n] + [xs[n]];
      RunInTwo(w, template, FRESH, xs[..n], xs[n]);
      ElementAddsNothing(template, RunElements(w, template, FRESH, xs[..n]).value, xs[n], defaults);
    }
  }

  lemma ElementAddsNothing(template: ChatTemplate, e: Exec, x: Expr, defaults: Params)
    requires !IsConstant(x)
    ensures RunElement(EmptyWorld(defaults), template, e, x).Ok?
    ensures RunElement(EmptyWorld(defaults), template, e, x).value.text == e.text + if x.Unknown? then x.added else ""
  {
  }

  lemma UnknownAdds(w: World, template: ChatTemplate, xs: seq<Expr>)
    requires Extracted(template, xs).Ok? && ConstantPart(xs) < |xs| && xs[ConstantPart(xs)].Unknown?
    ensures RunElements(w, template, FRESH, xs[..ConstantPart(xs) + 1]).Ok?
    ensures RunElements(w, template, FRESH, xs[..ConstantPart(xs) + 1]).value.text ==
            Extracted(template, xs).value + FixedText(xs)
  {
    var n := ConstantPart(xs);
    ExtractedIsConstantText(w, template, xs);
    assert xs[..n + 1] == xs[..n] + [xs[n]];
    RunInTwo(w, template, FRESH, xs[..n], xs[n]);
  }

  /** No run that follows the trace goes without the fixed text. */
  lemma FixedTextIsShared(w: World, template: ChatTemplate, xs: seq<Expr>, run: seq<Expr>)
    requires Extracted(template, xs).Ok? && Follows(xs, run) && RunElements(w, template, FRESH, run).Ok?
    ensures IsPrefix(Extracted(template, xs).value + FixedText(xs), RunElements(w, template, FRESH, run).value.text)
  {
    var n := ConstantPart(xs);
    if n < |xs| && xs[n].Unknown? {
      UnknownAdds(w, template, xs);
      BeginsAlike(xs, run, n + 1);
      BeginningGrows(w, template, FRESH, run, n + 1);
    } else {
      PrefixOfEveryRun(w, template, xs, run);
      assert Extracted(template, xs).value + "" == Extracted(template, xs).value;
    }
  }

  lemma BeginsAlike(xs: seq<Expr>, run: seq<Expr>, m: nat)
    requires Follows(xs, run) && m == ConstantPart(xs) + 1 <= |xs|
    ensures m <= |run| && run[..m] == xs[..m]
  {
    if xs <= run {
      Slices(xs, run, |xs|, m);
    } else {
      var k :| 0 < k <= |xs| && xs[..k] <= run && !IsConstant(xs[k - 1]);
      Slices(xs, run, k, m);
    }
  }

  lemma Slices(xs: seq<Expr>, run: seq<Expr>, k: nat, m: nat)
    requires m <= k <= |xs| && xs[..k] <= run
    ensures m <= |run| && run[..m] == xs[..m]
  {
    assert run[..m] == run[..k][..m] == xs[..k][..m] == xs[..m];
  }

  lemma {:induction false} BeginningGrows(w: World, template: ChatTemplate, e: Exec, xs: seq<Expr>, n: nat)
    requires n <= |xs| && RunElements(w, template, e, xs).Ok?
    ensures RunElements(w, template, e, xs[..n]).Ok?
    ensures IsPrefix(RunElements(w, template, e, xs[..n]).value.text, RunElements(w, template, e, xs).value.text)
    decreases |xs|
  {
    if n == 0 {
      TextOnlyGrows(w, template, e, xs);
    } else {
      assert xs[..n][0] == xs[0] && xs[..n][1..] == xs[1..][..n - 1];
      BeginningGrows(w, template, RunElement(w, template, e, xs[0]).value, xs[1..], n - 1);
    }
  }

  /** A text starts every run that follows the trace, in every world, exactly when it is a beginning of the
      extracted text and of the fixed text behind it. */
  lemma SharedIff(template: ChatTemplate, xs: seq<Expr>, text: string)
    requires Extracted(template, xs).Ok?
    ensures (forall w: World, run: seq<Expr> ::
               Follows(xs, run) && RunElements(w, template, FRESH, run).Ok? ==>
                 IsPrefix(text, RunElements(w, template, FRESH, run).value.text)) <==>
            IsPrefix(text, Extracted(template, xs).value + FixedText(xs))
  {
    var all := Extracted(template, xs).value + FixedText(xs);
    var defaults := Params(0, None, map[]);
    EmptyWorldAdds(template, xs, defaults);
    ShortestFollows(xs);
    forall w: World, run: seq<Expr> |
      IsPrefix(text, all) && Follows(xs, run) && RunElements(w, template, FRESH, run).Ok?
      ensures IsPrefix(text, RunElements(w, template, FRESH, run).value.text)
    {
      FixedTextIsShared(w, template, xs, run);
      PrefixIsTransitive(text, all, RunElements(w, template, FRESH, run).value.text);
    }
  }

  // ----- tracing for compilation -----

  predicate AreObjects(xs: seq<Expr>, kinds: seq<Kind>) {
    |xs| == |kinds| && forall i :: 0 <= i < |xs| ==> xs[i].Object? && xs[i].kind == kinds[i]
  }

  /** A trace that is not only for the prefix goes through all objects, and appends each of them. */
  lemma {:induction false} FullTraceAppendsAll(s: TracerState, template: ChatTemplate, xs: seq<Expr>, kinds: seq<Kind>)
    requires AreObjects(xs, kinds)
    ensures TraceElements(s, template, false, xs) == (s.(kinds := s.kinds + kinds), Running)
    decreases |xs|
  {
    if xs == [] {
      assert s.kinds + kinds == s.kinds;
    } else {
      FullTraceAppendsAll(s.(kinds := s.kinds + [kinds[0]]), template, xs[1..], kinds[1..]);
      assert (s.kinds + [kinds[0]]) + kinds[1..] == s.kinds + kinds;
    }
  }
}
