/** A program in which a name means something else in the outermost call than where its variable was made. */
module ClashExample {
  import opened Prelude
  import opened Ir
  import opened Tracing
  import opened Network
  import opened CompiledMeaning
  import opened Compiler

  // ----- a name that means something else in the outermost call -----

  const LONG_GEN: Kind := Kind.Gen(Some("x"), Overrides(Some(2), None, map[]))
  const SHORT_GEN: Kind := Kind.Gen(Some("x"), Overrides(Some(1), None, map[]))

  /** The outer function generates x, calls a function that also generates an x, and appends
      the x of the call. */
  const CLASH: Trace := Trace(2, map[0 := LONG_GEN, 1 := SHORT_GEN, 2 := Kind.Variable("x", 1)],
                              [Append(0, 0, true), Append(1, 1, true), Append(0, 2, true)])

  lemma ClashIsServed()
    ensures WellTyped(CLASH) && forall i: nat :: i < 3 ==> VariableIsServed(CLASH, i)
  {
    assert Named(CLASH, 1, 1, "x") && !Named(CLASH, 0, 1, "x");
    assert ServedBy(CLASH, 2, 1);
  }

  lemma ClashVariables()
    ensures WellTyped(CLASH) && Variables(CLASH, 3, 0) == map["x" := 0]
  {
    NameEntered(CLASH, 0, 0, "x");
    NothingEntered(CLASH, 1, 0);
    NothingEntered(CLASH, 2, 0);
  }

  lemma ClashHeap()
    ensures WellTyped(CLASH)
    ensures HeapAfter(CLASH, 3) ==
            map[0 := IrNode(LONG_GEN, None, Tracer(0)), 1 := IrNode(SHORT_GEN, None, Tracer(1)),
                2 := IrNode(Kind.Variable("x", 1), Some(0), Tracer(0))]
  {
    assert HeapAfter(CLASH, 1) == map[0 := IrNode(LONG_GEN, None, Tracer(0))];
  }

  /** The variable node is resolved to the gen of the outer function: the last node does not depend
      on the call any more, and the gen it was made from is not its source. */
  lemma NameClashIsMisresolved()
    ensures WellTyped(CLASH) && Distinct(Objects(CLASH)) && !ResolvesToSource(CLASH, 2)
    ensures forall i: nat :: i < 3 ==> VariableIsServed(CLASH, i)
    ensures 0 in HeapAfter(CLASH, 3) && HeapAfter(CLASH, 3)[0].kind == LONG_GEN
    ensures HeapAfter(CLASH, 3)[0].pid == Tracer(0)
    ensures 2 in HeapAfter(CLASH, 3) && HeapAfter(CLASH, 3)[2].pid == Tracer(0)
    ensures HeapAfter(CLASH, 3)[2].kind == Kind.Variable("x", 1)
    ensures SourceOf(HeapAfter(CLASH, 3), Variables(CLASH, 3, 0), 2) == Some(0)
    ensures !Reachable(HeapAfter(CLASH, 3), Variables(CLASH, 3, 0), 2, 1)
  {
    ClashIsServed();
    ClashVariables();
    ClashHeap();
    assert BackClosed(HeapAfter(CLASH, 3), Variables(CLASH, 3, 0), {0, 2});
  }

  const CLASH_DEFAULTS: Params := Params(16, None, map[])
  const BY_LENGTH: Backend :=
    Backend((text, params: Params) => if params.maxNewTokens == 1 then "s" else "l", (text, choices) => "")

  const OUTER_GEN: Op := Op.Gen(Some("x"), ResolveParams(CLASH_DEFAULTS, LONG_GEN.overrides))
  const INNER_GEN: Op := Op.Gen(Some("x"), ResolveParams(CLASH_DEFAULTS, SHORT_GEN.overrides))

  lemma DirectClash()
    ensures WellTyped(CLASH)
    ensures var direct := Direct(CLASH, 3, map[], AllAlike(CLASH_DEFAULTS));
            && direct.Ok?
            && direct.value == [Submission(0, OUTER_GEN), Submission(1, INNER_GEN), Submission(0, Read(1, "x", false))]
  {
    var one := Direct(CLASH, 1, map[], AllAlike(CLASH_DEFAULTS));
    var two := Direct(CLASH, 2, map[], AllAlike(CLASH_DEFAULTS));
    assert one.Ok? && one.value == [Submission(0, OUTER_GEN)];
    assert two.Ok? && two.value == [Submission(0, OUTER_GEN), Submission(1, INNER_GEN)];
    assert TracerOf(CLASH, 2, 1) == 1;
  }

  lemma CompiledClash()
    ensures WellTyped(CLASH) && 0 in HeapAfter(CLASH, 3) && 2 in HeapAfter(CLASH, 3)
    ensures var compiled := Compiled(HeapAfter(CLASH, 3), Variables(CLASH, 3, 0), [0, 2], 2, map[], CLASH_DEFAULTS);
            compiled.Ok? && compiled.value == [Submission(0, OUTER_GEN), Submission(0, Read(0, "x", true))]
  {
    NameClashIsMisresolved();
    var heap, variables := HeapAfter(CLASH, 3), Variables(CLASH, 3, 0);
    assert CompiledOp(heap, variables, 0, map[], CLASH_DEFAULTS) == Ok(OUTER_GEN);
    assert StreamOf(heap, 0) == 0 == StreamOf(heap, 2);
    assert Compiled(heap, variables, [0, 2], 0, map[], CLASH_DEFAULTS) == Ok([]);
    var one := Compiled(heap, variables, [0, 2], 1, map[], CLASH_DEFAULTS);
    assert one.Ok? && one.value == [Submission(0, OUTER_GEN)];
  }

  /** The direct run of that program appends the x of the call; the compiled run appends the x of the
      outer function again. */
  lemma NameClashChangesText()
    ensures WellTyped(CLASH) && 0 in HeapAfter(CLASH, 3) && 2 in HeapAfter(CLASH, 3)
    ensures var direct := Direct(CLASH, 3, map[], AllAlike(CLASH_DEFAULTS));
            direct.Ok? && Unthreaded(Everywhere(BY_LENGTH), direct.value, 2, |direct.value|)[0].text == "ls"
    ensures var compiled := Compiled(HeapAfter(CLASH, 3), Variables(CLASH, 3, 0), [0, 2], 2, map[], CLASH_DEFAULTS);
            compiled.Ok? && Unthreaded(Everywhere(BY_LENGTH), compiled.value, 1, |compiled.value|)[0].text == "ll"
  {
    DirectClash();
    CompiledClash();
    var direct := Direct(CLASH, 3, map[], AllAlike(CLASH_DEFAULTS)).value;
    assert Unthreaded(Everywhere(BY_LENGTH), direct, 2, 1)[0].text == "l";
    assert Unthreaded(Everywhere(BY_LENGTH), direct, 2, 2)[1].variables[Some("x")] == "s";
    var compiled := Compiled(HeapAfter(CLASH, 3), Variables(CLASH, 3, 0), [0, 2], 2, map[], CLASH_DEFAULTS).value;
    assert Unthreaded(Everywhere(BY_LENGTH), compiled, 1, 1)[0].variables[Some("x")] == "l";
  }
}
