/** A compiled run gives its own sampling defaults and its own backend to every function call, while a
    direct run starts a called function afresh. Exactly when does that change the text? */
module CompiledSettings {
  import opened Prelude
  import opened Ir
  import opened Executor
  import opened HeavyModels
  import opened Tracing
  import opened Network
  import opened CompiledMeaning
  import opened CompiledProofs
  import opened Compiler

  // ----- where two sets of parameters differ -----

  datatype Field = TokenLimit | StopStrings | Other(name: string)

  /** The parameters have the value of the run in this field. */
  predicate Agrees(p: Params, run: Params, f: Field) {
    match f
    case TokenLimit => p.maxNewTokens == run.maxNewTokens
    case StopStrings => p.stop == run.stop
    case Other(name) =>
      (name in p.others <==> name in run.others) && (name in p.others ==> p.others[name] == run.others[name])
  }

  /** If the defaults make a difference to a generation, some field has the value of the run under
      the run's defaults only. */
  lemma DifferingField(run: Params, own: Params, o: Overrides) returns (f: Field)
    requires ResolveParams(run, o) != ResolveParams(own, o)
    ensures Agrees(ResolveParams(run, o), run, f) && !Agrees(ResolveParams(own, o), run, f)
  {
    var p, p' := ResolveParams(run, o), ResolveParams(own, o);
    if p.maxNewTokens != p'.maxNewTokens {
      f := TokenLimit;
    } else if p.stop != p'.stop {
      f := StopStrings;
    } else {
      assert p.others != p'.others;
      var name :| (name in p.others) != (name in p'.others) || (name in p.others && p.others[name] != p'.others[name]);
      f := Other(name);
    }
  }

  /** Overriding never makes the run's defaults agree less with the run than other defaults do. */
  lemma OverridesKeepAgreement(run: Params, own: Params, o: Overrides, f: Field)
    requires Agrees(ResolveParams(own, o), run, f)
    ensures Agrees(ResolveParams(run, o), run, f)
  {
  }

  // ----- a model whose answers tell by their length what it was asked -----

  datatype Meter = Meter(high: Params -> bool, selects: nat)

  /** Every answer is longer than the text before it, and one longer still for high parameters. */
  function Metered(m: Meter): Backend {
    Backend((text, params: Params) => Stars(|text| + if m.high(params) then 2 else 1),
            (text, choices) => Stars(|text| + m.selects))
  }

  function Extra(m: Meter, op: Op): nat {
    match op
    case Gen(_, params) => if m.high(params) then 2 else 1
    case Select(_, _) => m.selects
    case _ => 0
  }

  /** Meters of the two runs under which no object is answered longer in the direct run. */
  ghost predicate Weighs(mc: Meter, md: nat -> Meter, d: Backends, r: Runs)
    requires r.Valid()
  {
    && (forall k :: d(k) == Metered(md(k)))
    && forall j: nat :: j < |r.order| && Placed(r, j) ==>
         Extra(md(CallOf(r, j)), r.direct[AppendOf(r, j)].op) <= Extra(mc, r.compiled[j].op)
  }

  lemma MeteredOut(m: Meter, b: Backends, program: seq<Submission>, width: nat, j: nat)
    requires j < |program| && program[j].stream < width && b(program[j].stream) == Metered(m)
    requires program[j].op.Gen? || program[j].op.Select?
    ensures |OutputOf(b, program, width, j)| ==
            |Unthreaded(b, program, width, j)[program[j].stream].text| + Extra(m, program[j].op)
  {
    OutputIsMetered(m, b, Unthreaded(b, program, width, j), program[j]);
  }

  lemma OutputIsMetered(m: Meter, b: Backends, execs: seq<Exec>, sub: Submission)
    requires sub.stream < |execs| && b(sub.stream) == Metered(m) && (sub.op.Gen? || sub.op.Select?)
    ensures |Output(b, execs, sub)| == |execs[sub.stream].text| + Extra(m, sub.op)
  {
  }

  lemma AppliedLength(e: Exec, op: Op, output: string)
    ensures |Apply(e, op, output).text| == |e.text| + |output|
  {
  }

  /** What the j-th ordered object leaves is as long in both runs. */
  predicate SameLength(c: Backends, d: Backends, r: Runs, j: nat)
    requires Placed(r, j)
  {
    |CompiledAfter(c, r, j).text| == |DirectAfter(d, r, j).text|
  }

  /** An object that asks the model, with what it is answered in the two runs. */
  lemma AnswerIsMetered(mc: Meter, md: nat -> Meter, d: Backends, r: Runs, j: nat)
    requires r.Valid() && Weighs(mc, md, d, r) && j < |r.order| && Placed(r, j)
    requires KindOf(r, j).Gen? || KindOf(r, j).Select?
    ensures var c := Everywhere(Metered(mc));
            && |CompiledOut(c, r, j)| == |CompiledBefore(c, r, j).text| + Extra(mc, r.compiled[j].op)
            && |DirectOut(d, r, j)| ==
               |DirectBefore(d, r, j).text| + Extra(md(CallOf(r, j)), r.direct[AppendOf(r, j)].op)
            && Extra(md(CallOf(r, j)), r.direct[AppendOf(r, j)].op) <= Extra(mc, r.compiled[j].op)
  {
    OrderedObject(r, j);
    SameOperation(r, j);
    MeteredOut(mc, Everywhere(Metered(mc)), r.compiled, r.width, j);
    MeteredOut(md(CallOf(r, j)), d, r.direct, r.t.width, AppendOf(r, j));
  }

  /** Nothing is shorter in the compiled run; and where an object leaves the same length, so did what
      it depends on, and it was answered with the same length. */
  lemma {:induction false} CompiledIsNoShorter(mc: Meter, md: nat -> Meter, d: Backends, r: Runs, j: nat)
    requires r.Valid() && r.Resolves() && Weighs(mc, md, d, r) && j < |r.order|
    ensures Placed(r, j) && r.order[j] in r.heap
    ensures var c := Everywhere(Metered(mc));
            && |CompiledOut(c, r, j)| >= |DirectOut(d, r, j)|
            && |CompiledBefore(c, r, j).text| >= |DirectBefore(d, r, j).text|
            && |CompiledAfter(c, r, j).text| >= |DirectAfter(d, r, j).text|
    decreases j
  {
    var c := Everywhere(Metered(mc));
    var q := BeforeIsAfterPrevious(c, d, r, j);
    if q.Some? {
      CompiledIsNoShorter(mc, md, d, r, q.value);
    }
    SameOperation(r, j);
    match KindOf(r, j) {
      case Variable(_, _) =>
        var jd := ReadIsOutput(c, d, r, j);
        CompiledIsNoShorter(mc, md, d, r, jd);
      case Gen(_, _) => AnswerIsMetered(mc, md, d, r, j);
      case Select(_, _) => AnswerIsMetered(mc, md, d, r, j);
      case _ =>
    }
    AppliedLength(CompiledBefore(c, r, j), r.compiled[j].op, CompiledOut(c, r, j));
    AppliedLength(DirectBefore(d, r, j), r.direct[AppendOf(r, j)].op, DirectOut(d, r, j));
  }

  /** Where an object leaves the same length, so did whatever it depends on. */
  lemma SameLengthSpreads(mc: Meter, md: nat -> Meter, d: Backends, r: Runs, j: nat, k: nat)
    requires r.Valid() && r.Resolves() && Weighs(mc, md, d, r) && j < |r.order| && k < |r.order|
    requires Placed(r, j) && Placed(r, k) && SameLength(Everywhere(Metered(mc)), d, r, j)
    requires r.order[j] in r.heap
    requires r.heap[r.order[j]].prev == Some(r.order[k]) ||
             SourceOf(r.heap, Variables(r.t, |r.t.appends|, 0), r.order[j]) == Some(r.order[k])
    ensures SameLength(Everywhere(Metered(mc)), d, r, k)
  {
    var c := Everywhere(Metered(mc));
    CompiledIsNoShorter(mc, md, d, r, j);
    AppliedLength(CompiledBefore(c, r, j), r.compiled[j].op, CompiledOut(c, r, j));
    AppliedLength(DirectBefore(d, r, j), r.direct[AppendOf(r, j)].op, DirectOut(d, r, j));
    if r.heap[r.order[j]].prev == Some(r.order[k]) {
      var q := BeforeIsAfterPrevious(c, d, r, j);
      assert q == Some(k) by { OnlyPlace(r.order, q.value, k); }
    } else {
      OrderedObject(r, j);
      var jd := ReadIsOutput(c, d, r, j);
      OnlyPlace(r.order, jd, k);
      CompiledIsNoShorter(mc, md, d, r, k);
      AnswerIsMetered(mc, md, d, r, k);
      AppliedLength(CompiledBefore(c, r, k), r.compiled[k].op, CompiledOut(c, r, k));
      AppliedLength(DirectBefore(d, r, k), r.direct[AppendOf(r, k)].op, DirectOut(d, r, k));
    }
  }

  lemma OnlyPlace(order: seq<Id>, i: nat, k: nat)
    requires Distinct(order) && i < |order| && k < |order| && order[i] == order[k]
    ensures i == k
  {
  }

  /** The compiler ordered only what the last node depends on. */
  ghost predicate OnlyReached(r: Runs, last: Id)
    requires WellTyped(r.t)
  {
    forall id :: id in r.order ==> Reachable(HeapAfter(r.t, |r.t.appends|), Variables(r.t, |r.t.appends|, 0), last, id)
  }

  predicate LeavesSame(c: Backends, d: Backends, r: Runs, id: Id) {
    exists j: nat :: j < |r.order| && r.order[j] == id && Placed(r, j) && SameLength(c, d, r, j)
  }

  /** What an ordered object depends on is ordered. */
  lemma PlaceOf(r: Runs, j: nat, to: Id) returns (k: nat)
    requires r.Valid() && j < |r.order| && r.order[j] in r.heap
    requires DependsOn(HeapAfter(r.t, |r.t.appends|), Variables(r.t, |r.t.appends|, 0), r.order[j], to)
    ensures k < |r.order| && r.order[k] == to
    ensures r.heap[r.order[j]].prev == Some(to) ||
            SourceOf(r.heap, Variables(r.t, |r.t.appends|, 0), r.order[j]) == Some(to)
  {
    var variables := Variables(r.t, |r.t.appends|, 0);
    assert Comes(r.order, r.heap[r.order[j]].prev, j) && Comes(r.order, SourceOf(r.heap, variables, r.order[j]), j);
    k := IndexOf(r.order[..j], to);
  }

  lemma SpreadsAt(mc: Meter, md: nat -> Meter, d: Backends, r: Runs, j: nat, to: Id) returns (k: nat)
    requires r.Valid() && r.Resolves() && Weighs(mc, md, d, r) && j < |r.order|
    requires Placed(r, j) && SameLength(Everywhere(Metered(mc)), d, r, j) && r.order[j] in r.heap
    requires DependsOn(HeapAfter(r.t, |r.t.appends|), Variables(r.t, |r.t.appends|, 0), r.order[j], to)
    ensures k < |r.order| && r.order[k] == to && Placed(r, k) && SameLength(Everywhere(Metered(mc)), d, r, k)
  {
    k := PlaceOf(r, j, to);
    OrderedObject(r, k);
    SameLengthSpreads(mc, md, d, r, j, k);
  }

  lemma SpreadsFrom(mc: Meter, md: nat -> Meter, d: Backends, r: Runs, id: Id, to: Id)
    requires r.Valid() && r.Resolves() && Weighs(mc, md, d, r)
    requires LeavesSame(Everywhere(Metered(mc)), d, r, id)
    requires DependsOn(HeapAfter(r.t, |r.t.appends|), Variables(r.t, |r.t.appends|, 0), id, to)
    ensures to in r.order && LeavesSame(Everywhere(Metered(mc)), d, r, to)
  {
    var j: nat :| j < |r.order| && r.order[j] == id && Placed(r, j) && SameLength(Everywhere(Metered(mc)), d, r, j);
    OrderedObject(r, j);
    var k := SpreadsAt(mc, md, d, r, j, to);
  }

  lemma SameIsBackClosed(mc: Meter, md: nat -> Meter, d: Backends, r: Runs, same: set<Id>)
    requires r.Valid() && r.Resolves() && Weighs(mc, md, d, r)
    requires same == set id | id in r.order && LeavesSame(Everywhere(Metered(mc)), d, r, id)
    ensures BackClosed(HeapAfter(r.t, |r.t.appends|), Variables(r.t, |r.t.appends|, 0), same)
  {
    var heap, variables := HeapAfter(r.t, |r.t.appends|), Variables(r.t, |r.t.appends|, 0);
    forall id, to | id in same && DependsOn(heap, variables, id, to)
      ensures to in same
    {
      SpreadsFrom(mc, md, d, r, id, to);
    }
    ClosedUnderDependence(heap, variables, same);
  }

  lemma ClosedUnderDependence(heap: Heap, variables: map<string, Id>, s: set<Id>)
    requires forall id, to :: id in s && DependsOn(heap, variables, id, to) ==> to in s
    ensures BackClosed(heap, variables, s)
  {
    forall id | id in s && id in heap
      ensures heap[id].prev.Some? ==> heap[id].prev.value in s
      ensures SourceOf(heap, variables, id).Some? ==> SourceOf(heap, variables, id).value in s
    {
      assert heap[id].prev.Some? ==> DependsOn(heap, variables, id, heap[id].prev.value);
      assert SourceOf(heap, variables, id).Some? ==>
          DependsOn(heap, variables, id, SourceOf(heap, variables, id).value);
    }
  }

  /** What the last node depends on is in every closed set that holds the last node. */
  lemma OrderedIsIn(r: Runs, last: Id, s: set<Id>, k: nat)
    requires WellTyped(r.t) && OnlyReached(r, last) && last in s && k < |r.order|
    requires BackClosed(HeapAfter(r.t, |r.t.appends|), Variables(r.t, |r.t.appends|, 0), s)
    ensures r.order[k] in s
  {
    assert r.order[k] in r.order;
  }

  lemma LongerAnswerIsLonger(mc: Meter, md: nat -> Meter, d: Backends, r: Runs, k: nat)
    requires r.Valid() && r.Resolves() && Weighs(mc, md, d, r) && k < |r.order| && Placed(r, k)
    requires Extra(md(CallOf(r, k)), r.direct[AppendOf(r, k)].op) < Extra(mc, r.compiled[k].op)
    ensures !LeavesSame(Everywhere(Metered(mc)), d, r, r.order[k])
  {
    var c := Everywhere(Metered(mc));
    SameOperation(r, k);
    CompiledIsNoShorter(mc, md, d, r, k);
    AnswerIsMetered(mc, md, d, r, k);
    AppliedLength(CompiledBefore(c, r, k), r.compiled[k].op, CompiledOut(c, r, k));
    AppliedLength(DirectBefore(d, r, k), r.direct[AppendOf(r, k)].op, DirectOut(d, r, k));
    assert !SameLength(c, d, r, k);
    if j: nat :| j < |r.order| && r.order[j] == r.order[k] && Placed(r, j) && SameLength(c, d, r, j) {
      OnlyPlace(r.order, j, k);
      assert false;
    }
  }

  /** If the last node leaves the same length, so does everything that was ordered. */
  lemma LastLeavesSame(mc: Meter, md: nat -> Meter, d: Backends, r: Runs, last: Id, k: nat)
    requires r.Valid() && r.Resolves() && Weighs(mc, md, d, r) && OnlyReached(r, last) && last in r.order
    requires LeavesSame(Everywhere(Metered(mc)), d, r, last) && k < |r.order|
    ensures LeavesSame(Everywhere(Metered(mc)), d, r, r.order[k])
  {
    var same := set id | id in r.order && LeavesSame(Everywhere(Metered(mc)), d, r, id);
    SameIsBackClosed(mc, md, d, r, same);
    OrderedIsIn(r, last, same, k);
  }

  /** If some ordered object is answered longer in the compiled run, the result is longer. */
  lemma LongerAnswerLengthensResult(mc: Meter, md: nat -> Meter, d: Backends, r: Runs, last: Id, k: nat)
    requires r.Valid() && r.Resolves() && Weighs(mc, md, d, r) && OnlyReached(r, last)
    requires LastNode(r.t, |r.t.appends|, 0) == Some(last) && last in r.order
    requires k < |r.order| && Placed(r, k)
    requires Extra(md(CallOf(r, k)), r.direct[AppendOf(r, k)].op) < Extra(mc, r.compiled[k].op)
    ensures 0 < r.t.width && StreamOf(r.heap, last) < r.width
    ensures |CompiledResult(Everywhere(Metered(mc)), r, last).text| > |DirectResult(d, r).text|
  {
    var c := Everywhere(Metered(mc));
    var j := ResultsAreAfterLast(c, d, r, last);
    CompiledIsNoShorter(mc, md, d, r, j);
    LongerAnswerIsLonger(mc, md, d, r, k);
    if SameLength(c, d, r, j) {
      assert LeavesSame(c, d, r, last);
      LastLeavesSame(mc, md, d, r, last, k);
    }
  }

  // ----- the two theorems -----

  /** Every ordered generation resolves to the same parameters under the defaults of the run and under
      those of its own call. */
  ghost predicate SameSettings(r: Runs)
    requires WellTyped(r.t)
  {
    forall j: nat :: j < |r.order| && r.order[j] in Objects(r.t) ==> SettingsAgree(r, j)
  }

  predicate SettingsAgree(r: Runs, j: nat)
    requires WellTyped(r.t) && j < |r.order| && r.order[j] in Objects(r.t)
  {
    var kind := KindOf(r, j);
    kind.Gen? ==>
      ResolveParams(r.defaults, kind.overrides) == ResolveParams(r.calls(CallOf(r, j)), kind.overrides)
  }

  /** A generation that sets everything that either run has a default for. */
  ghost predicate SetsEverything(o: Overrides, defaults: Params, defaults': Params) {
    o.maxNewTokens.Some? && o.stop.Some? &&
    forall name :: name in defaults.others || name in defaults'.others ==> name in o.others
  }

  /** Settings agree exactly when each generation sets whatever they differ in. */
  lemma SettingsAgreeIff(r: Runs, j: nat)
    requires WellTyped(r.t) && j < |r.order| && r.order[j] in Objects(r.t)
    ensures SettingsAgree(r, j) <==>
            (KindOf(r, j).Gen? ==> AgreeBeyond(r.defaults, r.calls(CallOf(r, j)), KindOf(r, j).overrides))
  {
    if KindOf(r, j).Gen? {
      AsksAlikeIff(r.defaults, r.calls(CallOf(r, j)), KindOf(r, j).overrides);
    }
  }

  /** A program whose generations leave nothing to the defaults means the same compiled, whatever the
      settings of the run and of its calls are. */
  lemma FullySetProgramIgnoresSettings(r: Runs, last: Id, b: Backend)
    requires r.Valid() && r.Resolves() && OnlyReached(r, last)
    requires LastNode(r.t, |r.t.appends|, 0) == Some(last) && last in r.order
    requires forall j: nat :: j < |r.order| && r.order[j] in Objects(r.t) && KindOf(r, j).Gen? ==>
               SetsEverything(KindOf(r, j).overrides, r.defaults, r.calls(CallOf(r, j)))
    ensures 0 < r.t.width && StreamOf(r.heap, last) < r.width
    ensures CompiledResult(Everywhere(b), r, last) == DirectResult(Everywhere(b), r)
  {
    forall j: nat | j < |r.order| && r.order[j] in Objects(r.t)
      ensures SettingsAgree(r, j)
    {
      SettingsAgreeIff(r, j);
    }
    SameSettingsMeanSameState(b, r, last);
  }

  /** With one backend for all calls, the compiled run returns the text of the direct run, for every
      backend, exactly when all ordered generations resolve alike. */
  lemma SameTextIffSameSettings(r: Runs, last: Id)
    requires r.Valid() && r.Resolves() && OnlyReached(r, last)
    requires LastNode(r.t, |r.t.appends|, 0) == Some(last) && last in r.order
    ensures 0 < r.t.width && StreamOf(r.heap, last) < r.width
    ensures (forall b: Backend ::
               CompiledResult(Everywhere(b), r, last).text == DirectResult(Everywhere(b), r).text) <==>
            SameSettings(r)
  {
    var any := Everywhere(Metered(Meter(p => true, 1)));
    var jl := ResultsAreAfterLast(any, any, r, last);
    if SameSettings(r) {
      forall b: Backend
        ensures CompiledResult(Everywhere(b), r, last).text == DirectResult(Everywhere(b), r).text
      {
        SameSettingsMeanSameState(b, r, last);
      }
    } else {
      var k: nat :| k < |r.order| && r.order[k] in Objects(r.t) && !SettingsAgree(r, k);
      var b := SettingsSeparate(r, last, k);
      assert CompiledResult(Everywhere(b), r, last).text != DirectResult(Everywhere(b), r).text;
    }
  }

  lemma SameSettingsMeanSameState(b: Backend, r: Runs, last: Id)
    requires r.Valid() && r.Resolves() && SameSettings(r)
    requires LastNode(r.t, |r.t.appends|, 0) == Some(last) && last in r.order
    ensures 0 < r.t.width && StreamOf(r.heap, last) < r.width
    ensures CompiledResult(Everywhere(b), r, last) == DirectResult(Everywhere(b), r)
  {
    assert forall j: nat :: j < |r.order| && r.order[j] in Objects(r.t) && SettingsAgree(r, j) ==>
        AsksTheSame(b, Everywhere(b), r, j);
    CompilationPreservesMeaning(b, Everywhere(b), r, last);
  }

  /** A generation whose parameters differ has a model that tells the two runs apart. */
  lemma SettingsSeparate(r: Runs, last: Id, k: nat) returns (b: Backend)
    requires r.Valid() && r.Resolves() && OnlyReached(r, last)
    requires LastNode(r.t, |r.t.appends|, 0) == Some(last) && last in r.order
    requires k < |r.order| && r.order[k] in Objects(r.t) && !SettingsAgree(r, k)
    ensures 0 < r.t.width && StreamOf(r.heap, last) < r.width
    ensures |CompiledResult(Everywhere(b), r, last).text| > |DirectResult(Everywhere(b), r).text|
  {
    var f := DifferingField(r.defaults, r.calls(CallOf(r, k)), KindOf(r, k).overrides);
    var m := Favouring(r.defaults, f);
    b := Metered(m);
    AgreementWeighs(r, f);
    OrderedObject(r, k);
    SameOperation(r, k);
    LongerAnswerLengthensResult(m, (call: nat) => m, Everywhere(b), r, last, k);
  }

  /** A model that gives more to parameters that agree with the run in one field. */
  function Favouring(run: Params, f: Field): Meter {
    Meter((p: Params) => Agrees(p, run, f), 1)
  }

  lemma AgreementWeighs(r: Runs, f: Field)
    requires r.Valid()
    ensures Weighs(Favouring(r.defaults, f), (call: nat) => Favouring(r.defaults, f),
                   Everywhere(Metered(Favouring(r.defaults, f))), r)
  {
    forall j: nat | j < |r.order| && Placed(r, j)
      ensures Extra(Favouring(r.defaults, f), r.direct[AppendOf(r, j)].op) <=
              Extra(Favouring(r.defaults, f), r.compiled[j].op)
    {
      AgreementWeighsAt(r, f, j);
    }
  }

  lemma AgreementWeighsAt(r: Runs, f: Field, j: nat)
    requires r.Valid() && j < |r.order| && Placed(r, j)
    ensures Extra(Favouring(r.defaults, f), r.direct[AppendOf(r, j)].op) <=
            Extra(Favouring(r.defaults, f), r.compiled[j].op)
  {
    SameOperation(r, j);
    if KindOf(r, j).Gen? && Agrees(ResolveParams(r.calls(CallOf(r, j)), KindOf(r, j).overrides), r.defaults, f) {
      OverridesKeepAgreement(r.defaults, r.calls(CallOf(r, j)), KindOf(r, j).overrides, f);
    }
  }

  /** Called functions run on another backend than the outermost one. */
  function OuterAndCalled(b: Backend, g: Backend): Backends {
    (stream: nat) => if stream == 0 then b else g
  }

  /** Nothing that the last node depends on was answered inside a called function. */
  ghost predicate OnlyOuterAsks(r: Runs)
    requires WellTyped(r.t)
  {
    forall j: nat :: j < |r.order| && r.order[j] in Objects(r.t) && KeyOf(KindOf(r, j)).Some? ==> CallOf(r, j) == 0
  }

  /** When called functions run on a backend of their own, the texts agree for every pair of backends
      exactly when, besides, no ordered answer is given inside a called function. */
  lemma SameTextIffOnlyOuterAsks(r: Runs, last: Id)
    requires r.Valid() && r.Resolves() && OnlyReached(r, last)
    requires LastNode(r.t, |r.t.appends|, 0) == Some(last) && last in r.order
    ensures 0 < r.t.width && StreamOf(r.heap, last) < r.width
    ensures (forall b: Backend, g: Backend ::
               CompiledResult(Everywhere(b), r, last).text == DirectResult(OuterAndCalled(b, g), r).text) <==>
            SameSettings(r) && OnlyOuterAsks(r)
  {
    SameTextIffSameSettings(r, last);
    if SameSettings(r) && OnlyOuterAsks(r) {
      forall b: Backend, g: Backend
        ensures CompiledResult(Everywhere(b), r, last).text == DirectResult(OuterAndCalled(b, g), r).text
      {
        assert forall j: nat :: j < |r.order| && r.order[j] in Objects(r.t) && SettingsAgree(r, j) ==>
            AsksTheSame(b, OuterAndCalled(b, g), r, j);
        CompilationPreservesMeaning(b, OuterAndCalled(b, g), r, last);
      }
    } else if !OnlyOuterAsks(r) {
      var k: nat :| k < |r.order| && r.order[k] in Objects(r.t) && KeyOf(KindOf(r, k)).Some? && CallOf(r, k) != 0;
      var b, g := CalledSeparates(r, last, k);
      assert CompiledResult(Everywhere(b), r, last).text != DirectResult(OuterAndCalled(b, g), r).text;
    } else {
      var k: nat :| k < |r.order| && r.order[k] in Objects(r.t) && !SettingsAgree(r, k);
      var b := OuterSeparates(r, last, k);
      assert CompiledResult(Everywhere(b), r, last).text != DirectResult(OuterAndCalled(b, b), r).text;
    }
  }

  const HIGH: Meter := Meter((p: Params) => true, 2)
  const LOW: Meter := Meter((p: Params) => false, 1)

  function HighOutside(call: nat): Meter {
    if call == 0 then HIGH else LOW
  }

  lemma HighWeighs(r: Runs)
    requires r.Valid()
    ensures Weighs(HIGH, (call: nat) => HighOutside(call), OuterAndCalled(Metered(HIGH), Metered(LOW)), r)
  {
    forall j: nat | j < |r.order| && Placed(r, j)
      ensures Extra(HighOutside(CallOf(r, j)), r.direct[AppendOf(r, j)].op) <= Extra(HIGH, r.compiled[j].op)
    {
      SameOperation(r, j);
    }
  }

  lemma CalledSeparates(r: Runs, last: Id, k: nat) returns (b: Backend, g: Backend)
    requires r.Valid() && r.Resolves() && OnlyReached(r, last)
    requires LastNode(r.t, |r.t.appends|, 0) == Some(last) && last in r.order
    requires k < |r.order| && r.order[k] in Objects(r.t) && KeyOf(KindOf(r, k)).Some? && CallOf(r, k) != 0
    ensures 0 < r.t.width && StreamOf(r.heap, last) < r.width
    ensures |CompiledResult(Everywhere(b), r, last).text| > |DirectResult(OuterAndCalled(b, g), r).text|
  {
    b, g := Metered(HIGH), Metered(LOW);
    HighWeighs(r);
    OrderedObject(r, k);
    SameOperation(r, k);
    LongerAnswerLengthensResult(HIGH, (call: nat) => HighOutside(call), OuterAndCalled(b, g), r, last, k);
  }

  lemma OuterSeparates(r: Runs, last: Id, k: nat) returns (b: Backend)
    requires r.Valid() && r.Resolves() && OnlyReached(r, last)
    requires LastNode(r.t, |r.t.appends|, 0) == Some(last) && last in r.order
    requires k < |r.order| && r.order[k] in Objects(r.t) && !SettingsAgree(r, k)
    ensures 0 < r.t.width && StreamOf(r.heap, last) < r.width
    ensures CompiledResult(Everywhere(b), r, last).text != DirectResult(OuterAndCalled(b, b), r).text
  {
    b := SettingsSeparate(r, last, k);
    SameEverywhere(b, r.direct, r.t.width, |r.direct|);
  }

  lemma {:induction false} SameEverywhere(b: Backend, program: seq<Submission>, width: nat, n: nat)
    requires n <= |program|
    ensures Unthreaded(OuterAndCalled(b, b), program, width, n) == Unthreaded(Everywhere(b), program, width, n)
  {
    if n > 0 {
      SameEverywhere(b, program, width, n - 1);
    }
  }
}
