/** The text of roles carries no label when it is traced, so compiling puts it on another stream. */
module RoleText {
  import opened Prelude
  import opened Ir
  import opened FixedLengthModels
  import opened HeavyModels
  import opened RepeatedObjects
  import opened Tracing
  import opened Network
  import opened CompiledMeaning
  import opened CompiledProofs
  import opened Compiler

  // ----- role text -----

  /** A function without repeated objects. The text of its roles is not labelled. */
  ghost predicate WithRoles(t: Trace) {
    && SingleCall(t) && Distinct(Objects(t))
    && forall i :: 0 <= i < |t.appends| && !t.appends[i].labelled ==> t.kinds[t.appends[i].obj].Const?
  }

  /** An object that the compiler puts on the other stream than the last one. */
  predicate Astray(t: Trace, i: nat)
    requires i < |t.appends|
  {
    t.appends[i].labelled != t.appends[|t.appends| - 1].labelled
  }

  /** The compiled and the direct run of such a function. The order of a chain is the chain. */
  datatype RoleRuns = RoleRuns(t: Trace, heap: Heap, width: nat, arguments: map<string, string>,
                               direct: seq<Submission>, compiled: seq<Submission>)
  {
    ghost predicate Valid(defaults: Params) {
      && WithRoles(t)
      && Relabelled(HeapAfter(t, |t.appends|), heap, Objects(t), width)
      && Direct(t, |t.appends|, arguments, AllAlike(defaults)) == Ok(direct)
      && Compiled(heap, Variables(t, |t.appends|, 0), Objects(t), |t.appends|, arguments, defaults) == Ok(compiled)
    }

    function LastStream(): nat
      requires t.appends != []
    {
      StreamOf(heap, t.appends[|t.appends| - 1].obj)
    }
  }

  // The comparison itself only needs the two lists of submissions.

  /** One list submits everything to stream 0. The other submits the same operations, some of them
      away from the stream `last`, and reads each variable from the stream of the reader. */
  ghost predicate Split(direct: seq<Submission>, compiled: seq<Submission>, astray: seq<bool>, width: nat, last: nat) {
    && |direct| == |compiled| == |astray| && last < width
    && forall i :: 0 <= i < |direct| ==> SplitAt(direct[i], compiled[i], astray[i], width, last)
  }

  predicate SplitAt(d: Submission, c: Submission, astray: bool, width: nat, last: nat) {
    && d.stream == 0 && c.stream < width && (astray <==> c.stream != last)
    && if d.op.Read? then d.op.source == 0 && c.op == Read(c.stream, d.op.name, true) else c.op == d.op
  }

  /** An operation that adds nothing, whatever the model answers. */
  ghost predicate StraysAreEmpty(direct: seq<Submission>, astray: seq<bool>)
    requires |direct| == |astray|
  {
    forall i :: 0 <= i < |direct| && astray[i] ==> direct[i].op == Text("")
  }

  lemma {:induction false} NeverSpeculates(b: Backends, program: seq<Submission>, width: nat, k: nat, s: nat)
    requires k <= |program| && s < width
    ensures Unthreaded(b, program, width, k)[s].speculated == ""
  {
    if k > 0 {
      NeverSpeculates(b, program, width, k - 1, s);
      var before := Unthreaded(b, program, width, k - 1);
      ApplyAdds(before[s], program[k - 1].op, Output(b, before, program[k - 1]));
    }
  }

  predicate SameState(b: Backends, direct: seq<Submission>, compiled: seq<Submission>, width: nat, last: nat, k: nat)
    requires k <= |direct| == |compiled| && last < width
  {
    Unthreaded(b, compiled, width, k)[last] == Unthreaded(b, direct, 1, k)[0]
  }

  lemma EmptyStep(b: Backend, direct: seq<Submission>, compiled: seq<Submission>, astray: seq<bool>, width: nat,
                  last: nat, k: nat)
    requires Split(direct, compiled, astray, width, last) && StraysAreEmpty(direct, astray) && 0 < k <= |direct|
    requires SameState(Everywhere(b), direct, compiled, width, last, k - 1)
    ensures SameState(Everywhere(b), direct, compiled, width, last, k)
  {
    assert SplitAt(direct[k - 1], compiled[k - 1], astray[k - 1], width, last);
    if astray[k - 1] {
      NeverSpeculates(Everywhere(b), direct, 1, k - 1, 0);
      ApplyAdds(Unthreaded(Everywhere(b), direct, 1, k - 1)[0], direct[k - 1].op, "");
    } else {
      assert OutputOf(Everywhere(b), compiled, width, k - 1) == OutputOf(Everywhere(b), direct, 1, k - 1);
    }
  }

  /** When everything astray is empty, the last stream follows the direct run step by step. */
  lemma {:induction false} EmptyMeansSame(b: Backend, direct: seq<Submission>, compiled: seq<Submission>,
                                          astray: seq<bool>, width: nat, last: nat, k: nat)
    requires Split(direct, compiled, astray, width, last) && StraysAreEmpty(direct, astray) && k <= |direct|
    ensures SameState(Everywhere(b), direct, compiled, width, last, k)
  {
    if k > 0 {
      EmptyMeansSame(b, direct, compiled, astray, width, last, k - 1);
      EmptyStep(b, direct, compiled, astray, width, last, k);
    }
  }

  lemma TerseRead(direct: seq<Submission>, i: nat)
    requires WellFormed(direct, 1) && i < |direct| && direct[i].op.Read? && direct[i].op.source == 0
    ensures |OutputOf(TERSE, direct, 1, i)| == 1
  {
    assert ReadIsServed(direct, i);
    ReadCosts(1, TERSE, direct, 1, DefinitionOf(direct, i), i);
  }

  /** The text of the direct run that the operations astray add among the first k. */
  function StrayLetters(direct: seq<Submission>, astray: seq<bool>, k: nat): nat
    requires k <= |direct| == |astray|
  {
    if k == 0 then 0
    else StrayLetters(direct, astray, k - 1) + if astray[k - 1] then |OutputOf(TERSE, direct, 1, k - 1)| else 0
  }

  /** What went astray among the first k operations is missing from the last stream. */
  predicate Missing(direct: seq<Submission>, compiled: seq<Submission>, astray: seq<bool>, width: nat, last: nat,
                    k: nat)
    requires k <= |direct| == |compiled| == |astray| && last < width
  {
    |Unthreaded(TERSE, compiled, width, k)[last].text| + StrayLetters(direct, astray, k) <=
    |Unthreaded(TERSE, direct, 1, k)[0].text|
  }

  /** Submission i goes to the last stream or astray, and contributes no more than in the direct run. */
  predicate NoLonger(direct: seq<Submission>, compiled: seq<Submission>, astray: seq<bool>, width: nat, last: nat,
                     i: nat)
    requires i < |direct| == |compiled| == |astray|
  {
    && direct[i].stream == 0 && (astray[i] <==> compiled[i].stream != last)
    && |OutputOf(TERSE, compiled, width, i)| <= |OutputOf(TERSE, direct, 1, i)|
  }

  lemma LostIsMissing(direct: seq<Submission>, compiled: seq<Submission>, astray: seq<bool>, width: nat, last: nat,
                      k: nat)
    requires k <= |direct| == |compiled| == |astray| && last < width
    requires forall i :: 0 <= i < |direct| ==> NoLonger(direct, compiled, astray, width, last, i)
    ensures Missing(direct, compiled, astray, width, last, k)
  {
    for i := 0 to k
      invariant Missing(direct, compiled, astray, width, last, i)
    {
      LostInStep(direct, compiled, astray, width, last, i);
    }
  }

  lemma LostInStep(direct: seq<Submission>, compiled: seq<Submission>, astray: seq<bool>, width: nat, last: nat, k: nat)
    requires k < |direct| == |compiled| == |astray| && last < width
    requires NoLonger(direct, compiled, astray, width, last, k) && Missing(direct, compiled, astray, width, last, k)
    ensures Missing(direct, compiled, astray, width, last, k + 1)
  {
    LengthGrows(TERSE, direct, 1, k, 0);
    LengthGrows(TERSE, compiled, width, k, last);
  }

  lemma NoLongerOutput(direct: seq<Submission>, compiled: seq<Submission>, astray: seq<bool>, width: nat, last: nat,
                       i: nat)
    requires Split(direct, compiled, astray, width, last) && WellFormed(direct, 1) && i < |direct|
    ensures NoLonger(direct, compiled, astray, width, last, i)
  {
    assert SplitAt(direct[i], compiled[i], astray[i], width, last);
    if direct[i].op.Read? {
      TerseRead(direct, i);
      OutputCosts(1, TERSE, compiled, width, i);
    }
  }

  lemma {:induction false} SomethingLost(direct: seq<Submission>, astray: seq<bool>, k: nat, i: nat)
    requires i < k <= |direct| == |astray| && astray[i] && OutputOf(TERSE, direct, 1, i) != ""
    ensures StrayLetters(direct, astray, k) > 0
  {
    if i < k - 1 {
      SomethingLost(direct, astray, k - 1, i);
    }
  }

  /** The last stream has the text of the direct run, for every model, exactly when everything
      astray is empty. */
  lemma SameIffEmpty(direct: seq<Submission>, compiled: seq<Submission>, astray: seq<bool>, width: nat, last: nat)
    requires Split(direct, compiled, astray, width, last) && WellFormed(direct, 1)
    ensures (forall b: Backend ::
               Unthreaded(Everywhere(b), compiled, width, |compiled|)[last].text ==
               Unthreaded(Everywhere(b), direct, 1, |direct|)[0].text) <==>
            StraysAreEmpty(direct, astray)
  {
    var n := |direct|;
    if StraysAreEmpty(direct, astray) {
      forall b: Backend
        ensures Unthreaded(Everywhere(b), compiled, width, n)[last].text ==
                Unthreaded(Everywhere(b), direct, 1, n)[0].text
      {
        EmptyMeansSame(b, direct, compiled, astray, width, last, n);
      }
    } else {
      var i: nat :| i < n && astray[i] && direct[i].op != Text("");
      TextIsShorter(direct, compiled, astray, width, last, i);
      assert Unthreaded(TERSE, compiled, width, |compiled|)[last].text != Unthreaded(TERSE, direct, 1, n)[0].text;
    }
  }

  lemma TextIsShorter(direct: seq<Submission>, compiled: seq<Submission>, astray: seq<bool>, width: nat, last: nat,
                      i: nat)
    requires Split(direct, compiled, astray, width, last) && WellFormed(direct, 1)
    requires i < |direct| && astray[i] && direct[i].op != Text("")
    ensures |Unthreaded(TERSE, compiled, width, |compiled|)[last].text| <
            |Unthreaded(TERSE, direct, 1, |direct|)[0].text|
  {
    forall k: nat | k < |direct|
      ensures NoLonger(direct, compiled, astray, width, last, k)
    {
      NoLongerOutput(direct, compiled, astray, width, last, k);
    }
    LostIsMissing(direct, compiled, astray, width, last, |direct|);
    assert SplitAt(direct[i], compiled[i], astray[i], width, last);
    if direct[i].op.Read? {
      TerseRead(direct, i);
    }
    SomethingLost(direct, astray, |direct|, i);
  }

  /** An object keeps its kind and is on the last stream exactly when it is not astray. */
  lemma RoleObject(r: RoleRuns, defaults: Params, i: nat)
    requires r.Valid(defaults) && i < |r.t.appends|
    ensures var id := r.t.appends[i].obj;
            && id in r.heap && r.heap[id].kind == r.t.kinds[id] && StreamOf(r.heap, id) < r.width
            && (StreamOf(r.heap, id) == r.LastStream() <==> !Astray(r.t, i))
  {
    var n := |r.t.appends|;
    HeapHolds(r.t, n, i);
    HeapHolds(r.t, n, n - 1);
    RelabelledAt(HeapAfter(r.t, n), r.heap, Objects(r.t), r.width, i, n - 1);
  }

  /** The source of a variable is on the stream of the variable. */
  lemma RoleSource(r: RoleRuns, defaults: Params, i: nat)
    requires r.Valid(defaults) && i < |r.t.appends| && r.t.kinds[r.t.appends[i].obj].Variable?
    ensures var id := r.t.appends[i].obj;
            && id in r.heap
            && SourceOf(r.heap, Variables(r.t, |r.t.appends|, 0), id) == Some(r.t.kinds[id].source)
            && StreamOf(r.heap, r.t.kinds[id].source) == StreamOf(r.heap, id)
            && TracerOf(r.t, i, r.t.kinds[id].source) == 0
  {
    RoleObject(r, defaults, i);
    assert VariableIsServed(r.t, i) && ResolvesToSource(r.t, i);
    var d: nat :| ServedBy(r.t, i, d);
    TracerOfAppend(r.t, i, d);
    HeapHolds(r.t, |r.t.appends|, i);
    HeapHolds(r.t, |r.t.appends|, d);
    assert Objects(r.t)[i] == r.t.appends[i].obj && Objects(r.t)[d] == r.t.appends[d].obj;
  }

  /** What is submitted for the i-th object in the two runs. */
  lemma RoleSubmission(r: RoleRuns, defaults: Params, i: nat)
    requires r.Valid(defaults) && i < |r.t.appends|
    ensures |r.direct| == |r.compiled| == |r.t.appends|
    ensures var id := r.t.appends[i].obj;
            && DirectOp(r.t, i, r.arguments, AllAlike(defaults)) == Ok(r.direct[i].op) && r.direct[i].stream == 0
            && id in r.heap && r.compiled[i].stream == StreamOf(r.heap, id)
            && CompiledOp(r.heap, Variables(r.t, |r.t.appends|, 0), id, r.arguments, defaults) == Ok(r.compiled[i].op)
  {
    var n := |r.t.appends|;
    RoleObject(r, defaults, i);
    assert Objects(r.t)[i] == r.t.appends[i].obj;
    DirectAt(r.t, n, r.arguments, AllAlike(defaults), i);
    CompiledAt(r.heap, Variables(r.t, n, 0), Objects(r.t), n, r.arguments, defaults, i);
  }

  /** The i-th submission is the same operation on both sides, on the last stream exactly when it is
      not astray; a variable is read from the stream it is submitted to. */
  lemma SubmissionsOfRoles(r: RoleRuns, defaults: Params, i: nat)
    requires r.Valid(defaults) && i < |r.t.appends|
    ensures |r.direct| == |r.compiled| == |r.t.appends| && r.LastStream() < r.width
    ensures SplitAt(r.direct[i], r.compiled[i], Astray(r.t, i), r.width, r.LastStream())
    ensures var kind := r.t.kinds[r.t.appends[i].obj];
            && (r.direct[i].op == Text("") <==> Silent(kind, r.arguments))
            && Defines(r.direct[i].op) == KeyOf(kind)
            && (r.direct[i].op.Read? <==> kind.Variable?)
            && (r.direct[i].op.Read? ==> r.direct[i].op.name == kind.name)
  {
    RoleObject(r, defaults, |r.t.appends| - 1);
    RoleObject(r, defaults, i);
    RoleSubmission(r, defaults, i);
    var id := r.t.appends[i].obj;
    if r.t.kinds[id].Variable? {
      RoleSource(r, defaults, i);
    }
    SameKindSameOp(r.t.kinds[id], StreamOf(r.heap, id), r.arguments, defaults);
  }

  /** What one kind of object is submitted as, by the main thread of a direct run and in a compiled run. */
  lemma SameKindSameOp(kind: Kind, stream: nat, arguments: map<string, string>, defaults: Params)
    ensures var d, c := OpOf(kind, 0, false, arguments, defaults), OpOf(kind, stream, true, arguments, defaults);
            && d.Ok? == c.Ok?
            && (d.Ok? ==>
                  && (if kind.Variable? then c.value == Read(stream, kind.name, true) && d.value.source == 0
                      else c == OpOf(kind, 0, true, arguments, defaults) == d)
                  && (d.value == Text("") <==> Silent(kind, arguments))
                  && Defines(d.value) == KeyOf(kind)
                  && (d.value.Read? <==> kind.Variable?)
                  && (kind.Variable? ==> d.value.name == kind.name))
  {
  }

  lemma RolesAreWellFormed(r: RoleRuns, defaults: Params)
    requires r.Valid(defaults)
    ensures WellFormed(r.direct, 1)
  {
    SubmissionsOfRoles(r, defaults, 0);
    forall i: nat | i < |r.direct|
      ensures r.direct[i].stream < 1 && ReadIsServed(r.direct, i)
    {
      SubmissionsOfRoles(r, defaults, i);
      assert VariableIsServed(r.t, i);
      if r.direct[i].op.Read? {
        var d: nat :| ServedBy(r.t, i, d);
        var name := r.direct[i].op.name;
        SubmissionsOfRoles(r, defaults, d);
        forall d': nat | IsDefinition(r.direct, d', 0, name)
          ensures d' == d
        {
          SubmissionsOfRoles(r, defaults, d');
          assert Named(r.t, d', 0, name);
        }
        assert SoleDefinition(r.direct, d, 0, name);
      }
    }
  }

  /** A function with roles and no calls keeps its text under compilation, for every model, exactly when nothing
      that is on the other stream than its last node adds any text. A function that ends with a role
      block keeps it only if it says nothing outside the text of the template. */
  lemma RolesSurviveIffSilent(r: RoleRuns, defaults: Params)
    requires r.Valid(defaults)
    ensures r.LastStream() < r.width
    ensures (forall b: Backend ::
               Unthreaded(Everywhere(b), r.compiled, r.width, |r.compiled|)[r.LastStream()].text ==
               Unthreaded(Everywhere(b), r.direct, 1, |r.direct|)[0].text) <==>
            forall i :: 0 <= i < |r.t.appends| && Astray(r.t, i) ==> Silent(r.t.kinds[r.t.appends[i].obj], r.arguments)
  {
    var n := |r.t.appends|;
    var astray := seq(n, i requires 0 <= i < n => Astray(r.t, i));
    SubmissionsOfRoles(r, defaults, 0);
    forall i | 0 <= i < n
      ensures SplitAt(r.direct[i], r.compiled[i], astray[i], r.width, r.LastStream())
      ensures r.direct[i].op == Text("") <==> Silent(r.t.kinds[r.t.appends[i].obj], r.arguments)
    {
      SubmissionsOfRoles(r, defaults, i);
    }
    RolesAreWellFormed(r, defaults);
    SameIffEmpty(r.direct, r.compiled, astray, r.width, r.LastStream());
  }

  // ----- functions that call others and end with a role -----

  /** All that the stream of the last node holds then is role text. */
  lemma OnlyRoleText(r: Runs, last: Id, j: nat)
    requires r.Made() && last in r.order && HeapAfter(r.t, |r.t.appends|)[last].pid == Unset
    requires forall i :: 0 <= i < |r.t.appends| && !r.t.appends[i].labelled ==> r.t.kinds[r.t.appends[i].obj].Const?
    requires j < |r.order|
    ensures |r.compiled| == |r.order| && StreamOf(r.heap, last) < r.width
    ensures r.compiled[j].stream == StreamOf(r.heap, last) ==> r.compiled[j].op.Text?
  {
    var n := |r.t.appends|;
    HeapHasOnlyAppended(r.t, n, r.order[j]);
    var k := IndexOf(Objects(r.t), r.order[j]);
    assert r.t.appends[k].obj == r.order[j];
    HeapHoldsLast(r.t, n, r.order[j]);
    CompiledAt(r.heap, Variables(r.t, n, 0), r.order, |r.order|, r.arguments, r.defaults, j);
    assert r.order[IndexOf(r.order, last)] == last;
  }

  /** What an answer adds to a stream stays there. */
  lemma AnswerStays(w: nat, program: seq<Submission>, width: nat, i: nat)
    requires i < |program| && program[i].stream < width && Defines(program[i].op).Some?
    ensures w <= |Unthreaded(Everywhere(Heavy(w)), program, width, |program|)[program[i].stream].text|
  {
    HeavyOut(w, program, width, i);
    LengthGrows(Everywhere(Heavy(w)), program, width, i, program[i].stream);
    TextStays(Everywhere(Heavy(w)), program, width, program[i].stream, i + 1, |program|);
  }

  /** Whatever calls a program makes: if its last node is role text and its outermost call asks the model
      anything, a model whose answers are long enough gives a shorter text when it is compiled. */
  lemma RoleEndLosesAnswers(r: Runs, last: Id, i: nat) returns (b: Backend)
    requires r.Made() && last in r.order && HeapAfter(r.t, |r.t.appends|)[last].pid == Unset && 0 < r.t.width
    requires forall i :: 0 <= i < |r.t.appends| && !r.t.appends[i].labelled ==> r.t.kinds[r.t.appends[i].obj].Const?
    requires i < |r.t.appends| && r.t.appends[i].tracer == 0 && KeyOf(r.t.kinds[r.t.appends[i].obj]).Some?
    ensures StreamOf(r.heap, last) < r.width
    ensures |CompiledResult(Everywhere(b), r, last).text| < |DirectResult(Everywhere(b), r).text|
  {
    var w := 1 + Letters(r.compiled);
    b := Heavy(w);
    AllRoleText(b, r, last);
    DirectAt(r.t, |r.t.appends|, r.arguments, r.calls, i);
    AnswerStays(w, r.direct, r.t.width, i);
  }

  lemma AllRoleText(b: Backend, r: Runs, last: Id)
    requires r.Made() && last in r.order && HeapAfter(r.t, |r.t.appends|)[last].pid == Unset
    requires forall i :: 0 <= i < |r.t.appends| && !r.t.appends[i].labelled ==> r.t.kinds[r.t.appends[i].obj].Const?
    ensures StreamOf(r.heap, last) < r.width
    ensures |CompiledResult(Everywhere(b), r, last).text| <= Letters(r.compiled)
  {
    OnlyRoleText(r, last, IndexOf(r.order, last));
    forall j: nat | j < |r.order|
      ensures r.compiled[j].stream == StreamOf(r.heap, last) ==> r.compiled[j].op.Text?
    {
      OnlyRoleText(r, last, j);
    }
    OnlyText(Everywhere(b), r.compiled, r.width, StreamOf(r.heap, last), |r.compiled|);
    assert r.compiled[..|r.compiled|] == r.compiled;
  }

  // ----- the order of a chain -----

  /** Each object of a chain is ordered at or after its place in the chain. */
  lemma {:induction false} ChainPlace(t: Trace, heap: Heap, order: seq<Id>, k: nat, j: nat)
    requires SingleCall(t) && Distinct(Objects(t)) && SameButLabels(HeapAfter(t, |t.appends|), heap)
    requires Topological(heap, Variables(t, |t.appends|, 0), order)
    requires k < |t.appends| && j < |order| && order[j] == t.appends[k].obj
    ensures k <= j && forall i: nat :: i <= k ==> exists p: nat :: p <= j - (k - i) && order[p] == t.appends[i].obj
  {
    HeapHolds(t, |t.appends|, k);
    if k > 0 {
      assert LastNode(t, k, 0) == Some(t.appends[k - 1].obj);
      assert Comes(order, heap[order[j]].prev, j);
      var q := IndexOf(order[..j], t.appends[k - 1].obj);
      ChainPlace(t, heap, order, k - 1, q);
      forall i: nat | i <= k
        ensures exists p: nat :: p <= j - (k - i) && order[p] == t.appends[i].obj
      {
        if i < k {
          var p: nat :| p <= q - (k - 1 - i) && order[p] == t.appends[i].obj;
        }
      }
    }
  }

  lemma OrderFitsChain(t: Trace, heap: Heap, order: seq<Id>)
    requires SingleCall(t) && Distinct(Objects(t)) && SameButLabels(HeapAfter(t, |t.appends|), heap)
    requires Topological(heap, Variables(t, |t.appends|, 0), order)
    ensures |order| <= |t.appends|
  {
    var ids := set id | id in Objects(t);
    forall id | id in order
      ensures id in ids
    {
      HeapHasOnlyAppended(t, |t.appends|, id);
    }
    DistinctFits(order, ids);
    SizeOfDistinct(Objects(t), ids);
  }

  /** When the last node is ordered, each object is ordered exactly at its place in the chain. */
  lemma ChainSpot(t: Trace, heap: Heap, order: seq<Id>, j: nat, i: nat)
    requires SingleCall(t) && Distinct(Objects(t)) && SameButLabels(HeapAfter(t, |t.appends|), heap)
    requires Topological(heap, Variables(t, |t.appends|, 0), order) && |order| <= |t.appends|
    requires j < |order| && order[j] == t.appends[|t.appends| - 1].obj && i < |t.appends|
    ensures |order| == |t.appends| && order[i] == t.appends[i].obj
  {
    var n := |t.appends|;
    ChainPlace(t, heap, order, n - 1, j);
    var p: nat :| p <= j - (n - 1 - i) && order[p] == t.appends[i].obj;
    ChainPlace(t, heap, order, i, p);
  }

  /** The only order that lists the last node of a chain is the chain. */
  lemma ChainOrder(t: Trace, heap: Heap, order: seq<Id>)
    requires SingleCall(t) && Distinct(Objects(t)) && SameButLabels(HeapAfter(t, |t.appends|), heap)
    requires Topological(heap, Variables(t, |t.appends|, 0), order)
    requires t.appends[|t.appends| - 1].obj in order
    ensures order == Objects(t)
  {
    OrderFitsChain(t, heap, order);
    var j := IndexOf(order, t.appends[|t.appends| - 1].obj);
    ChainSpot(t, heap, order, j, 0);
    forall i: nat | i < |t.appends|
      ensures order[i] == Objects(t)[i]
    {
      ChainSpot(t, heap, order, j, i);
    }
  }
}
