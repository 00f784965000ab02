/** Tracing, compiling and running a function, from end to end. */
module CompiledFunctions {
  import opened Prelude
  import opened Ir
  import opened ChatTemplates
  import opened Tracing
  import opened Tracer
  import opened Network
  import opened CompiledMeaning
  import opened CompiledProofs
  import opened CompiledSettings
  import opened Compiler

  // ----- the graph of a trace -----

  lemma {:induction false} VariablesAreAppended(t: Trace, n: nat, tracer: nat, name: string)
    requires WellTyped(t) && n <= |t.appends| && name in Variables(t, n, tracer)
    ensures Variables(t, n, tracer)[name] in HeapAfter(t, n)
  {
    var a := t.appends[n - 1];
    if !(a.tracer == tracer && KeyOf(t.kinds[a.obj]).Some? && Variables(t, n, tracer)[name] == a.obj) {
      VariablesAreAppended(t, n - 1, tracer, name);
    }
  }

  lemma {:induction false} HeapKeeps(t: Trace, i: nat, n: nat, id: Id)
    requires WellTyped(t) && i <= n <= |t.appends| && id in HeapAfter(t, i)
    ensures id in HeapAfter(t, n)
  {
    if i < n {
      HeapKeeps(t, i, n - 1, id);
    }
  }

  /** The dependencies of an append are earlier appends. */
  lemma DependenciesAreEarlier(t: Trace, i: nat)
    requires Compilable(t) && i < |t.appends|
    ensures var n := |t.appends|; var heap := HeapAfter(t, n); var id := t.appends[i].obj;
            && id in heap
            && (heap[id].prev.Some? ==> exists p :: 0 <= p < i && heap[id].prev == Some(t.appends[p].obj))
            && (SourceOf(heap, Variables(t, n, 0), id).Some? ==>
                  exists d :: 0 <= d < i && SourceOf(heap, Variables(t, n, 0), id) == Some(t.appends[d].obj))
  {
    HeapHolds(t, |t.appends|, i);
    var p := LastIndex(t, i, t.appends[i].tracer);
    assert VariableIsServed(t, i) && ResolvesToSource(t, i);
  }

  lemma TraceIsClosed(t: Trace)
    requires Compilable(t)
    ensures Closed(HeapAfter(t, |t.appends|), Variables(t, |t.appends|, 0))
  {
    var n := |t.appends|;
    var heap, variables := HeapAfter(t, n), Variables(t, n, 0);
    forall id | id in heap
      ensures heap[id].prev.Some? ==> heap[id].prev.value in heap
      ensures SourceOf(heap, variables, id).Some? ==> SourceOf(heap, variables, id).value in heap
    {
      HeapHasOnlyAppended(t, n, id);
      var i := IndexOf(Objects(t), id);
      DependenciesAreEarlier(t, i);
      forall k: nat | k < n
        ensures t.appends[k].obj in heap
      {
        HeapHolds(t, n, k);
      }
    }
  }

  lemma {:induction false} TraceIsGrounded(t: Trace, i: nat)
    requires Compilable(t) && i < |t.appends|
    ensures Grounded(HeapAfter(t, |t.appends|), Variables(t, |t.appends|, 0), t.appends[i].obj, i + 1)
  {
    var n := |t.appends|;
    var heap, variables, id := HeapAfter(t, n), Variables(t, n, 0), t.appends[i].obj;
    DependenciesAreEarlier(t, i);
    if heap[id].prev.Some? {
      var p: nat :| p < i && heap[id].prev == Some(t.appends[p].obj);
      TraceIsGrounded(t, p);
      GroundedMore(heap, variables, t.appends[p].obj, p + 1, i);
    }
    if SourceOf(heap, variables, id).Some? {
      var d: nat :| d < i && SourceOf(heap, variables, id) == Some(t.appends[d].obj);
      TraceIsGrounded(t, d);
      GroundedMore(heap, variables, t.appends[d].obj, d + 1, i);
    }
  }

  lemma {:induction false} GroundedIgnoresLabels(before: Heap, after: Heap, variables: map<string, Id>, id: Id, n: nat)
    requires SameButLabels(before, after)
    ensures Grounded(before, variables, id, n) == Grounded(after, variables, id, n)
    decreases n
  {
    if n > 0 && id in before {
      assert SourceOf(before, variables, id) == SourceOf(after, variables, id);
      if before[id].prev.Some? {
        GroundedIgnoresLabels(before, after, variables, before[id].prev.value, n - 1);
      }
      if SourceOf(before, variables, id).Some? {
        GroundedIgnoresLabels(before, after, variables, SourceOf(before, variables, id).value, n - 1);
      }
    }
  }

  // ----- what the compiler makes of a trace -----

  /** Everything that is reached is ordered, and the labels of the order are as a run needs them. */
  lemma CompilerIsRight(t: Trace, after: Heap, streams: map<Pid, nat>, all: seq<CompGraphNode>, order: seq<Id>,
                        last: Id)
    requires Compilable(t)
    requires Renaming(streams) && RelabelledUpTo(HeapAfter(t, |t.appends|), after, streams, all, |all|)
    requires last in Exprs(all) && forall id :: id in order ==> id in Exprs(all)
    requires forall id :: id in Exprs(all) ==>
               (id in order <==> IsGrounded(after, Variables(t, |t.appends|, 0), id))
    ensures Relabelled(HeapAfter(t, |t.appends|), after, order, |streams|)
    ensures last in order && forall id :: id in Exprs(all) ==> id in order
  {
    var n := |t.appends|;
    var before, variables := HeapAfter(t, n), Variables(t, n, 0);
    forall id | id in Exprs(all)
      ensures id in order
      ensures id in before && before[id].pid in streams && after[id].pid == Stream(streams[before[id].pid])
    {
      var k :| 0 <= k < |all| && Exprs(all)[k] == id;
      assert all[k].expr == id;
      HeapHasOnlyAppended(t, n, id);
      var i := IndexOf(Objects(t), id);
      TraceIsGrounded(t, i);
      GroundedIgnoresLabels(before, after, variables, id, i + 1);
      assert IsGrounded(after, variables, id);
    }
  }

  lemma OpIsAccepted(t: Trace, heap: Heap, id: Id, arguments: map<string, string>, defaults: Params, calls: Calls)
    requires Compilable(t) && SameButLabels(HeapAfter(t, |t.appends|), heap) && id in heap
    requires Direct(t, |t.appends|, arguments, calls).Ok?
    ensures CompiledOp(heap, Variables(t, |t.appends|, 0), id, arguments, defaults).Ok?
  {
    HeapHasOnlyAppended(t, |t.appends|, id);
    var i := IndexOf(Objects(t), id);
    HeapHolds(t, |t.appends|, i);
    DirectAt(t, |t.appends|, arguments, calls, i);
  }

  /** An argument given to the direct run is given to the compiled run. */
  lemma {:induction false} CompiledAcceptsArguments(t: Trace, heap: Heap, order: seq<Id>, k: nat,
                                                    arguments: map<string, string>, defaults: Params, calls: Calls)
    requires Compilable(t) && SameButLabels(HeapAfter(t, |t.appends|), heap)
    requires k <= |order| && forall j :: 0 <= j < |order| ==> order[j] in heap
    requires Direct(t, |t.appends|, arguments, calls).Ok?
    ensures Compiled(heap, Variables(t, |t.appends|, 0), order, k, arguments, defaults).Ok?
  {
    if k > 0 {
      CompiledAcceptsArguments(t, heap, order, k - 1, arguments, defaults, calls);
      OpIsAccepted(t, heap, order[k - 1], arguments, defaults, calls);
    }
  }

  /** Whatever the compiler leaves behind for a supported program, a run of it accepts the arguments of
      the program and every read finds its variable. With every backend it returns the text of direct
      interpretation exactly when all ordered generations resolve to the same parameters as in their
      own calls; and then it returns the same executor state, too. */
  lemma CompiledFunctionMeansProgram(t: Trace, after: Heap, streams: map<Pid, nat>, all: seq<CompGraphNode>,
                                     order: seq<Id>, last: Id,
                                     arguments: map<string, string>, defaults: Params, calls: Calls)
    returns (r: Runs)
    requires Compilable(t) && LastNode(t, |t.appends|, 0) == Some(last)
    requires Renaming(streams) && RelabelledUpTo(HeapAfter(t, |t.appends|), after, streams, all, |all|)
    requires last in Exprs(all) && forall id :: id in order ==> id in Exprs(all)
    requires forall id :: id in Exprs(all) <==>
               Reachable(HeapAfter(t, |t.appends|), Variables(t, |t.appends|, 0), last, id)
    requires forall id :: id in Exprs(all) ==>
               (id in order <==> IsGrounded(after, Variables(t, |t.appends|, 0), id))
    requires Topological(after, Variables(t, |t.appends|, 0), order)
    requires Direct(t, |t.appends|, arguments, calls).Ok?
    ensures r == Runs(t, after, order, |streams|, arguments, defaults, calls, r.direct, r.compiled)
    ensures r.Valid() && WellFormed(r.compiled, r.width) && last in order && OnlyReached(r, last)
    ensures 0 < r.t.width && StreamOf(r.heap, last) < r.width
    ensures (forall b: Backend ::
               CompiledResult(Everywhere(b), r, last).text == DirectResult(Everywhere(b), r).text) <==>
            SameSettings(r)
    ensures SameSettings(r) ==>
              forall b: Backend :: CompiledResult(Everywhere(b), r, last) == DirectResult(Everywhere(b), r)
  {
    CompilerIsRight(t, after, streams, all, order, last);
    CompiledAcceptsArguments(t, after, order, |order|, arguments, defaults, calls);
    var compiled := Compiled(after, Variables(t, |t.appends|, 0), order, |order|, arguments, defaults).value;
    r := Runs(t, after, order, |streams|, arguments, defaults, calls,
              Direct(t, |t.appends|, arguments, calls).value, compiled);
    CompiledIsWellFormed(r);
    SameTextIffSameSettings(r, last);
    if SameSettings(r) {
      forall b: Backend
        ensures CompiledResult(Everywhere(b), r, last) == DirectResult(Everywhere(b), r)
      {
        SameSettingsMeanSameState(b, r, last);
      }
    }
  }

  lemma ListedAreNodes(nodes: seq<CompGraphNode>, all: seq<CompGraphNode>)
    requires forall x :: x in nodes ==> x in all
    ensures forall id :: id in Exprs(nodes) ==> id in Exprs(all)
  {
    forall id | id in Exprs(nodes)
      ensures id in Exprs(all)
    {
      var k :| 0 <= k < |nodes| && Exprs(nodes)[k] == id;
      assert nodes[k] in all;
      var i :| 0 <= i < |all| && all[i] == nodes[k];
      assert Exprs(all)[i] == id;
    }
  }

  /** Tracing a supported program and compiling it. */
  method TraceAndCompile(t: Trace, heap: IrHeap, template: ChatTemplate) returns (compiled: CompiledFunction)
    requires heap.Valid() && heap.objects == map[] && Supplied(t, heap.kinds)
    requires Compilable(t) && 0 < t.width && LastNode(t, |t.appends|, 0).Some?
    modifies heap
    ensures compiled.Runnable() && compiled.heap == heap && compiled.variables == Variables(t, |t.appends|, 0)
    ensures var order := Exprs(compiled.nodes); var last := LastNode(t, |t.appends|, 0).value;
            && compiled.lastNode.expr == last && last in order
            && Topological(heap.objects, compiled.variables, order)
            && (forall id :: id in order <==> Reachable(HeapAfter(t, |t.appends|), compiled.variables, last, id))
            && Relabelled(HeapAfter(t, |t.appends|), heap.objects, order, |compiled.streams|)
  {
    var tracers := TraceProgram(t, heap, template);
    TraceIsClosed(t);
    var last := tracers[0].lastNode.value;
    HeapHolds(t, |t.appends|, LastIndex(t, |t.appends|, 0).value);
    compiled := new CompiledFunction(heap, last, tracers[0].variables);
    assert Reachable(HeapAfter(t, |t.appends|), compiled.variables, last, last);
    ListedAreNodes(compiled.nodes, compiled.all);
    CompilerIsRight(t, heap.objects, compiled.streams, compiled.all, Exprs(compiled.nodes), last);
  }

  // ----- the program of test/lang/test_tracing.py, with one of its tips -----

  const ASK: Overrides := Overrides(None, None, map[])

  /** The outer function generates a tip, has it expanded by another function, and appends what that
      function generated. */
  const ONE_TIP: Trace := Trace(
    2,
    map[0 := Const("1."), 1 := Kind.Gen(Some("tip_1"), Overrides(None, Some(["\n", ":", "."]), map[])),
        2 := Const("Please expand the following tip into a detailed paragraph:"), 3 := Kind.Variable("tip_1", 1),
        4 := Kind.Gen(Some("detailed_tip"), ASK), 5 := Const("Tip 1: "), 6 := Kind.Variable("detailed_tip", 4)],
    [Append(0, 0, true), Append(0, 1, true), Append(1, 2, true), Append(1, 3, true), Append(1, 4, true),
     Append(0, 5, true), Append(0, 6, true)])

  lemma VariablesOfOneTip()
    ensures WellTyped(ONE_TIP) && Variables(ONE_TIP, 7, 0) == map["tip_1" := 1]
    ensures LastNode(ONE_TIP, 7, 0) == Some(6)
  {
    NothingEntered(ONE_TIP, 0, 0);
    NameEntered(ONE_TIP, 1, 0, "tip_1");
    NothingEntered(ONE_TIP, 2, 0);
    NothingEntered(ONE_TIP, 3, 0);
    NothingEntered(ONE_TIP, 4, 0);
    NothingEntered(ONE_TIP, 5, 0);
    NothingEntered(ONE_TIP, 6, 0);
  }

  lemma FirstVariableIsServed()
    ensures WellTyped(ONE_TIP) && ServedBy(ONE_TIP, 3, 1)
  {
    assert Named(ONE_TIP, 1, 0, "tip_1");
  }

  lemma SecondVariableIsServed()
    ensures WellTyped(ONE_TIP) && ServedBy(ONE_TIP, 6, 4)
  {
    assert Named(ONE_TIP, 4, 1, "detailed_tip");
  }

  lemma OneTipResolves()
    ensures WellTyped(ONE_TIP) && forall i: nat :: i < 7 ==> ResolvesToSource(ONE_TIP, i)
  {
    VariablesOfOneTip();
    assert ResolvesToSource(ONE_TIP, 3) && ResolvesToSource(ONE_TIP, 6);
  }

  lemma OneTipIsServed()
    ensures Served(ONE_TIP)
  {
    FirstVariableIsServed();
    SecondVariableIsServed();
    forall i: nat | i < 7
      ensures VariableIsServed(ONE_TIP, i)
    {
      if i == 3 || i == 6 {
        assert ServedBy(ONE_TIP, i, if i == 3 then 1 else 4);
      }
    }
  }

  lemma OneTipIsCompilable()
    ensures Compilable(ONE_TIP)
  {
    OneTipIsServed();
    OneTipResolves();
    assert forall i :: 0 <= i < 7 ==> Objects(ONE_TIP)[i] == i;
  }

  /** An ordered variable has its source ordered, too. */
  lemma SourceIsOrdered(r: Runs, id: Id, source: Id) returns (k: nat)
    requires r.Valid() && id in r.order && id in r.heap
    requires SourceOf(r.heap, Variables(r.t, |r.t.appends|, 0), id) == Some(source)
    ensures k < |r.order| && r.order[k] == source
  {
    var j := IndexOf(r.order, id);
    assert Comes(r.order, SourceOf(r.heap, Variables(r.t, |r.t.appends|, 0), id), j);
    k := IndexOf(r.order[..j], source);
  }

  lemma LastReadsDetailedTip(r: Runs)
    requires r.t == ONE_TIP && r.Valid() && 6 in r.order
    ensures 6 in r.heap && SourceOf(r.heap, Variables(ONE_TIP, 7, 0), 6) == Some(4)
  {
    VariablesOfOneTip();
    OrderedObject(r, IndexOf(r.order, 6));
  }

  lemma PlaceInOneTip(r: Runs, k: nat)
    requires r.t == ONE_TIP && k < |r.order| && r.order[k] in Objects(r.t)
    ensures WellTyped(ONE_TIP) && AppendOf(r, k) == r.order[k]
  {
  }

  lemma DetailedTipIsOrdered(r: Runs) returns (k: nat)
    requires r.t == ONE_TIP && r.Valid() && 6 in r.order
    ensures k < |r.order| && r.order[k] in Objects(r.t)
    ensures KindOf(r, k) == Kind.Gen(Some("detailed_tip"), ASK) && CallOf(r, k) == 1
  {
    LastReadsDetailedTip(r);
    k := SourceIsOrdered(r, 6, 4);
    OrderedObject(r, k);
    PlaceInOneTip(r, k);
  }

  /** Compiled and run with other defaults than a call has of its own, such as another temperature, it
      returns another text for some model, however the compiler orders it. */
  lemma OneTipIsSampledDifferently(r: Runs)
    requires r.t == ONE_TIP && r.Valid() && OnlyReached(r, 6) && 6 in r.order
    requires r.calls(0) == r.defaults && r.calls(1) != r.defaults
    ensures StreamOf(r.heap, 6) < r.width
    ensures exists b: Backend ::
              CompiledResult(Everywhere(b), r, 6).text != DirectResult(Everywhere(b), r).text
  {
    VariablesOfOneTip();
    OneTipIsCompilable();
    var k := DetailedTipIsOrdered(r);
    NothingOverridden(r.defaults);
    NothingOverridden(r.calls(1));
    var b := SettingsSeparate(r, 6, k);
  }

  lemma NothingOverridden(defaults: Params)
    ensures ResolveParams(defaults, ASK) == defaults
  {
    assert defaults.others + map[] == defaults.others;
  }
}
