/** The compiled run and the direct run compute the same output for every object,
    so they leave the last stream in the same state. */
module CompiledProofs {
  import opened Prelude
  import opened Ir
  import opened Executor
  import opened Tracing
  import opened Network
  import opened NetworkProofs
  import opened CompiledMeaning

  // ----- the heap of a trace in which no object is appended twice -----

  /** Where a tracer made its last append among the first n. */
  function LastIndex(t: Trace, n: nat, tracer: nat): (p: Option<nat>)
    requires n <= |t.appends|
    ensures p.Some? ==>
              && p.value < n && t.appends[p.value].tracer == tracer
              && LastNode(t, n, tracer) == Some(t.appends[p.value].obj)
              && forall k :: p.value < k < n ==> t.appends[k].tracer != tracer
    ensures p.None? ==>
              && LastNode(t, n, tracer) == None
              && forall k :: 0 <= k < n ==> t.appends[k].tracer != tracer
  {
    if n == 0 then None
    else if t.appends[n - 1].tracer == tracer then Some(n - 1)
    else LastIndex(t, n - 1, tracer)
  }

  lemma {:induction false} HeapHolds(t: Trace, n: nat, i: nat)
    requires WellTyped(t) && Distinct(Objects(t)) && i < n <= |t.appends|
    ensures t.appends[i].obj in HeapAfter(t, n)
    ensures var a := t.appends[i];
            HeapAfter(t, n)[a.obj] ==
            IrNode(t.kinds[a.obj], LastNode(t, i, a.tracer), if a.labelled then Tracer(a.tracer) else Unset)
  {
    if i < n - 1 {
      HeapHolds(t, n - 1, i);
      assert Objects(t)[i] != Objects(t)[n - 1];
    }
  }

  lemma {:induction false} HeapHasOnlyAppended(t: Trace, n: nat, id: Id)
    requires WellTyped(t) && n <= |t.appends| && id in HeapAfter(t, n)
    ensures id in Objects(t)
  {
    if t.appends[n - 1].obj == id {
      assert Objects(t)[n - 1] == id;
    } else {
      HeapHasOnlyAppended(t, n - 1, id);
    }
  }

  lemma {:induction false} TracerOfAppend(t: Trace, n: nat, d: nat)
    requires Distinct(Objects(t)) && d < n <= |t.appends|
    ensures TracerOf(t, n, t.appends[d].obj) == t.appends[d].tracer
  {
    if d < n - 1 {
      assert Objects(t)[d] != Objects(t)[n - 1];
      TracerOfAppend(t, n - 1, d);
    }
  }

  // ----- what the two programs submit -----

  lemma {:induction false} DirectAt(t: Trace, n: nat, arguments: map<string, string>, calls: Calls, i: nat)
    requires WellTyped(t) && n <= |t.appends| && Direct(t, n, arguments, calls).Ok?
    ensures |Direct(t, n, arguments, calls).value| == n
    ensures i < n ==>
              && DirectOp(t, i, arguments, calls).Ok?
              && Direct(t, n, arguments, calls).value[i] ==
              Submission(t.appends[i].tracer, DirectOp(t, i, arguments, calls).value)
  {
    if n > 0 {
      DirectAt(t, n - 1, arguments, calls, i);
    }
  }

  lemma {:induction false} CompiledAt(heap: Heap, variables: map<string, Id>, order: seq<Id>, n: nat,
                                      arguments: map<string, string>, defaults: Params, j: nat)
    requires n <= |order| && forall k :: 0 <= k < |order| ==> order[k] in heap
    requires Compiled(heap, variables, order, n, arguments, defaults).Ok?
    ensures |Compiled(heap, variables, order, n, arguments, defaults).value| == n
    ensures j < n ==>
              && CompiledOp(heap, variables, order[j], arguments, defaults).Ok?
              && Compiled(heap, variables, order, n, arguments, defaults).value[j] ==
                 Submission(StreamOf(heap, order[j]), CompiledOp(heap, variables, order[j], arguments, defaults).value)
  {
    if n > 0 {
      CompiledAt(heap, variables, order, n - 1, arguments, defaults, j);
    }
  }

  // ----- both runs side by side -----

  /** Everything the comparison is about: the trace, the heap and order the compiler made of it,
      and the two lists of submissions. */
  datatype Runs = Runs(t: Trace, heap: Heap, order: seq<Id>, width: nat,
                       arguments: map<string, string>, defaults: Params, calls: Calls,
                       direct: seq<Submission>, compiled: seq<Submission>)
  {
    ghost predicate Made() {
      && Served(t)
      && Relabelled(HeapAfter(t, |t.appends|), heap, order, width)
      && Topological(heap, Variables(t, |t.appends|, 0), order)
      && Direct(t, |t.appends|, arguments, calls) == Ok(direct)
      && Compiled(heap, Variables(t, |t.appends|, 0), order, |order|, arguments, defaults) == Ok(compiled)
    }

    ghost predicate Valid() {
      Made() && Traceable(t)
    }

    /** The compiler resolved every ordered variable to the object it was made from. */
    ghost predicate Resolves()
      requires WellTyped(t)
    {
      forall j: nat :: j < |order| && order[j] in Objects(t) ==> ResolvesToSource(t, AppendOf(this, j))
    }
  }

  /** The append that made the j-th ordered object. */
  function AppendOf(r: Runs, j: nat): (i: nat)
    requires j < |r.order| && r.order[j] in Objects(r.t)
    ensures i < |r.t.appends| && r.t.appends[i].obj == r.order[j]
  {
    IndexOf(Objects(r.t), r.order[j])
  }

  lemma OrderedObject(r: Runs, j: nat)
    requires r.Valid() && j < |r.order|
    ensures r.order[j] in r.heap && r.order[j] in Objects(r.t)
    ensures var i := AppendOf(r, j); var a := r.t.appends[i];
            && r.heap[r.order[j]].kind == r.t.kinds[a.obj]
            && r.heap[r.order[j]].prev == LastNode(r.t, i, a.tracer)
            && HeapAfter(r.t, |r.t.appends|)[r.order[j]].pid == Tracer(a.tracer)
            && StreamOf(r.heap, r.order[j]) < r.width
    ensures |r.direct| == |r.t.appends| && |r.compiled| == |r.order|
    ensures r.compiled[j].stream == StreamOf(r.heap, r.order[j])
    ensures r.direct[AppendOf(r, j)].stream == r.t.appends[AppendOf(r, j)].tracer
  {
    var n := |r.t.appends|;
    HeapHasOnlyAppended(r.t, n, r.order[j]);
    HeapHolds(r.t, n, AppendOf(r, j));
    CompiledAt(r.heap, Variables(r.t, n, 0), r.order, |r.order|, r.arguments, r.defaults, j);
    DirectAt(r.t, n, r.arguments, r.calls, AppendOf(r, j));
  }

  lemma SameStream(r: Runs, i: nat, j: nat)
    requires r.Valid() && i < |r.order| && j < |r.order|
    ensures r.order[i] in Objects(r.t) && r.order[j] in Objects(r.t)
    ensures StreamOf(r.heap, r.order[i]) == StreamOf(r.heap, r.order[j]) <==>
            r.t.appends[AppendOf(r, i)].tracer == r.t.appends[AppendOf(r, j)].tracer
  {
    OrderedObject(r, i);
    OrderedObject(r, j);
  }

  /** The append that an ordered object is linked to is ordered before it. */
  lemma LinkIsOrdered(r: Runs, j: nat) returns (p: nat, k: nat)
    requires r.Valid() && j < |r.order| && r.order[j] in Objects(r.t)
    requires LastIndex(r.t, AppendOf(r, j), r.t.appends[AppendOf(r, j)].tracer).Some?
    ensures Some(p) == LastIndex(r.t, AppendOf(r, j), r.t.appends[AppendOf(r, j)].tracer)
    ensures k < j && r.order[k] in Objects(r.t) && AppendOf(r, k) == p && r.order[k] == r.t.appends[p].obj
  {
    OrderedObject(r, j);
    p := LastIndex(r.t, AppendOf(r, j), r.t.appends[AppendOf(r, j)].tracer).value;
    assert Comes(r.order, r.heap[r.order[j]].prev, j);
    k := IndexOf(r.order[..j], r.t.appends[p].obj);
    OrderedObject(r, k);
    assert Objects(r.t)[AppendOf(r, k)] == Objects(r.t)[p];
  }

  /** Everything a tracer appended before an ordered object is ordered before it. */
  lemma {:induction false} ChainIsOrdered(r: Runs, a: nat, j: nat)
    returns (k: nat)
    requires r.Valid() && j < |r.order| && r.order[j] in Objects(r.t)
    requires a < AppendOf(r, j) && r.t.appends[a].tracer == r.t.appends[AppendOf(r, j)].tracer
    ensures k < j && r.order[k] == r.t.appends[a].obj
    decreases j
  {
    var p;
    p, k := LinkIsOrdered(r, j);
    if p != a {
      k := ChainIsOrdered(r, a, k);
    }
  }

  lemma OrderFollowsAppends(r: Runs, k: nat, j: nat)
    requires r.Valid() && k < j < |r.order|
    requires r.order[j] in Objects(r.t) && r.order[k] in Objects(r.t)
    requires r.t.appends[AppendOf(r, k)].tracer == r.t.appends[AppendOf(r, j)].tracer
    ensures AppendOf(r, k) < AppendOf(r, j)
  {
    assert r.order[k] != r.order[j];
    if AppendOf(r, j) < AppendOf(r, k) {
      var j' := ChainIsOrdered(r, AppendOf(r, j), k);
    }
  }

  /** The previous object of the chain is the last one ordered before on the same stream. */
  lemma PreviousOnStream(r: Runs, j: nat)
    returns (p: Option<nat>, q: nat)
    requires r.Valid() && j < |r.order| && r.order[j] in Objects(r.t)
    ensures p == LastIndex(r.t, AppendOf(r, j), r.t.appends[AppendOf(r, j)].tracer)
    ensures p.Some? ==> q < j && r.order[q] in Objects(r.t) && AppendOf(r, q) == p.value
    ensures |r.compiled| == |r.order|
    ensures forall k :: (if p.Some? then q + 1 else 0) <= k < j ==> r.compiled[k].stream != r.compiled[j].stream
  {
    OrderedObject(r, j);
    var b := AppendOf(r, j);
    p, q := LastIndex(r.t, b, r.t.appends[b].tracer), 0;
    if p.Some? {
      q := ChainIsOrdered(r, p.value, j);
      OrderedObject(r, q);
      assert Objects(r.t)[AppendOf(r, q)] == Objects(r.t)[p.value];
    }
    forall k: nat | (if p.Some? then q + 1 else 0) <= k < j
      ensures r.compiled[k].stream != r.compiled[j].stream
    {
      OrderedObject(r, k);
      SameStream(r, k, j);
      if r.compiled[k].stream == r.compiled[j].stream {
        OrderFollowsAppends(r, k, j);
        OrderFollowsAppends(r, q, k);
      }
    }
  }

  function KindOf(r: Runs, j: nat): Kind
    requires j < |r.order| && WellTyped(r.t) && r.order[j] in Objects(r.t)
  {
    r.t.kinds[r.t.appends[AppendOf(r, j)].obj]
  }

  /** The function call that appended the j-th ordered object. */
  function CallOf(r: Runs, j: nat): nat
    requires j < |r.order| && r.order[j] in Objects(r.t)
  {
    r.t.appends[AppendOf(r, j)].tracer
  }

  /** One object is submitted as the same operation in both programs, but for where a read looks and
      for the defaults of a generation. */
  lemma SameOperation(r: Runs, j: nat)
    requires r.Valid() && j < |r.order| && r.order[j] in Objects(r.t)
    ensures |r.direct| == |r.t.appends| && |r.compiled| == |r.order|
    ensures var c, d := r.compiled[j].op, r.direct[AppendOf(r, j)].op;
            match KindOf(r, j)
            case Variable(name, _) => c.Read? && d.Read? && c.name == d.name == name
            case Gen(key, o) =>
              && c == Op.Gen(key, ResolveParams(r.defaults, o))
              && d == Op.Gen(key, ResolveParams(r.calls(CallOf(r, j)), o))
            case Select(key, choices) => c == d == Op.Select(key, choices)
            case _ => c == d && c.Text?
    ensures Defines(r.compiled[j].op) == KeyOf(KindOf(r, j)) == Defines(r.direct[AppendOf(r, j)].op)
  {
    OrderedObject(r, j);
    CompiledAt(r.heap, Variables(r.t, |r.t.appends|, 0), r.order, |r.order|, r.arguments, r.defaults, j);
    DirectAt(r.t, |r.t.appends|, r.arguments, r.calls, AppendOf(r, j));
  }

  lemma DirectDefinition(r: Runs, d: nat, name: string)
    requires r.Valid() && d < |r.t.appends| && Named(r.t, d, r.t.appends[d].tracer, name)
    requires forall d': nat :: Named(r.t, d', r.t.appends[d].tracer, name) ==> d' == d
    ensures SoleDefinition(r.direct, d, r.t.appends[d].tracer, name)
  {
    DirectAt(r.t, |r.t.appends|, r.arguments, r.calls, d);
    forall i: nat | IsDefinition(r.direct, i, r.t.appends[d].tracer, name)
      ensures i == d
    {
      DirectAt(r.t, |r.t.appends|, r.arguments, r.calls, i);
      assert Named(r.t, i, r.t.appends[d].tracer, name);
    }
  }

  lemma CompiledDefinition(r: Runs, jd: nat, name: string)
    requires r.Valid() && jd < |r.order| && r.order[jd] in Objects(r.t)
    requires Named(r.t, AppendOf(r, jd), r.t.appends[AppendOf(r, jd)].tracer, name)
    requires forall d': nat :: Named(r.t, d', r.t.appends[AppendOf(r, jd)].tracer, name) ==> d' == AppendOf(r, jd)
    ensures |r.compiled| == |r.order|
    ensures SoleDefinition(r.compiled, jd, r.compiled[jd].stream, name)
  {
    OrderedObject(r, jd);
    SameOperation(r, jd);
    forall k: nat | IsDefinition(r.compiled, k, r.compiled[jd].stream, name)
      ensures k == jd
    {
      OrderedObject(r, k);
      SameOperation(r, k);
      SameStream(r, k, jd);
      assert Named(r.t, AppendOf(r, k), r.t.appends[AppendOf(r, jd)].tracer, name);
    }
  }

  lemma ReadInDirect(r: Runs, i: nat, d: nat)
    requires r.Valid() && i < |r.t.appends| && ServedBy(r.t, i, d)
    ensures |r.direct| == |r.t.appends|
    ensures var name := r.t.kinds[r.t.appends[i].obj].name;
            && r.direct[i].op == Read(r.t.appends[d].tracer, name, false)
            && r.direct[d].stream == r.t.appends[d].tracer
            && SoleDefinition(r.direct, d, r.t.appends[d].tracer, name)
  {
    DirectAt(r.t, |r.t.appends|, r.arguments, r.calls, i);
    DirectAt(r.t, |r.t.appends|, r.arguments, r.calls, d);
    DirectDefinition(r, d, r.t.kinds[r.t.appends[i].obj].name);
    TracerOfAppend(r.t, i, d);
  }

  lemma ReadInCompiled(r: Runs, j: nat, d: nat)
    returns (jd: nat)
    requires r.Valid() && j < |r.order| && r.order[j] in Objects(r.t)
    requires ServedBy(r.t, AppendOf(r, j), d) && ResolvesToSource(r.t, AppendOf(r, j))
    ensures |r.compiled| == |r.order|
    ensures jd < j && r.order[jd] in Objects(r.t) && AppendOf(r, jd) == d
    ensures r.order[j] in r.heap
    ensures SourceOf(r.heap, Variables(r.t, |r.t.appends|, 0), r.order[j]) == Some(r.order[jd])
    ensures var name := r.t.kinds[r.order[j]].name;
            && r.compiled[j].op == Read(r.compiled[jd].stream, name, true)
            && SoleDefinition(r.compiled, jd, r.compiled[jd].stream, name)
  {
    var variables := Variables(r.t, |r.t.appends|, 0);
    OrderedObject(r, j);
    CompiledAt(r.heap, variables, r.order, |r.order|, r.arguments, r.defaults, j);
    var kind := r.t.kinds[r.order[j]];
    assert Comes(r.order, SourceOf(r.heap, variables, r.order[j]), j);
    jd := IndexOf(r.order[..j], kind.source);
    OrderedObject(r, jd);
    assert Objects(r.t)[AppendOf(r, jd)] == Objects(r.t)[d];
    CompiledDefinition(r, jd, kind.name);
  }

  /** A read finds, in both programs, the executor of the one object that defines the variable,
      and that object comes earlier in both. */
  lemma ReadOfObject(r: Runs, j: nat) returns (jd: nat)
    requires r.Valid() && j < |r.order| && r.order[j] in Objects(r.t)
    requires KindOf(r, j).Variable? && ResolvesToSource(r.t, AppendOf(r, j))
    ensures |r.direct| == |r.t.appends| && |r.compiled| == |r.order|
    ensures r.compiled[j].op.Read? && r.direct[AppendOf(r, j)].op.Read?
    ensures jd < j && r.order[jd] in Objects(r.t) && AppendOf(r, jd) < AppendOf(r, j)
    ensures r.order[j] in r.heap
    ensures SourceOf(r.heap, Variables(r.t, |r.t.appends|, 0), r.order[j]) == Some(r.order[jd])
    ensures var c, d := r.compiled[j].op, r.direct[AppendOf(r, j)].op;
            && c.source == r.compiled[jd].stream && SoleDefinition(r.compiled, jd, c.source, c.name)
            && d.source == r.direct[AppendOf(r, jd)].stream
            && SoleDefinition(r.direct, AppendOf(r, jd), d.source, d.name)
  {
    assert VariableIsServed(r.t, AppendOf(r, j));
    var d: nat :| ServedBy(r.t, AppendOf(r, j), d);
    ReadInDirect(r, AppendOf(r, j), d);
    jd := ReadInCompiled(r, j, d);
  }

  // ----- the two runs object by object -----

  /** The submissions of the j-th ordered object have their places and streams in both runs. */
  predicate Placed(r: Runs, j: nat) {
    && j < |r.order| == |r.compiled| && r.order[j] in Objects(r.t) && |r.direct| == |r.t.appends|
    && r.compiled[j].stream < r.width && r.direct[AppendOf(r, j)].stream < r.t.width
  }

  /** The executor of the j-th ordered object before it and after it, and what it contributes. */
  function CompiledBefore(c: Backends, r: Runs, j: nat): Exec
    requires Placed(r, j)
  {
    Unthreaded(c, r.compiled, r.width, j)[r.compiled[j].stream]
  }

  function DirectBefore(d: Backends, r: Runs, j: nat): Exec
    requires Placed(r, j)
  {
    Unthreaded(d, r.direct, r.t.width, AppendOf(r, j))[r.direct[AppendOf(r, j)].stream]
  }

  function CompiledOut(c: Backends, r: Runs, j: nat): string
    requires Placed(r, j)
  {
    OutputOf(c, r.compiled, r.width, j)
  }

  function DirectOut(d: Backends, r: Runs, j: nat): string
    requires Placed(r, j)
  {
    OutputOf(d, r.direct, r.t.width, AppendOf(r, j))
  }

  function CompiledAfter(c: Backends, r: Runs, j: nat): Exec
    requires Placed(r, j)
  {
    Apply(CompiledBefore(c, r, j), r.compiled[j].op, CompiledOut(c, r, j))
  }

  function DirectAfter(d: Backends, r: Runs, j: nat): Exec
    requires Placed(r, j)
  {
    Apply(DirectBefore(d, r, j), r.direct[AppendOf(r, j)].op, DirectOut(d, r, j))
  }

  /** A stream to which nothing was submitted is fresh; otherwise the last submission left it as it is. */
  lemma UntouchedIsFresh(b: Backends, program: seq<Submission>, width: nat, s: nat, n: nat)
    requires n <= |program| && s < width && forall k :: 0 <= k < n ==> program[k].stream != s
    ensures Unthreaded(b, program, width, n)[s] == FRESH
  {
    StreamIsIdle(b, program, width, s, 0, n);
  }

  lemma LastSubmissionLeaves(b: Backends, program: seq<Submission>, width: nat, p: nat, n: nat)
    requires p < n <= |program| && program[p].stream < width
    requires forall k :: p < k < n ==> program[k].stream != program[p].stream
    ensures Unthreaded(b, program, width, n)[program[p].stream] == AppliedAt(b, program, width, p)
  {
    var e := AppliedAt(b, program, width, p);
    SubmissionApplies(b, program, width, p);
    IdleSince(b, program, width, program[p].stream, p + 1, n, e);
  }

  /** What a stream is left with by submission p. */
  function AppliedAt(b: Backends, program: seq<Submission>, width: nat, p: nat): Exec
    requires p < |program| && program[p].stream < width
  {
    Apply(Unthreaded(b, program, width, p)[program[p].stream], program[p].op, OutputOf(b, program, width, p))
  }

  lemma IdleSince(b: Backends, program: seq<Submission>, width: nat, s: nat, i: nat, n: nat, e: Exec)
    requires s < width && i <= n <= |program| && Unthreaded(b, program, width, i)[s] == e
    requires forall k :: i <= k < n ==> program[k].stream != s
    ensures Unthreaded(b, program, width, n)[s] == e
  {
    StreamIsIdle(b, program, width, s, i, n);
  }

  lemma SubmissionApplies(b: Backends, program: seq<Submission>, width: nat, p: nat)
    requires p < |program| && program[p].stream < width
    ensures Unthreaded(b, program, width, p + 1)[program[p].stream] == AppliedAt(b, program, width, p)
  {
  }

  lemma CompiledIdle(c: Backends, r: Runs, j: nat, q: Option<nat>)
    requires Placed(r, j) && (q.Some? ==> q.value < j && r.compiled[q.value].stream == r.compiled[j].stream)
    requires forall k :: (if q.Some? then q.value + 1 else 0) <= k < j ==> r.compiled[k].stream != r.compiled[j].stream
    ensures q.None? ==> CompiledBefore(c, r, j) == FRESH
    ensures q.Some? && Placed(r, q.value) ==> CompiledBefore(c, r, j) == CompiledAfter(c, r, q.value)
  {
    if q.Some? {
      LastSubmissionLeaves(c, r.compiled, r.width, q.value, j);
    } else {
      UntouchedIsFresh(c, r.compiled, r.width, r.compiled[j].stream, j);
    }
  }

  lemma DirectIdle(d: Backends, r: Runs, j: nat, q: Option<nat>)
    requires Placed(r, j) && (q.Some? ==> Placed(r, q.value) && AppendOf(r, q.value) < AppendOf(r, j) &&
                                          r.direct[AppendOf(r, q.value)].stream == r.direct[AppendOf(r, j)].stream)
    requires forall k :: (if q.Some? then AppendOf(r, q.value) + 1 else 0) <= k < AppendOf(r, j) ==>
               r.direct[k].stream != r.direct[AppendOf(r, j)].stream
    ensures q.None? ==> DirectBefore(d, r, j) == FRESH
    ensures q.Some? ==> DirectBefore(d, r, j) == DirectAfter(d, r, q.value)
  {
    if q.Some? {
      LastSubmissionLeaves(d, r.direct, r.t.width, AppendOf(r, q.value), AppendOf(r, j));
    } else {
      UntouchedIsFresh(d, r.direct, r.t.width, r.direct[AppendOf(r, j)].stream, AppendOf(r, j));
    }
  }

  /** The previous object of the chain, with nothing on its stream between the two in either run. */
  lemma PreviousInBoth(r: Runs, j: nat) returns (q: Option<nat>)
    requires r.Valid() && j < |r.order|
    ensures Placed(r, j) && r.order[j] in r.heap
    ensures q.None? ==> r.heap[r.order[j]].prev == None
    ensures q.Some? ==>
              && q.value < j && Placed(r, q.value) && r.heap[r.order[j]].prev == Some(r.order[q.value])
              && r.compiled[q.value].stream == r.compiled[j].stream
              && AppendOf(r, q.value) < AppendOf(r, j) && CallOf(r, q.value) == CallOf(r, j)
              && r.direct[AppendOf(r, q.value)].stream == r.direct[AppendOf(r, j)].stream
    ensures forall k :: (if q.Some? then q.value + 1 else 0) <= k < j ==> r.compiled[k].stream != r.compiled[j].stream
    ensures forall k :: (if q.Some? then AppendOf(r, q.value) + 1 else 0) <= k < AppendOf(r, j) ==>
              r.direct[k].stream != r.direct[AppendOf(r, j)].stream
  {
    OrderedObject(r, j);
    var p, m := PreviousOnStream(r, j);
    if p.Some? {
      OrderedObject(r, m);
      SameStream(r, m, j);
    }
    q := if p.Some? then Some(m) else None;
    forall k: nat | (if p.Some? then p.value + 1 else 0) <= k < AppendOf(r, j)
      ensures r.direct[k].stream != r.direct[AppendOf(r, j)].stream
    {
      DirectAt(r.t, |r.t.appends|, r.arguments, r.calls, k);
    }
  }

  /** Before an object its executor is, in both runs, as the previous object of the chain left it. */
  lemma BeforeIsAfterPrevious(c: Backends, d: Backends, r: Runs, j: nat) returns (q: Option<nat>)
    requires r.Valid() && j < |r.order|
    ensures Placed(r, j) && r.order[j] in r.heap
    ensures q.None? ==> r.heap[r.order[j]].prev == None && CompiledBefore(c, r, j) == FRESH == DirectBefore(d, r, j)
    ensures q.Some? ==>
              && q.value < j && Placed(r, q.value) && r.heap[r.order[j]].prev == Some(r.order[q.value])
              && CompiledBefore(c, r, j) == CompiledAfter(c, r, q.value)
              && DirectBefore(d, r, j) == DirectAfter(d, r, q.value)
              && AppendOf(r, q.value) < AppendOf(r, j) && CallOf(r, q.value) == CallOf(r, j)
  {
    q := PreviousInBoth(r, j);
    CompiledIdle(c, r, j, q);
    DirectIdle(d, r, j, q);
  }

  /** What a read contributes is, in both runs, what the object it was made from contributed. */
  lemma ReadIsOutput(c: Backends, d: Backends, r: Runs, j: nat) returns (jd: nat)
    requires r.Valid() && j < |r.order| && r.order[j] in Objects(r.t)
    requires KindOf(r, j).Variable? && ResolvesToSource(r.t, AppendOf(r, j))
    ensures Placed(r, j) && jd < j && Placed(r, jd) && r.order[j] in r.heap
    ensures SourceOf(r.heap, Variables(r.t, |r.t.appends|, 0), r.order[j]) == Some(r.order[jd])
    ensures KeyOf(KindOf(r, jd)).Some?
    ensures CompiledOut(c, r, j) == CompiledOut(c, r, jd) && DirectOut(d, r, j) == DirectOut(d, r, jd)
  {
    OrderedObject(r, j);
    jd := ReadOfObject(r, j);
    OrderedObject(r, jd);
    SameOperation(r, jd);
    ReadIsKept(c, r.compiled, r.width, jd, j);
    ReadIsKept(d, r.direct, r.t.width, AppendOf(r, jd), AppendOf(r, j));
  }

  lemma ReadIsKept(b: Backends, program: seq<Submission>, width: nat, d: nat, j: nat)
    requires d < j < |program| && program[j].op.Read? && program[j].op.source == program[d].stream < width
    requires SoleDefinition(program, d, program[j].op.source, program[j].op.name)
    ensures OutputOf(b, program, width, j) == OutputOf(b, program, width, d)
  {
    VariableIsKept(b, program, width, d, program[j].op.source, program[j].op.name, j);
  }

  lemma LatestReadIsKept(b: Backends, program: seq<Submission>, width: nat, d: nat, j: nat)
    requires d < j < |program| && program[j].op.Read? && program[j].op.source == program[d].stream < width
    requires Defines(program[d].op) == Some(Some(program[j].op.name))
    requires forall m: nat :: d < m < j ==> !IsDefinition(program, m, program[d].stream, program[j].op.name)
    ensures OutputOf(b, program, width, j) == OutputOf(b, program, width, d)
  {
    LatestIsRead(b, program, width, d, j, program[j].op.name);
  }

  /** An ordered object that asks the model is answered the same in both runs, if asked after the same text. */
  ghost predicate AsksTheSame(b: Backend, d: Backends, r: Runs, j: nat)
    requires WellTyped(r.t) && j < |r.order| && r.order[j] in Objects(r.t)
  {
    match KindOf(r, j)
    case Gen(_, o) =>
      forall text: string ::
        b.generate(text, ResolveParams(r.defaults, o)) ==
        d(CallOf(r, j)).generate(text, ResolveParams(r.calls(CallOf(r, j)), o))
    case Select(_, choices) =>
      forall text: string :: b.select(text, choices) == d(CallOf(r, j)).select(text, choices)
    case _ => true
  }

  ghost predicate AllAskTheSame(b: Backend, d: Backends, r: Runs)
    requires WellTyped(r.t)
  {
    forall j: nat :: j < |r.order| && r.order[j] in Objects(r.t) ==> AsksTheSame(b, d, r, j)
  }

  /** After the same text, an object that reads nothing contributes the same. */
  lemma SameAnswer(b: Backend, d: Backends, r: Runs, j: nat)
    requires r.Valid() && j < |r.order| && Placed(r, j) && AsksTheSame(b, d, r, j) && !KindOf(r, j).Variable?
    requires CompiledBefore(Everywhere(b), r, j) == DirectBefore(d, r, j)
    ensures CompiledOut(Everywhere(b), r, j) == DirectOut(d, r, j)
  {
    OrderedObject(r, j);
    SameOperation(r, j);
  }

  lemma SameAfter(c: Backends, d: Backends, r: Runs, j: nat)
    requires r.Valid() && j < |r.order| && Placed(r, j)
    requires CompiledBefore(c, r, j) == DirectBefore(d, r, j) && CompiledOut(c, r, j) == DirectOut(d, r, j)
    ensures CompiledAfter(c, r, j) == DirectAfter(d, r, j)
  {
    SameOperation(r, j);
  }

  lemma {:induction false} ObjectsAgree(b: Backend, d: Backends, r: Runs, j: nat)
    requires r.Valid() && r.Resolves() && AllAskTheSame(b, d, r) && j < |r.order|
    ensures Placed(r, j)
    ensures CompiledBefore(Everywhere(b), r, j) == DirectBefore(d, r, j)
    ensures CompiledOut(Everywhere(b), r, j) == DirectOut(d, r, j)
    ensures CompiledAfter(Everywhere(b), r, j) == DirectAfter(d, r, j)
    decreases j
  {
    var q := BeforeIsAfterPrevious(Everywhere(b), d, r, j);
    if q.Some? {
      ObjectsAgree(b, d, r, q.value);
    }
    if KindOf(r, j).Variable? {
      var jd := ReadIsOutput(Everywhere(b), d, r, j);
      ObjectsAgree(b, d, r, jd);
    } else {
      assert AsksTheSame(b, d, r, j);
      SameAnswer(b, d, r, j);
    }
    SameAfter(Everywhere(b), d, r, j);
  }

  // ----- whole programs -----

  lemma DirectIsWellFormed(r: Runs)
    requires r.Valid()
    ensures WellFormed(r.direct, r.t.width)
  {
    var n := |r.t.appends|;
    DirectAt(r.t, n, r.arguments, r.calls, n);
    forall i: nat | i < n
      ensures r.direct[i].stream < r.t.width && ReadIsServed(r.direct, i)
    {
      DirectAt(r.t, n, r.arguments, r.calls, i);
      assert VariableIsServed(r.t, i);
      if r.t.kinds[r.t.appends[i].obj].Variable? {
        var d: nat :| ServedBy(r.t, i, d);
        ReadInDirect(r, i, d);
      }
    }
  }

  lemma CompiledIsWellFormed(r: Runs)
    requires r.Valid() && r.Resolves()
    ensures WellFormed(r.compiled, r.width)
  {
    CompiledAt(r.heap, Variables(r.t, |r.t.appends|, 0), r.order, |r.order|, r.arguments, r.defaults, |r.order|);
    forall j: nat | j < |r.order|
      ensures r.compiled[j].stream < r.width && ReadIsServed(r.compiled, j)
    {
      OrderedObject(r, j);
      SameOperation(r, j);
      if r.compiled[j].op.Read? {
        var jd := ReadOfObject(r, j);
      }
    }
  }

  /** The last append of the outermost function is ordered, and nothing follows it on its stream. */
  lemma LastOfStream(r: Runs, last: Id) returns (p: nat, j: nat)
    requires r.Valid()
    requires LastNode(r.t, |r.t.appends|, 0) == Some(last) && last in r.order
    ensures j < |r.order| == |r.compiled| && r.order[j] == last && last in Objects(r.t) && AppendOf(r, j) == p
    ensures |r.direct| == |r.t.appends| && r.direct[p].stream == 0
    ensures r.compiled[j].stream == StreamOf(r.heap, last) < r.width
    ensures forall k :: p < k < |r.direct| ==> r.direct[k].stream != 0
    ensures forall k :: j < k < |r.compiled| ==> r.compiled[k].stream != StreamOf(r.heap, last)
  {
    p, j := LastIndex(r.t, |r.t.appends|, 0).value, IndexOf(r.order, last);
    OrderedObject(r, j);
    assert Objects(r.t)[AppendOf(r, j)] == Objects(r.t)[p];
    forall k: nat | p < k < |r.direct|
      ensures r.direct[k].stream != 0
    {
      DirectAt(r.t, |r.t.appends|, r.arguments, r.calls, k);
    }
    forall k: nat | j < k < |r.order|
      ensures r.compiled[k].stream != StreamOf(r.heap, last)
    {
      OrderedObject(r, k);
      SameStream(r, j, k);
      if r.compiled[k].stream == StreamOf(r.heap, last) {
        OrderFollowsAppends(r, j, k);
      }
    }
  }

  /** What the two runs return: the executor of the last node, and that of the outermost call. */
  function CompiledResult(c: Backends, r: Runs, last: Id): Exec
    requires StreamOf(r.heap, last) < r.width
  {
    Unthreaded(c, r.compiled, r.width, |r.compiled|)[StreamOf(r.heap, last)]
  }

  function DirectResult(d: Backends, r: Runs): Exec
    requires 0 < r.t.width
  {
    Unthreaded(d, r.direct, r.t.width, |r.direct|)[0]
  }

  /** They are what the last node leaves. */
  lemma ResultsAreAfterLast(c: Backends, d: Backends, r: Runs, last: Id) returns (j: nat)
    requires r.Valid()
    requires LastNode(r.t, |r.t.appends|, 0) == Some(last) && last in r.order
    ensures 0 < r.t.width && StreamOf(r.heap, last) < r.width
    ensures Placed(r, j) && r.order[j] == last
    ensures CompiledResult(c, r, last) == CompiledAfter(c, r, j) && DirectResult(d, r) == DirectAfter(d, r, j)
  {
    var p;
    p, j := LastOfStream(r, last);
    OrderedObject(r, j);
    LastSubmissionLeaves(c, r.compiled, r.width, j, |r.compiled|);
    LastSubmissionLeaves(d, r.direct, r.t.width, p, |r.direct|);
  }

  /** When every ordered object asks the same, the unthreaded compiled run leaves the stream of the last
      node as direct interpretation leaves the outermost stream: same text, same variables, although the
      objects of other calls that the last node does not depend on are never submitted. */
  lemma CompilationPreservesMeaning(b: Backend, d: Backends, r: Runs, last: Id)
    requires r.Valid() && r.Resolves()
    requires LastNode(r.t, |r.t.appends|, 0) == Some(last) && last in r.order
    ensures 0 < r.t.width && StreamOf(r.heap, last) < r.width
    ensures AllAskTheSame(b, d, r) ==> CompiledResult(Everywhere(b), r, last) == DirectResult(d, r)
  {
    var j := ResultsAreAfterLast(Everywhere(b), d, r, last);
    if AllAskTheSame(b, d, r) {
      ObjectsAgree(b, d, r, j);
    }
  }

  /** Across threads: whatever the schedules of the two runs, neither reads a missing variable, and once
      both have finished, the executors they return are those of the unthreaded runs, hence equal if
      every ordered object asks the same. */
  lemma ThreadedRunsAgree(b: Backend, d: Backends, r: Runs, last: Id,
                          compiledSchedule: seq<Step>, directSchedule: seq<Step>)
    requires r.Valid() && r.Resolves()
    requires LastNode(r.t, |r.t.appends|, 0) == Some(last) && last in r.order
    requires Schedulable(Everywhere(b), r.compiled, Initial(r.width), compiledSchedule)
    requires Schedulable(d, r.direct, Initial(r.t.width), directSchedule)
    ensures var cst := After(Everywhere(b), r.compiled, Initial(r.width), compiledSchedule);
            var dst := After(d, r.direct, Initial(r.t.width), directSchedule);
            && !cst.crashed && !dst.crashed
            && 0 < |dst.workers| == r.t.width && StreamOf(r.heap, last) < |cst.workers| == r.width
            && (Finished(r.compiled, cst) && Finished(r.direct, dst) ==>
                  && cst.workers[StreamOf(r.heap, last)].exec == CompiledResult(Everywhere(b), r, last)
                  && dst.workers[0].exec == DirectResult(d, r)
                  && (AllAskTheSame(b, d, r) ==>
                        cst.workers[StreamOf(r.heap, last)].exec == dst.workers[0].exec))
  {
    CompiledIsWellFormed(r);
    DirectIsWellFormed(r);
    EveryScheduleAgrees(Everywhere(b), r.compiled, r.width, compiledSchedule);
    EveryScheduleAgrees(d, r.direct, r.t.width, directSchedule);
    CompilationPreservesMeaning(b, d, r, last);
  }

  /** A compiled run never blocks before every ordered object has been executed. */
  lemma CompiledRunsFinish(c: Backends, r: Runs, schedule: seq<Step>)
    requires r.Valid() && r.Resolves()
    requires Schedulable(c, r.compiled, Initial(r.width), schedule)
    ensures |schedule| <= 5 * |r.order|
    ensures Finished(r.compiled, After(c, r.compiled, Initial(r.width), schedule)) ||
            exists step :: Enabled(r.compiled, After(c, r.compiled, Initial(r.width), schedule), step)
  {
    CompiledIsWellFormed(r);
    EveryScheduleEnds(c, r.compiled, r.width, schedule);
    CompiledAt(r.heap, Variables(r.t, |r.t.appends|, 0), r.order, |r.order|, r.arguments, r.defaults, 0);
    if !Finished(r.compiled, After(c, r.compiled, Initial(r.width), schedule)) {
      NoDeadlock(c, r.compiled, r.width, schedule);
    }
  }
}
