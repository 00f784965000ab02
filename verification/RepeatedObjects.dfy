/** Objects that are appended more than once: each append overwrites the link and the label of the one
    before. */
module RepeatedObjects {
  import opened Prelude
  import opened Ir
  import opened FixedLengthModels
  import opened Tracing
  import opened Network
  import opened CompiledMeaning
  import opened CompiledProofs
  import opened Compiler

  // ----- an object appended twice -----

  /** A trace of one function that calls no other. */
  ghost predicate SingleCall(t: Trace) {
    && WellTyped(t) && t.appends != []
    && forall i: nat :: i < |t.appends| ==>
         t.appends[i].tracer == 0 && VariableIsServed(t, i) && ResolvesToSource(t, i)
  }

  /** Where an object was appended last among the first n appends. */
  function LastAppend(t: Trace, n: nat, id: Id): (q: nat)
    requires n <= |t.appends| && exists i :: 0 <= i < n && t.appends[i].obj == id
    ensures q < n && t.appends[q].obj == id && forall i :: q < i < n ==> t.appends[i].obj != id
  {
    if t.appends[n - 1].obj == id then n - 1 else LastAppend(t, n - 1, id)
  }

  /** The link of an object is the one its last append gave it. */
  lemma {:induction false} HeapHoldsLast(t: Trace, n: nat, id: Id)
    requires WellTyped(t) && n <= |t.appends| && exists i :: 0 <= i < n && t.appends[i].obj == id
    ensures var a := t.appends[LastAppend(t, n, id)];
            id in HeapAfter(t, n) &&
            HeapAfter(t, n)[id] ==
            IrNode(t.kinds[id], LastNode(t, LastAppend(t, n, id), a.tracer),
                   if a.labelled then Tracer(a.tracer) else Unset)
  {
    if t.appends[n - 1].obj != id {
      HeapHoldsLast(t, n - 1, id);
    }
  }

  /** From a repeated object on, the links never end. */
  lemma {:induction false} NotGrounded(t: Trace, i: nat, j: nat, k: nat, m: nat)
    requires SingleCall(t) && i < j < |t.appends| && t.appends[i].obj == t.appends[j].obj
    requires i <= k < |t.appends|
    ensures !Grounded(HeapAfter(t, |t.appends|), Variables(t, |t.appends|, 0), t.appends[k].obj, m)
    decreases m
  {
    if m > 0 {
      var n := |t.appends|;
      var id := t.appends[k].obj;
      var q := LastAppend(t, n, id);
      HeapHoldsLast(t, n, id);
      assert i < q by {
        if k == i {
          assert t.appends[j].obj == id;
        }
      }
      assert LastNode(t, q, 0) == Some(t.appends[q - 1].obj);
      NotGrounded(t, i, j, q - 1, m - 1);
    }
  }

  lemma {:induction false} DistinctIsGrounded(t: Trace, i: nat)
    requires SingleCall(t) && Distinct(Objects(t)) && i < |t.appends|
    ensures Grounded(HeapAfter(t, |t.appends|), Variables(t, |t.appends|, 0), t.appends[i].obj, i + 1)
  {
    var n := |t.appends|;
    var heap, variables := HeapAfter(t, n), Variables(t, n, 0);
    HeapHolds(t, n, i);
    assert VariableIsServed(t, i) && ResolvesToSource(t, i);
    if i > 0 {
      assert LastNode(t, i, 0) == Some(t.appends[i - 1].obj);
      DistinctIsGrounded(t, i - 1);
    }
    if t.kinds[t.appends[i].obj].Variable? {
      var d: nat :| ServedBy(t, i, d);
      DistinctIsGrounded(t, d);
      GroundedMore(heap, variables, t.appends[d].obj, d + 1, i);
    }
  }

  /** The compiler lists the last node of such a function exactly when no object was appended twice;
      an argument that is used twice is such an object. */
  lemma LastIsListedIffNothingRepeats(t: Trace)
    requires SingleCall(t)
    ensures var n := |t.appends|;
            IsGrounded(HeapAfter(t, n), Variables(t, n, 0), t.appends[n - 1].obj) <==> Distinct(Objects(t))
  {
    var n := |t.appends|;
    var heap, variables, last := HeapAfter(t, n), Variables(t, n, 0), t.appends[n - 1].obj;
    if Distinct(Objects(t)) {
      DistinctIsGrounded(t, n - 1);
      assert IsGrounded(heap, variables, last);
    } else {
      var i, j :| 0 <= i < j < n && Objects(t)[i] == Objects(t)[j];
      forall m: nat
        ensures !Grounded(heap, variables, last, m)
      {
        NotGrounded(t, i, j, n - 1, m);
      }
    }
  }

  // ----- calls that share objects -----

  predicate Appended(t: Trace, n: nat, id: Id)
    requires n <= |t.appends|
  {
    exists i :: 0 <= i < n && t.appends[i].obj == id
  }

  predicate IsLastAppend(t: Trace, i: nat)
    requires i < |t.appends|
  {
    forall k :: i < k < |t.appends| ==> t.appends[k].obj != t.appends[i].obj
  }

  /** Append i of the outermost call is lost: it is role text, or its object was appended again later, by
      whatever call, or the last node does not depend on it any more. */
  predicate Lost(r: Runs, i: nat)
    requires i < |r.t.appends|
  {
    var a := r.t.appends[i];
    a.tracer == 0 && (!a.labelled || !IsLastAppend(r.t, i) || a.obj !in r.order)
  }

  /** What the appends of the outermost call among the first n cost, all of them or those not lost. */
  function AllCost(r: Runs, n: nat): nat
    requires n <= |r.t.appends| == |r.direct|
  {
    if n == 0 then 0
    else AllCost(r, n - 1) + if r.t.appends[n - 1].tracer == 0 then Cost(1, r.direct[n - 1].op) else 0
  }

  function KeptCost(r: Runs, n: nat): nat
    requires n <= |r.t.appends| == |r.direct|
  {
    if n == 0 then 0
    else
      KeptCost(r, n - 1) +
      if r.t.appends[n - 1].tracer == 0 && !Lost(r, n - 1) then Cost(1, r.direct[n - 1].op) else 0
  }

  lemma {:induction false} LostCosts(r: Runs, n: nat, i: nat)
    requires i < |r.t.appends| && n <= |r.t.appends| == |r.direct| && Lost(r, i)
    ensures KeptCost(r, n) + (if i < n then Cost(1, r.direct[i].op) else 0) <= AllCost(r, n)
  {
    if n > 0 {
      LostCosts(r, n - 1, i);
    }
  }

  /** The direct run pays for every append of the outermost call. */
  lemma DirectCosts(r: Runs, i: nat)
    requires r.Made() && i < |r.t.appends|
    ensures |r.direct| == |r.t.appends| && r.direct[i].stream == r.t.appends[i].tracer < r.t.width
    ensures |OutputOf(TERSE, r.direct, r.t.width, i)| == Cost(1, r.direct[i].op)
    ensures !Silent(r.t.kinds[r.t.appends[i].obj], r.arguments) ==> Cost(1, r.direct[i].op) > 0
  {
    DirectAt(r.t, |r.t.appends|, r.arguments, r.calls, i);
    OutputCosts(1, TERSE, r.direct, r.t.width, i);
    var kind := r.t.kinds[r.t.appends[i].obj];
    if kind.Variable? {
      DirectReadCosts(r, i);
    }
  }

  lemma DirectReadCosts(r: Runs, i: nat)
    requires r.Made() && i < |r.t.appends| && r.t.kinds[r.t.appends[i].obj].Variable?
    ensures |r.direct| == |r.t.appends| && r.direct[i].stream < r.t.width
    ensures |OutputOf(TERSE, r.direct, r.t.width, i)| == 1
  {
    DirectAt(r.t, |r.t.appends|, r.arguments, r.calls, i);
    assert VariableIsServed(r.t, i);
    var d: nat :| ServedBy(r.t, i, d);
    var k := TracerAppended(r.t, i, r.t.kinds[r.t.appends[i].obj].source);
    DirectAt(r.t, |r.t.appends|, r.arguments, r.calls, k);
    ReadCosts(1, TERSE, r.direct, r.t.width, k, i);
  }

  /** Where the tracer that `TracerOf` names made its append. */
  lemma {:induction false} TracerAppended(t: Trace, n: nat, id: Id) returns (k: nat)
    requires n <= |t.appends| && Appended(t, n, id)
    ensures k < n && t.appends[k].obj == id && TracerOf(t, n, id) == t.appends[k].tracer
  {
    if t.appends[n - 1].obj == id {
      k := n - 1;
    } else {
      k := TracerAppended(t, n - 1, id);
    }
  }

  predicate Paid(r: Runs, i: nat)
    requires i < |r.t.appends| == |r.direct|
  {
    && r.direct[i].stream == r.t.appends[i].tracer < r.t.width
    && |OutputOf(TERSE, r.direct, r.t.width, i)| == Cost(1, r.direct[i].op)
  }

  predicate PaidUpTo(r: Runs, n: nat)
    requires n <= |r.t.appends| == |r.direct| && 0 < r.t.width
  {
    |Unthreaded(TERSE, r.direct, r.t.width, n)[0].text| == AllCost(r, n)
  }

  lemma PaidStep(r: Runs, n: nat)
    requires n < |r.t.appends| == |r.direct| && 0 < r.t.width && Paid(r, n) && PaidUpTo(r, n)
    ensures PaidUpTo(r, n + 1)
  {
    LengthGrows(TERSE, r.direct, r.t.width, n, 0);
  }

  lemma DirectLength(r: Runs, n: nat)
    requires n <= |r.t.appends| == |r.direct| && 0 < r.t.width
    requires forall i: nat :: i < |r.t.appends| ==> Paid(r, i)
    ensures PaidUpTo(r, n)
  {
    for i := 0 to n
      invariant PaidUpTo(r, i)
    {
      PaidStep(r, i);
    }
  }

  /** What the first m ordered objects on the stream of the last node cost, if they were last appended
      among the first n appends. */
  function PartCost(r: Runs, stream: nat, m: nat, n: nat): nat
    requires m <= |r.order| == |r.compiled| && n <= |r.t.appends|
  {
    if m == 0 then 0
    else PartCost(r, stream, m - 1, n) + if Counts(r, stream, m - 1, n) then Cost(1, r.compiled[m - 1].op) else 0
  }

  predicate Counts(r: Runs, stream: nat, j: nat, n: nat)
    requires j < |r.order| == |r.compiled| && n <= |r.t.appends|
  {
    var t := r.t;
    r.compiled[j].stream == stream && Appended(t, |t.appends|, r.order[j]) &&
    LastAppend(t, |t.appends|, r.order[j]) < n
  }

  /** An ordered object costs what its last append costs in the direct run, and is on the given stream
      if the outermost call made that append with its label. */
  predicate Charged(r: Runs, stream: nat, j: nat)
    requires j < |r.order| == |r.compiled| && |r.direct| == |r.t.appends|
  {
    Appended(r.t, |r.t.appends|, r.order[j]) &&
    var i := LastAppend(r.t, |r.t.appends|, r.order[j]);
    && Cost(1, r.compiled[j].op) == Cost(1, r.direct[i].op) && IsLastAppend(r.t, i)
    && (r.compiled[j].stream == stream <==> r.t.appends[i].tracer == 0 && r.t.appends[i].labelled)
    && r.compiled[j].stream < r.width
  }

  /** Where an ordered object was appended last, and what it is submitted as in the two runs. */
  lemma LastAppendSubmits(r: Runs, j: nat) returns (i: nat)
    requires r.Made() && j < |r.order|
    ensures |r.order| == |r.compiled| && |r.direct| == |r.t.appends|
    ensures Appended(r.t, |r.t.appends|, r.order[j]) && i == LastAppend(r.t, |r.t.appends|, r.order[j])
    ensures IsLastAppend(r.t, i) && Cost(1, r.compiled[j].op) == Cost(1, r.direct[i].op)
    ensures r.order[j] in r.heap && r.compiled[j].stream == StreamOf(r.heap, r.order[j]) < r.width
    ensures r.order[j] in HeapAfter(r.t, |r.t.appends|)
    ensures HeapAfter(r.t, |r.t.appends|)[r.order[j]].pid ==
            if r.t.appends[i].labelled then Tracer(r.t.appends[i].tracer) else Unset
  {
    var n := |r.t.appends|;
    HeapHasOnlyAppended(r.t, n, r.order[j]);
    var k := IndexOf(Objects(r.t), r.order[j]);
    assert r.t.appends[k].obj == r.order[j];
    i := LastAppend(r.t, n, r.order[j]);
    HeapHoldsLast(r.t, n, r.order[j]);
    DirectAt(r.t, n, r.arguments, r.calls, i);
    CompiledAt(r.heap, Variables(r.t, n, 0), r.order, |r.order|, r.arguments, r.defaults, j);
    RelabelledAt(HeapAfter(r.t, n), r.heap, r.order, r.width, j, j);
  }

  lemma CompiledCosts(r: Runs, last: Id, j: nat)
    requires r.Made() && j < |r.order| && last in r.order
    requires last in HeapAfter(r.t, |r.t.appends|) && HeapAfter(r.t, |r.t.appends|)[last].pid == Tracer(0)
    ensures |r.order| == |r.compiled| && |r.direct| == |r.t.appends|
    ensures Charged(r, StreamOf(r.heap, last), j) && StreamOf(r.heap, last) < r.width
  {
    var i := LastAppendSubmits(r, j);
    var l := IndexOf(r.order, last);
    RelabelledAt(HeapAfter(r.t, |r.t.appends|), r.heap, r.order, r.width, j, l);
    RelabelledAt(HeapAfter(r.t, |r.t.appends|), r.heap, r.order, r.width, l, j);
  }

  ghost predicate AllCharged(r: Runs, stream: nat) {
    && |r.order| == |r.compiled| && |r.direct| == |r.t.appends| && stream < r.width && Distinct(r.order)
    && forall j: nat :: j < |r.order| ==> Charged(r, stream, j)
  }

  lemma AllAreCharged(r: Runs, last: Id)
    requires r.Made() && last in r.order && last in HeapAfter(r.t, |r.t.appends|)
    requires HeapAfter(r.t, |r.t.appends|)[last].pid == Tracer(0)
    ensures AllCharged(r, StreamOf(r.heap, last))
  {
    forall j: nat | j < |r.order|
      ensures |r.order| == |r.compiled| && |r.direct| == |r.t.appends|
      ensures Charged(r, StreamOf(r.heap, last), j) && StreamOf(r.heap, last) < r.width
    {
      CompiledCosts(r, last, j);
    }
    CompiledCosts(r, last, IndexOf(r.order, last));
  }

  predicate ChargedUpTo(r: Runs, stream: nat, m: nat)
    requires m <= |r.order| == |r.compiled| && stream < r.width
  {
    |Unthreaded(TERSE, r.compiled, r.width, m)[stream].text| <= PartCost(r, stream, m, |r.t.appends|)
  }

  lemma ChargedStep(r: Runs, stream: nat, m: nat)
    requires m < |r.order| == |r.compiled| && |r.direct| == |r.t.appends| && stream < r.width
    requires Charged(r, stream, m) && ChargedUpTo(r, stream, m)
    ensures ChargedUpTo(r, stream, m + 1)
  {
    LengthGrows(TERSE, r.compiled, r.width, m, stream);
    OutputCosts(1, TERSE, r.compiled, r.width, m);
  }

  lemma CompiledLength(r: Runs, stream: nat, m: nat)
    requires AllCharged(r, stream) && m <= |r.order|
    ensures ChargedUpTo(r, stream, m)
  {
    for j := 0 to m
      invariant ChargedUpTo(r, stream, j)
    {
      ChargedStep(r, stream, j);
    }
  }

  /** Extending the range of appends by one adds the cost of at most one ordered object. */
  lemma {:induction false} OneMoreAppend(r: Runs, stream: nat, m: nat, n: nat)
    requires AllCharged(r, stream) && m <= |r.order| && n < |r.t.appends|
    ensures PartCost(r, stream, m, n + 1) <= PartCost(r, stream, m, n) +
            if r.t.appends[n].tracer == 0 && r.t.appends[n].labelled && IsLastAppend(r.t, n) &&
               r.t.appends[n].obj in r.order[..m]
            then Cost(1, r.direct[n].op) else 0
  {
    if m > 0 {
      OneMoreAppend(r, stream, m - 1, n);
      assert Charged(r, stream, m - 1);
      assert r.order[..m] == r.order[..m - 1] + [r.order[m - 1]];
      assert r.order[m - 1] !in r.order[..m - 1];
    }
  }

  lemma {:induction false} PartIsKept(r: Runs, stream: nat, n: nat)
    requires AllCharged(r, stream) && n <= |r.t.appends|
    ensures PartCost(r, stream, |r.order|, n) <= KeptCost(r, n)
  {
    if n == 0 {
      NothingCounts(r, stream, |r.order|);
    } else {
      PartIsKept(r, stream, n - 1);
      OneMoreAppend(r, stream, |r.order|, n - 1);
      assert r.order[..|r.order|] == r.order;
    }
  }

  lemma {:induction false} NothingCounts(r: Runs, stream: nat, m: nat)
    requires m <= |r.order| == |r.compiled|
    ensures PartCost(r, stream, m, 0) == 0
  {
    if m > 0 {
      NothingCounts(r, stream, m - 1);
    }
  }

  /** Whatever calls a program makes: if an append of the outermost call that is not silent is lost, the
      compiler lists the last node, and that is no role text and no other call took it over, then a model
      that answers one letter gives a shorter text when the program is compiled. */
  lemma LostTextIsMissing(r: Runs, last: Id, i: nat)
    requires r.Made() && last in r.order && LastNode(r.t, |r.t.appends|, 0) == Some(last) && 0 < r.t.width
    requires HeapAfter(r.t, |r.t.appends|)[last].pid == Tracer(0)
    requires i < |r.t.appends| && Lost(r, i) && !Silent(r.t.kinds[r.t.appends[i].obj], r.arguments)
    ensures StreamOf(r.heap, last) < r.width
    ensures |CompiledResult(TERSE, r, last).text| < |DirectResult(TERSE, r).text|
  {
    var n := |r.t.appends|;
    forall k: nat | k < n
      ensures |r.direct| == n && Paid(r, k)
    {
      DirectCosts(r, k);
    }
    DirectCosts(r, i);
    DirectLength(r, n);
    AllAreCharged(r, last);
    CompiledLength(r, StreamOf(r.heap, last), |r.order|);
    PartIsKept(r, StreamOf(r.heap, last), n);
    LostCosts(r, n, i);
  }

  // ----- an argument passed on and used -----

  /** `s += "Q:"; s += q; r = g(q=q); s += r["a"]`, where g appends q and generates a. */
  const PASSED_ON: Trace := Trace(
    2,
    map[0 := Const("Q:"), 1 := Argument("q"), 2 := Kind.Gen(Some("a"), Overrides(None, None, map[])),
        3 := Kind.Variable("a", 2)],
    [Append(0, 0, true), Append(0, 1, true), Append(1, 1, true), Append(1, 2, true), Append(0, 3, true)])

  lemma PassedOnHeap()
    ensures WellTyped(PASSED_ON) && Variables(PASSED_ON, 5, 0) == map[] && LastNode(PASSED_ON, 5, 0) == Some(3)
    ensures HeapAfter(PASSED_ON, 5) ==
            map[0 := IrNode(Const("Q:"), None, Tracer(0)), 1 := IrNode(Argument("q"), None, Tracer(1)),
                2 := IrNode(PASSED_ON.kinds[2], Some(1), Tracer(1)),
                3 := IrNode(PASSED_ON.kinds[3], Some(1), Tracer(0))]
  {
    var heap2 := HeapAfter(PASSED_ON, 2);
    assert heap2 == map[0 := IrNode(Const("Q:"), None, Tracer(0)), 1 := IrNode(Argument("q"), Some(0), Tracer(0))];
    var heap4 := HeapAfter(PASSED_ON, 4);
    assert heap4 == map[0 := IrNode(Const("Q:"), None, Tracer(0)), 1 := IrNode(Argument("q"), None, Tracer(1)),
                        2 := IrNode(PASSED_ON.kinds[2], Some(1), Tracer(1))];
  }

  lemma LastOfPassedOnIsListed()
    ensures WellTyped(PASSED_ON) && IsGrounded(HeapAfter(PASSED_ON, 5), Variables(PASSED_ON, 5, 0), 3)
  {
    PassedOnHeap();
    var heap, variables := HeapAfter(PASSED_ON, 5), Variables(PASSED_ON, 5, 0);
    assert Grounded(heap, variables, 1, 1) && Grounded(heap, variables, 1, 2);
    assert Grounded(heap, variables, 2, 2);
    assert Grounded(heap, variables, 3, 3);
  }

  lemma QuestionIsOutOfReach()
    ensures WellTyped(PASSED_ON) && !Reachable(HeapAfter(PASSED_ON, 5), Variables(PASSED_ON, 5, 0), 3, 0)
  {
    PassedOnHeap();
    assert BackClosed(HeapAfter(PASSED_ON, 5), Variables(PASSED_ON, 5, 0), {1, 2, 3});
  }

  /** The last node is listed, so the function compiles; but what the outer function wrote before the
      call is out of reach, and lost for every order and every argument. */
  lemma PassingOnLosesText(r: Runs)
    requires r.t == PASSED_ON && r.Made() && 3 in r.order
    requires forall id :: id in r.order ==> Reachable(HeapAfter(PASSED_ON, 5), Variables(PASSED_ON, 5, 0), 3, id)
    ensures IsGrounded(HeapAfter(PASSED_ON, 5), Variables(PASSED_ON, 5, 0), 3)
    ensures StreamOf(r.heap, 3) < r.width && |CompiledResult(TERSE, r, 3).text| < |DirectResult(TERSE, r).text|
  {
    PassedOnHeap();
    LastOfPassedOnIsListed();
    QuestionIsOutOfReach();
    assert Lost(r, 0);
    LostTextIsMissing(r, 3, 0);
  }
}
