/** Programs that read variables by name. While tracing, an argument hides a variable of the same name; a
    direct run knows no arguments by name. Exactly when does that change the text? */
module NamedReads {
  import opened Prelude
  import opened Ir
  import opened Executor
  import opened Tracing
  import opened Tracer
  import opened Network
  import opened CompiledMeaning
  import opened CompiledProofs
  import opened CompiledSettings
  import opened Compiler
  import opened FixedLengthModels
  import opened HeavyModels

  // ----- programs, their traces and their direct runs -----

  /** `s += expression` in some call, or `s += t[name]`, which reads a variable of another call or of the
      same one. `obj` is for the node made of what is read. */
  datatype Statement =
    | Adds(call: nat, obj: Id)
    | AddsRead(call: nat, owner: nat, name: string, obj: Id)

  /** `given` says what every call was given under which names. */
  datatype Program = Program(width: nat, kinds: map<Id, Kind>, given: seq<map<string, Bound>>,
                             statements: seq<Statement>)

  predicate Sound(p: Program) {
    |p.given| == p.width &&
    forall i :: 0 <= i < |p.statements| ==>
      p.statements[i].call < p.width &&
      match p.statements[i]
      case Adds(_, obj) => obj in p.kinds && !p.kinds[obj].Variable?
      case AddsRead(_, owner, _, _) => owner < p.width
  }

  /** The append that tracing makes of a statement. Text that is read becomes a constant. */
  predicate IsTraced(p: Program, t: Trace, i: nat)
    requires Sound(p) && WellTyped(t) && i < |p.statements| == |t.appends|
  {
    var a := t.appends[i];
    a.labelled && a.tracer == p.statements[i].call &&
    match p.statements[i]
    case Adds(_, obj) => a.obj == obj && t.kinds[obj] == p.kinds[obj]
    case AddsRead(_, owner, name, obj) =>
      match ReadWhileTracing(p.given[owner], Variables(t, i, owner), name, obj)
      case Ok(Plain(text)) => a.obj == obj && t.kinds[obj] == Const(text)
      case Ok(Symbolic(Object(id, kind))) => a.obj == id && t.kinds[id] == kind
      case _ => false
  }

  ghost predicate TraceOf(p: Program, t: Trace) {
    Sound(p) && WellTyped(t) && t.width == p.width && |t.appends| == |p.statements| &&
    forall i: nat :: i < |p.statements| ==> IsTraced(p, t, i)
  }

  /** The statement generates the variable that this name stands for in this call. */
  predicate Provides(p: Program, m: nat, owner: nat, name: string)
    requires Sound(p)
  {
    m < |p.statements| && p.statements[m].Adds? && p.statements[m].call == owner &&
    KeyOf(p.kinds[p.statements[m].obj]) == Some(Some(name))
  }

  /** A direct run looks a name up among the variables only, and fails if there is none. */
  function OpByName(p: Program, i: nat, arguments: map<string, string>, calls: Calls): Result<Op>
    requires Sound(p) && i < |p.statements|
  {
    match p.statements[i]
    case Adds(call, obj) => OpOf(p.kinds[obj], 0, false, arguments, calls(call))
    case AddsRead(_, owner, name, _) =>
      if exists m: nat :: m < i && Provides(p, m, owner, name) then Ok(Read(owner, name, false))
      else Err(KeyError(name))
  }

  function DirectByName(p: Program, n: nat, arguments: map<string, string>, calls: Calls): Result<seq<Submission>>
    requires Sound(p) && n <= |p.statements|
  {
    if n == 0 then Ok([])
    else
      match DirectByName(p, n - 1, arguments, calls)
      case Err(e) => Err(e)
      case Ok(before) =>
        match OpByName(p, n - 1, arguments, calls)
        case Err(e) => Err(e)
        case Ok(op) => Ok(before + [Submission(p.statements[n - 1].call, op)])
  }

  /** The statement reads a name under which the call it reads from was given something. */
  predicate Hides(p: Program, i: nat)
    requires Sound(p) && i < |p.statements|
  {
    var s := p.statements[i];
    s.AddsRead? && s.name in p.given[s.owner] && p.given[s.owner][s.name] != Missing
  }

  /** What it finds then is text or an argument of the outermost function. */
  predicate FindsText(p: Program, i: nat)
    requires Sound(p) && i < |p.statements| && Hides(p, i)
  {
    var value := p.given[p.statements[i].owner][p.statements[i].name];
    value.Plain? || (value.Symbolic? && value.expr.Object? && value.expr.kind.Argument?)
  }

  ghost predicate HidesOnlyByText(p: Program) {
    Sound(p) && forall i: nat :: i < |p.statements| && Hides(p, i) ==> FindsText(p, i)
  }

  // ----- statement by statement -----

  lemma {:induction false} EntryIsAppended(t: Trace, n: nat, tracer: nat, name: string) returns (m: nat)
    requires WellTyped(t) && n <= |t.appends| && name in Variables(t, n, tracer)
    ensures m < n && t.appends[m].tracer == tracer && t.appends[m].obj == Variables(t, n, tracer)[name]
  {
    var a := t.appends[n - 1];
    if a.tracer == tracer && KeyOf(t.kinds[a.obj]).Some? && Variables(t, n, tracer)[name] == a.obj {
      m := n - 1;
    } else {
      m := EntryIsAppended(t, n - 1, tracer, name);
    }
  }

  /** What a statement that hides nothing makes of a name is the variable of that name, in the call it
      reads from. */
  lemma PlainRead(p: Program, t: Trace, i: nat) returns (d: nat)
    requires TraceOf(p, t) && Traceable(t) && HidesOnlyByText(p) && i < |p.statements|
    requires p.statements[i].AddsRead? && !Hides(p, i)
    ensures var s := p.statements[i];
            && ServedBy(t, i, d) && t.kinds[t.appends[i].obj] == Kind.Variable(s.name, t.appends[d].obj)
            && t.appends[d].tracer == s.owner && Provides(p, d, s.owner, s.name)
  {
    var s := p.statements[i];
    assert IsTraced(p, t, i) && VariableIsServed(t, i);
    d :| ServedBy(t, i, d);
    var m := EntryIsAppended(t, i, s.owner, s.name);
    assert Objects(t)[m] == Objects(t)[d];
    assert IsTraced(p, t, d);
    assert Hides(p, d) ==> FindsText(p, d);
  }

  lemma SameStatement(p: Program, t: Trace, i: nat, arguments: map<string, string>, calls: Calls)
    requires TraceOf(p, t) && Traceable(t) && HidesOnlyByText(p) && i < |p.statements|
    ensures Hides(p, i) ==>
              (var kind := t.kinds[t.appends[i].obj]; kind.Const? || kind.Argument?)
    ensures !Hides(p, i) ==> OpByName(p, i, arguments, calls) == DirectOp(t, i, arguments, calls)
  {
    assert IsTraced(p, t, i);
    if Hides(p, i) {
      assert FindsText(p, i);
    } else if p.statements[i].AddsRead? {
      var d := PlainRead(p, t, i);
      TracerOfAppend(t, i, d);
    }
  }

  lemma {:induction false} ByNameAt(p: Program, n: nat, arguments: map<string, string>, calls: Calls, i: nat)
    requires Sound(p) && n <= |p.statements| && DirectByName(p, n, arguments, calls).Ok?
    ensures |DirectByName(p, n, arguments, calls).value| == n
    ensures i < n ==>
              && OpByName(p, i, arguments, calls).Ok?
              && DirectByName(p, n, arguments, calls).value[i] ==
                 Submission(p.statements[i].call, OpByName(p, i, arguments, calls).value)
  {
    if n > 0 {
      ByNameAt(p, n - 1, arguments, calls, i);
    }
  }

  /** A run by name, beside the direct run of the trace. */
  ghost predicate RunByName(p: Program, r: Runs, named: seq<Submission>) {
    && r.Valid() && r.Resolves() && TraceOf(p, r.t) && HidesOnlyByText(p)
    && DirectByName(p, |p.statements|, r.arguments, r.calls) == Ok(named)
  }

  /** The two differ in the hidden reads only, which are text in one and reads in the other. */
  lemma SideBySide(p: Program, r: Runs, named: seq<Submission>, i: nat)
    requires RunByName(p, r, named) && i < |p.statements|
    ensures |named| == |p.statements| == |r.direct| == |r.t.appends|
    ensures named[i].stream == r.direct[i].stream == p.statements[i].call < r.t.width
    ensures !Hides(p, i) ==> named[i] == r.direct[i]
    ensures Hides(p, i) ==> r.direct[i].op.Text? && named[i].op.Read?
  {
    SameStatement(p, r.t, i, r.arguments, r.calls);
    assert IsTraced(p, r.t, i);
    ByNameAt(p, |p.statements|, r.arguments, r.calls, i);
    DirectAt(r.t, |r.t.appends|, r.arguments, r.calls, i);
  }

  lemma SameDefinitions(p: Program, r: Runs, named: seq<Submission>, i: nat, source: nat, name: string)
    requires RunByName(p, r, named)
    ensures IsDefinition(named, i, source, name) <==> IsDefinition(r.direct, i, source, name)
  {
    if i < |p.statements| {
      SideBySide(p, r, named, i);
    } else {
      ByNameAt(p, |p.statements|, r.arguments, r.calls, 0);
      DirectAt(r.t, |r.t.appends|, r.arguments, r.calls, 0);
    }
  }

  lemma SoleInBoth(p: Program, r: Runs, named: seq<Submission>, d: nat, source: nat, name: string)
    requires RunByName(p, r, named) && SoleDefinition(r.direct, d, source, name)
    ensures SoleDefinition(named, d, source, name)
  {
    forall i: nat
      ensures IsDefinition(named, i, source, name) <==> IsDefinition(r.direct, i, source, name)
    {
      SameDefinitions(p, r, named, i, source, name);
    }
  }

  // ----- the executors of the run by name -----

  /** The j-th ordered object has its place in the run by name, too. */
  predicate Beside(r: Runs, named: seq<Submission>, j: nat) {
    Placed(r, j) && |named| == |r.direct|
    && named[AppendOf(r, j)].stream == r.direct[AppendOf(r, j)].stream
  }

  function NamedBefore(d: Backends, r: Runs, named: seq<Submission>, j: nat): Exec
    requires Beside(r, named, j)
  {
    Unthreaded(d, named, r.t.width, AppendOf(r, j))[named[AppendOf(r, j)].stream]
  }

  function NamedOut(d: Backends, r: Runs, named: seq<Submission>, j: nat): string
    requires Beside(r, named, j)
  {
    OutputOf(d, named, r.t.width, AppendOf(r, j))
  }

  function NamedAfter(d: Backends, r: Runs, named: seq<Submission>, j: nat): Exec
    requires Beside(r, named, j)
  {
    Apply(NamedBefore(d, r, named, j), named[AppendOf(r, j)].op, NamedOut(d, r, named, j))
  }

  lemma IsBeside(p: Program, r: Runs, named: seq<Submission>, j: nat)
    requires RunByName(p, r, named) && j < |r.order|
    ensures Beside(r, named, j) && AppendOf(r, j) < |p.statements| == |named|
  {
    OrderedObject(r, j);
    SideBySide(p, r, named, AppendOf(r, j));
  }

  lemma NamedIdle(d: Backends, r: Runs, named: seq<Submission>, j: nat, q: Option<nat>)
    requires Beside(r, named, j) && (q.Some? ==> Beside(r, named, q.value))
    requires q.Some? ==> AppendOf(r, q.value) < AppendOf(r, j) &&
                         named[AppendOf(r, q.value)].stream == named[AppendOf(r, j)].stream
    requires forall k :: (if q.Some? then AppendOf(r, q.value) + 1 else 0) <= k < AppendOf(r, j) ==>
               named[k].stream != named[AppendOf(r, j)].stream
    ensures q.None? ==> NamedBefore(d, r, named, j) == FRESH
    ensures q.Some? ==> NamedBefore(d, r, named, j) == NamedAfter(d, r, named, q.value)
  {
    if q.Some? {
      LastSubmissionLeaves(d, named, r.t.width, AppendOf(r, q.value), AppendOf(r, j));
    } else {
      UntouchedIsFresh(d, named, r.t.width, named[AppendOf(r, j)].stream, AppendOf(r, j));
    }
  }

  /** Before an object its executor is as the previous object of the chain left it, by name, too. */
  lemma NamedAfterPrevious(d: Backends, p: Program, r: Runs, named: seq<Submission>, j: nat) returns (q: Option<nat>)
    requires RunByName(p, r, named) && j < |r.order|
    ensures Beside(r, named, j) && r.order[j] in r.heap
    ensures q.None? ==>
              && r.heap[r.order[j]].prev == None
              && NamedBefore(d, r, named, j) == FRESH == DirectBefore(d, r, j)
    ensures q.Some? ==>
              && q.value < j && Beside(r, named, q.value) && r.heap[r.order[j]].prev == Some(r.order[q.value])
              && NamedBefore(d, r, named, j) == NamedAfter(d, r, named, q.value)
              && DirectBefore(d, r, j) == DirectAfter(d, r, q.value)
  {
    IsBeside(p, r, named, j);
    q := PreviousInBoth(r, j);
    DirectIdle(d, r, j, q);
    if q.Some? {
      IsBeside(p, r, named, q.value);
    }
    forall k: nat | (if q.Some? then AppendOf(r, q.value) + 1 else 0) <= k < AppendOf(r, j)
      ensures named[k].stream != named[AppendOf(r, j)].stream
    {
      SideBySide(p, r, named, k);
    }
    NamedIdle(d, r, named, j, q);
  }

  /** What a read that is not hidden contributes is what the object it was made from contributed. */
  lemma NamedReadIsOutput(d: Backends, p: Program, r: Runs, named: seq<Submission>, j: nat) returns (jd: nat)
    requires RunByName(p, r, named) && j < |r.order| && Beside(r, named, j) && KindOf(r, j).Variable?
    requires !Hides(p, AppendOf(r, j))
    ensures jd < j && Beside(r, named, jd) && r.order[j] in r.heap
    ensures SourceOf(r.heap, Variables(r.t, |r.t.appends|, 0), r.order[j]) == Some(r.order[jd])
    ensures KeyOf(KindOf(r, jd)).Some?
    ensures NamedOut(d, r, named, j) == NamedOut(d, r, named, jd)
    ensures DirectOut(d, r, j) == DirectOut(d, r, jd)
  {
    assert ResolvesToSource(r.t, AppendOf(r, j));
    jd := ReadIsOutput(d, d, r, j);
    IsBeside(p, r, named, jd);
    var jd' := ReadOfObject(r, j);
    assert jd' == jd by { OnlyPlace(r.order, jd', jd); }
    SideBySide(p, r, named, AppendOf(r, j));
    var read := named[AppendOf(r, j)].op;
    SoleInBoth(p, r, named, AppendOf(r, jd), read.source, read.name);
    ReadIsKept(d, named, r.t.width, AppendOf(r, jd), AppendOf(r, j));
  }

  // ----- no hidden read is ordered: the runs agree -----

  /** No read that the last node depends on is hidden. */
  ghost predicate OrdersNoHidden(p: Program, r: Runs) {
    Sound(p) && WellTyped(r.t) &&
    forall j: nat :: j < |r.order| && r.order[j] in Objects(r.t) && AppendOf(r, j) < |p.statements| ==>
      !Hides(p, AppendOf(r, j))
  }

  lemma {:induction false} NamedAgrees(d: Backends, p: Program, r: Runs, named: seq<Submission>, j: nat)
    requires RunByName(p, r, named) && OrdersNoHidden(p, r) && j < |r.order|
    ensures Beside(r, named, j)
    ensures NamedOut(d, r, named, j) == DirectOut(d, r, j)
    ensures NamedAfter(d, r, named, j) == DirectAfter(d, r, j)
    decreases j
  {
    var q := NamedAfterPrevious(d, p, r, named, j);
    if q.Some? {
      NamedAgrees(d, p, r, named, q.value);
    }
    IsBeside(p, r, named, j);
    SideBySide(p, r, named, AppendOf(r, j));
    if KindOf(r, j).Variable? {
      var jd := NamedReadIsOutput(d, p, r, named, j);
      NamedAgrees(d, p, r, named, jd);
    } else {
      SameOperation(r, j);
      SameNamedOutput(d, r, named, j);
    }
  }

  lemma SameNamedOutput(d: Backends, r: Runs, named: seq<Submission>, j: nat)
    requires Beside(r, named, j) && named[AppendOf(r, j)] == r.direct[AppendOf(r, j)]
    requires !named[AppendOf(r, j)].op.Read? && NamedBefore(d, r, named, j) == DirectBefore(d, r, j)
    ensures NamedOut(d, r, named, j) == DirectOut(d, r, j)
  {
  }

  /** What the direct run by name returns. */
  function NamedResult(d: Backends, r: Runs, named: seq<Submission>): Exec
    requires 0 < r.t.width
  {
    Unthreaded(d, named, r.t.width, |named|)[0]
  }

  lemma NamedResultIsAfterLast(d: Backends, p: Program, r: Runs, named: seq<Submission>, last: Id) returns (j: nat)
    requires RunByName(p, r, named) && LastNode(r.t, |r.t.appends|, 0) == Some(last) && last in r.order
    ensures 0 < r.t.width && Beside(r, named, j) && r.order[j] == last
    ensures NamedResult(d, r, named) == NamedAfter(d, r, named, j) && DirectResult(d, r) == DirectAfter(d, r, j)
  {
    j := ResultsAreAfterLast(d, d, r, last);
    var p', j' := LastOfStream(r, last);
    OnlyPlace(r.order, j, j');
    IsBeside(p, r, named, j);
    forall k: nat | p' < k < |named|
      ensures named[k].stream != named[p'].stream
    {
      SideBySide(p, r, named, k);
    }
    LastSubmissionLeaves(d, named, r.t.width, p', |named|);
  }

  // ----- a hidden read is ordered: a model whose answers are long tells the runs apart -----

  /** Nothing in an executor is longer than in the other, where every answer has the given length at least. */
  predicate NoLonger(e: Exec, e': Exec, w: nat) {
    && |e.text| <= |e'.text| && e.variables.Keys == e'.variables.Keys
    && forall key :: key in e.variables ==>
         |e.variables[key]| <= |e'.variables[key]| && w <= |e'.variables[key]|
  }

  ghost predicate NoneIsLonger(w: nat, program: seq<Submission>, program': seq<Submission>, width: nat, i: nat)
    requires i <= |program| == |program'|
  {
    var d := Heavily(w);
    forall s: nat :: s < width ==>
      NoLonger(Unthreaded(d, program, width, i)[s], Unthreaded(d, program', width, i)[s], w)
  }

  lemma ApplyKeepsNoLonger(e: Exec, e': Exec, op: Op, output: string, output': string, w: nat)
    requires NoLonger(e, e', w) && |output| <= |output'|
    requires Defines(op).Some? ==> w <= |output'|
    ensures NoLonger(Apply(e, op, output), Apply(e', op, output'), w)
  {
  }

  lemma TextKeepsNoLonger(e: Exec, e': Exec, op: Op, op': Op, output: string, output': string, w: nat)
    requires NoLonger(e, e', w) && |output| <= |output'| && op.Text? && op'.Read?
    ensures NoLonger(Apply(e, op, output), Apply(e', op', output'), w)
  {
  }

  lemma SameOpIsNoLonger(w: nat, program: seq<Submission>, program': seq<Submission>, width: nat, i: nat)
    requires i < |program| == |program'| && program[i] == program'[i] && program[i].stream < width
    requires NoneIsLonger(w, program, program', width, i)
    ensures var d := Heavily(w);
            && |OutputOf(d, program, width, i)| <= |OutputOf(d, program', width, i)|
            && (Defines(program[i].op).Some? ==> w <= |OutputOf(d, program', width, i)|)
  {
    var d, op := Heavily(w), program[i].op;
    var s := if op.Read? then op.source else program[i].stream;
    assert s < width ==> NoLonger(Unthreaded(d, program, width, i)[s], Unthreaded(d, program', width, i)[s], w);
    if Defines(op).Some? {
      HeavyOut(w, program, width, i);
      HeavyOut(w, program', width, i);
    }
  }

  lemma TextIsShorterThanRead(w: nat, program: seq<Submission>, program': seq<Submission>, width: nat, i: nat)
    requires i < |program| == |program'| && NoneIsLonger(w, program, program', width, i)
    requires program[i].op.Text? && |program[i].op.value| < w && program'[i].op.Read? && program'[i].op.source < width
    requires var read := program'[i].op;
             Some(read.name) in Unthreaded(Heavily(w), program', width, i)[read.source].variables
    ensures |OutputOf(Heavily(w), program, width, i)| < |OutputOf(Heavily(w), program', width, i)|
  {
    var d, s := Heavily(w), program'[i].op.source;
    assert NoLonger(Unthreaded(d, program, width, i)[s], Unthreaded(d, program', width, i)[s], w);
  }

  /** What a statement adds is no longer in the direct run of the trace; for a hidden read, it is shorter. */
  lemma OutputIsNoLonger(w: nat, p: Program, r: Runs, named: seq<Submission>, i: nat)
    requires RunByName(p, r, named) && TextsAreShorter(r.direct, w)
    requires i < |p.statements| && |named| == |r.direct| == |p.statements|
    requires NoneIsLonger(w, r.direct, named, r.t.width, i)
    ensures var out, out' := OutputOf(Heavily(w), r.direct, r.t.width, i), OutputOf(Heavily(w), named, r.t.width, i);
            && |out| <= |out'| && (Hides(p, i) ==> |out| < |out'|)
            && (Defines(named[i].op).Some? ==> w <= |out'|)
  {
    SideBySide(p, r, named, i);
    if Hides(p, i) {
      HiddenIsShorter(w, p, r, named, i);
    } else {
      SameOpIsNoLonger(w, r.direct, named, r.t.width, i);
    }
  }

  lemma HiddenIsShorter(w: nat, p: Program, r: Runs, named: seq<Submission>, i: nat)
    requires RunByName(p, r, named) && TextsAreShorter(r.direct, w)
    requires i < |p.statements| && |named| == |r.direct| == |p.statements| && Hides(p, i)
    requires NoneIsLonger(w, r.direct, named, r.t.width, i)
    ensures |OutputOf(Heavily(w), r.direct, r.t.width, i)| < |OutputOf(Heavily(w), named, r.t.width, i)|
    ensures Defines(named[i].op).None?
  {
    SideBySide(p, r, named, i);
    HiddenIsThere(Heavily(w), p, r, named, i);
    TextIsShorterThanRead(w, r.direct, named, r.t.width, i);
  }

  lemma HiddenIsThere(d: Backends, p: Program, r: Runs, named: seq<Submission>, i: nat)
    requires RunByName(p, r, named) && i < |p.statements| == |named| && Hides(p, i) && named[i].op.Read?
    ensures named[i].op.source < r.t.width
    ensures Some(named[i].op.name) in Unthreaded(d, named, r.t.width, i)[named[i].op.source].variables
  {
    var m := ProviderOf(p, r, named, i);
    ProvidedIsThere(d, p, r, named, m, i, named[i].op.source, named[i].op.name);
  }

  lemma ProviderOf(p: Program, r: Runs, named: seq<Submission>, i: nat) returns (m: nat)
    requires Sound(p) && DirectByName(p, |p.statements|, r.arguments, r.calls) == Ok(named)
    requires i < |p.statements| == |named| && named[i].op.Read? && Hides(p, i)
    ensures m < i && Provides(p, m, named[i].op.source, named[i].op.name)
  {
    ByNameAt(p, |p.statements|, r.arguments, r.calls, i);
    m :| m < i && Provides(p, m, named[i].op.source, named[i].op.name);
  }

  lemma ProvidedIsThere(d: Backends, p: Program, r: Runs, named: seq<Submission>, m: nat, i: nat, owner: nat,
                        name: string)
    requires RunByName(p, r, named) && m < i < |p.statements| == |named| && Provides(p, m, owner, name)
    ensures owner < r.t.width && Some(name) in Unthreaded(d, named, r.t.width, i)[owner].variables
  {
    SideBySide(p, r, named, m);
    ByNameAt(p, |p.statements|, r.arguments, r.calls, m);
    VariableStays(d, named, r.t.width, m, i, name);
  }

  lemma NamedIsNoShorter(w: nat, p: Program, r: Runs, named: seq<Submission>, i: nat)
    requires RunByName(p, r, named) && TextsAreShorter(r.direct, w) && i <= |p.statements|
    ensures |named| == |r.direct| == |p.statements|
    ensures NoneIsLonger(w, r.direct, named, r.t.width, i)
  {
    ByNameAt(p, |p.statements|, r.arguments, r.calls, |p.statements|);
    DirectAt(r.t, |r.t.appends|, r.arguments, r.calls, |p.statements|);
    StartIsNoLonger(w, r.direct, named, r.t.width);
    for k := 0 to i
      invariant NoneIsLonger(w, r.direct, named, r.t.width, k)
    {
      OneMoreIsNoShorter(w, p, r, named, k);
    }
  }

  lemma StartIsNoLonger(w: nat, program: seq<Submission>, program': seq<Submission>, width: nat)
    requires |program| == |program'|
    ensures NoneIsLonger(w, program, program', width, 0)
  {
  }

  lemma OneMoreIsNoShorter(w: nat, p: Program, r: Runs, named: seq<Submission>, i: nat)
    requires RunByName(p, r, named) && TextsAreShorter(r.direct, w) && i < |p.statements| == |named| == |r.direct|
    requires NoneIsLonger(w, r.direct, named, r.t.width, i)
    ensures NoneIsLonger(w, r.direct, named, r.t.width, i + 1)
  {
    OutputIsNoLonger(w, p, r, named, i);
    SideBySide(p, r, named, i);
    OneStepIsNoLonger(w, r.direct, named, r.t.width, i);
  }

  lemma OneStepIsNoLonger(w: nat, program: seq<Submission>, program': seq<Submission>, width: nat, i: nat)
    requires i < |program| == |program'| && NoneIsLonger(w, program, program', width, i)
    requires program[i].stream == program'[i].stream < width
    requires program[i].op == program'[i].op || (program[i].op.Text? && program'[i].op.Read?)
    requires var d := Heavily(w);
             && |OutputOf(d, program, width, i)| <= |OutputOf(d, program', width, i)|
             && (Defines(program'[i].op).Some? ==> w <= |OutputOf(d, program', width, i)|)
    ensures NoneIsLonger(w, program, program', width, i + 1)
  {
    var d, s := Heavily(w), program[i].stream;
    var e, e' := Unthreaded(d, program, width, i), Unthreaded(d, program', width, i);
    assert NoLonger(e[s], e'[s], w);
    var out, out' := OutputOf(d, program, width, i), OutputOf(d, program', width, i);
    if program[i].op == program'[i].op {
      ApplyKeepsNoLonger(e[s], e'[s], program[i].op, out, out', w);
    } else {
      TextKeepsNoLonger(e[s], e'[s], program[i].op, program'[i].op, out, out', w);
    }
    assert forall o: nat :: o < width ==> NoLonger(e[o], e'[o], w);
  }

  /** What the j-th ordered object leaves is as long in the run by name. */
  predicate SameNamed(w: nat, r: Runs, named: seq<Submission>, j: nat)
    requires Beside(r, named, j)
  {
    |NamedAfter(Heavily(w), r, named, j).text| == |DirectAfter(Heavily(w), r, j).text|
  }

  /** Where an object leaves the same length, so did its stream before it, and it is no hidden read. */
  lemma SameBefore(w: nat, p: Program, r: Runs, named: seq<Submission>, j: nat)
    requires RunByName(p, r, named) && TextsAreShorter(r.direct, w) && j < |r.order| && Beside(r, named, j)
    ensures AppendOf(r, j) < |p.statements|
    ensures SameNamed(w, r, named, j) <==>
            && |NamedBefore(Heavily(w), r, named, j).text| == |DirectBefore(Heavily(w), r, j).text|
            && |NamedOut(Heavily(w), r, named, j)| == |DirectOut(Heavily(w), r, j)|
    ensures SameNamed(w, r, named, j) ==> !Hides(p, AppendOf(r, j))
  {
    IsBeside(p, r, named, j);
    var i := AppendOf(r, j);
    NamedIsNoShorter(w, p, r, named, i);
    OutputIsNoLonger(w, p, r, named, i);
    AppliedLength(NamedBefore(Heavily(w), r, named, j), named[i].op, NamedOut(Heavily(w), r, named, j));
    AppliedLength(DirectBefore(Heavily(w), r, j), r.direct[i].op, DirectOut(Heavily(w), r, j));
    assert NoLonger(DirectBefore(Heavily(w), r, j), NamedBefore(Heavily(w), r, named, j), w);
  }

  /** An answer tells the length of the text before it. */
  lemma AnswerTellsLength(w: nat, p: Program, r: Runs, named: seq<Submission>, j: nat)
    requires RunByName(p, r, named) && TextsAreShorter(r.direct, w)
    requires j < |r.order| && Beside(r, named, j) && KeyOf(KindOf(r, j)).Some?
    requires |NamedOut(Heavily(w), r, named, j)| == |DirectOut(Heavily(w), r, j)|
    ensures SameNamed(w, r, named, j)
  {
    IsBeside(p, r, named, j);
    SideBySide(p, r, named, AppendOf(r, j));
    SameOperation(r, j);
    HeavyOut(w, r.direct, r.t.width, AppendOf(r, j));
    HeavyOut(w, named, r.t.width, AppendOf(r, j));
    SameBefore(w, p, r, named, j);
  }

  lemma SamePrevious(w: nat, p: Program, r: Runs, named: seq<Submission>, j: nat, k: nat)
    requires RunByName(p, r, named) && TextsAreShorter(r.direct, w) && j < |r.order| && k < |r.order|
    requires Beside(r, named, j) && Beside(r, named, k) && SameNamed(w, r, named, j)
    requires r.order[j] in r.heap && r.heap[r.order[j]].prev == Some(r.order[k])
    ensures SameNamed(w, r, named, k)
  {
    SameBefore(w, p, r, named, j);
    var q := NamedAfterPrevious(Heavily(w), p, r, named, j);
    OnlyPlace(r.order, q.value, k);
  }

  lemma SameSource(w: nat, p: Program, r: Runs, named: seq<Submission>, j: nat, k: nat)
    requires RunByName(p, r, named) && TextsAreShorter(r.direct, w) && j < |r.order| && k < |r.order|
    requires Beside(r, named, j) && Beside(r, named, k) && SameNamed(w, r, named, j)
    requires r.order[j] in r.heap
    requires SourceOf(r.heap, Variables(r.t, |r.t.appends|, 0), r.order[j]) == Some(r.order[k])
    ensures SameNamed(w, r, named, k)
  {
    SameBefore(w, p, r, named, j);
    OrderedObject(r, j);
    var jd := NamedReadIsOutput(Heavily(w), p, r, named, j);
    OnlyPlace(r.order, jd, k);
    AnswerTellsLength(w, p, r, named, k);
  }

  predicate LeavesSameNamed(w: nat, r: Runs, named: seq<Submission>, id: Id) {
    exists j: nat :: j < |r.order| && r.order[j] == id && Beside(r, named, j) && SameNamed(w, r, named, j)
  }

  lemma SameNamedFrom(w: nat, p: Program, r: Runs, named: seq<Submission>, id: Id, to: Id)
    requires RunByName(p, r, named) && TextsAreShorter(r.direct, w) && LeavesSameNamed(w, r, named, id)
    requires DependsOn(HeapAfter(r.t, |r.t.appends|), Variables(r.t, |r.t.appends|, 0), id, to)
    ensures to in r.order && LeavesSameNamed(w, r, named, to)
  {
    var variables := Variables(r.t, |r.t.appends|, 0);
    var j: nat :| j < |r.order| && r.order[j] == id && Beside(r, named, j) && SameNamed(w, r, named, j);
    OrderedObject(r, j);
    var k := PlaceOf(r, j, to);
    IsBeside(p, r, named, k);
    if r.heap[id].prev == Some(to) {
      SamePrevious(w, p, r, named, j, k);
    } else {
      SameSource(w, p, r, named, j, k);
    }
  }

  /** If the last node leaves the same length, so does everything that was ordered. */
  lemma LastLeavesSameNamed(w: nat, p: Program, r: Runs, named: seq<Submission>, last: Id, k: nat)
    requires RunByName(p, r, named) && TextsAreShorter(r.direct, w) && OnlyReached(r, last) && last in r.order
    requires LeavesSameNamed(w, r, named, last) && k < |r.order|
    ensures LeavesSameNamed(w, r, named, r.order[k])
  {
    var heap, variables := HeapAfter(r.t, |r.t.appends|), Variables(r.t, |r.t.appends|, 0);
    var same := set id | id in r.order && LeavesSameNamed(w, r, named, id);
    forall id, to | id in same && DependsOn(heap, variables, id, to)
      ensures to in same
    {
      SameNamedFrom(w, p, r, named, id, to);
    }
    ClosedUnderDependence(heap, variables, same);
    OrderedIsIn(r, last, same, k);
  }

  /** A model that is asked by text alone answers both runs the same. */
  lemma HeavyAsksTheSame(w: nat, r: Runs)
    requires WellTyped(r.t)
    ensures AllAskTheSame(Heavy(w), Heavily(w), r)
  {
    assert forall j: nat :: j < |r.order| && r.order[j] in Objects(r.t) ==>
        AsksTheSame(Heavy(w), Heavily(w), r, j);
  }

  lemma HiddenIsNotSame(w: nat, p: Program, r: Runs, named: seq<Submission>, k: nat)
    requires RunByName(p, r, named) && TextsAreShorter(r.direct, w) && k < |r.order| && r.order[k] in Objects(r.t)
    requires AppendOf(r, k) < |p.statements| && Hides(p, AppendOf(r, k))
    ensures !LeavesSameNamed(w, r, named, r.order[k])
  {
    forall j: nat | j < |r.order| && r.order[j] == r.order[k] && Beside(r, named, j)
      ensures !SameNamed(w, r, named, j)
    {
      OnlyPlace(r.order, j, k);
      SameBefore(w, p, r, named, j);
    }
  }

  /** A hidden read that the last node depends on has a model with which the run by name is longer. */
  lemma HiddenReadShows(p: Program, r: Runs, named: seq<Submission>, last: Id, k: nat) returns (b: Backend)
    requires RunByName(p, r, named) && OnlyReached(r, last)
    requires LastNode(r.t, |r.t.appends|, 0) == Some(last) && last in r.order
    requires k < |r.order| && r.order[k] in Objects(r.t) && AppendOf(r, k) < |p.statements| && Hides(p, AppendOf(r, k))
    ensures 0 < r.t.width && StreamOf(r.heap, last) < r.width
    ensures CompiledResult(Everywhere(b), r, last).text != NamedResult(Everywhere(b), r, named).text
  {
    var w := 1 + Letters(r.direct);
    forall i: nat | i < |r.direct| && r.direct[i].op.Text?
      ensures |r.direct[i].op.value| < w
    {
      TextFits(r.direct, i);
    }
    b := Heavy(w);
    HeavyAsksTheSame(w, r);
    CompilationPreservesMeaning(b, Everywhere(b), r, last);
    HiddenIsNotSame(w, p, r, named, k);
    var j := NamedResultIsAfterLast(Heavily(w), p, r, named, last);
    assert !SameNamed(w, r, named, j) by {
      if SameNamed(w, r, named, j) {
        assert LeavesSameNamed(w, r, named, last);
        LastLeavesSameNamed(w, p, r, named, last, k);
      }
    }
  }

  // ----- the theorem -----

  /** The direct run finds every name among the variables, and it returns the text of the compiled run,
      whatever the model answers. */
  ghost predicate AgreesByName(p: Program, r: Runs, last: Id)
    requires Sound(p) && 0 < r.t.width && StreamOf(r.heap, last) < r.width
  {
    var direct := DirectByName(p, |p.statements|, r.arguments, r.calls);
    && direct.Ok?
    && forall b: Backend ::
         CompiledResult(Everywhere(b), r, last).text == NamedResult(Everywhere(b), r, direct.value).text
  }

  /** Every name that hides a variable does hide one. */
  ghost predicate HiddenAreProvided(p: Program)
    requires Sound(p)
  {
    forall i: nat :: i < |p.statements| && Hides(p, i) ==>
      exists m: nat :: m < i && Provides(p, m, p.statements[i].owner, p.statements[i].name)
  }

  lemma NameIsFound(p: Program, r: Runs, i: nat)
    requires r.Valid() && TraceOf(p, r.t) && HidesOnlyByText(p) && i < |p.statements| && HiddenAreProvided(p)
    ensures OpByName(p, i, r.arguments, r.calls).Ok?
  {
    SameStatement(p, r.t, i, r.arguments, r.calls);
    DirectAt(r.t, |r.t.appends|, r.arguments, r.calls, i);
  }

  lemma {:induction false} NamesAreFound(p: Program, r: Runs, n: nat)
    requires Sound(p) && n <= |p.statements|
    requires forall i: nat :: i < |p.statements| ==> OpByName(p, i, r.arguments, r.calls).Ok?
    ensures DirectByName(p, n, r.arguments, r.calls).Ok?
  {
    if n > 0 {
      NamesAreFound(p, r, n - 1);
    }
  }

  lemma AllAreFound(p: Program, r: Runs)
    requires r.Valid() && TraceOf(p, r.t) && HidesOnlyByText(p) && HiddenAreProvided(p)
    ensures DirectByName(p, |p.statements|, r.arguments, r.calls).Ok?
  {
    forall i: nat | i < |p.statements|
      ensures OpByName(p, i, r.arguments, r.calls).Ok?
    {
      NameIsFound(p, r, i);
    }
    NamesAreFound(p, r, |p.statements|);
  }

  lemma AllAreProvided(p: Program, r: Runs)
    requires Sound(p) && DirectByName(p, |p.statements|, r.arguments, r.calls).Ok?
    ensures HiddenAreProvided(p)
  {
    forall i: nat | i < |p.statements| && Hides(p, i)
      ensures exists m: nat :: m < i && Provides(p, m, p.statements[i].owner, p.statements[i].name)
    {
      ByNameAt(p, |p.statements|, r.arguments, r.calls, i);
    }
  }

  /** If no ordered read is hidden, the run by name returns what the direct run of the trace returns. */
  lemma NamedResultAgrees(p: Program, r: Runs, named: seq<Submission>, last: Id)
    requires RunByName(p, r, named) && OrdersNoHidden(p, r)
    requires LastNode(r.t, |r.t.appends|, 0) == Some(last) && last in r.order && 0 < r.t.width
    ensures forall b: Backend :: NamedResult(Everywhere(b), r, named) == DirectResult(Everywhere(b), r)
  {
    forall b: Backend
      ensures NamedResult(Everywhere(b), r, named) == DirectResult(Everywhere(b), r)
    {
      var j := NamedResultIsAfterLast(Everywhere(b), p, r, named, last);
      NamedAgrees(Everywhere(b), p, r, named, j);
    }
  }

  /** Whatever the arguments are, the compiled run returns the text of the direct run for every model exactly
      when all ordered generations resolve alike, no read that the last node depends on is hidden by an
      argument, and every other hidden name is that of a variable. */
  lemma NamesAgreeIff(p: Program, r: Runs, last: Id)
    requires r.Valid() && r.Resolves() && TraceOf(p, r.t) && HidesOnlyByText(p) && OnlyReached(r, last)
    requires LastNode(r.t, |r.t.appends|, 0) == Some(last) && last in r.order
    ensures 0 < r.t.width && StreamOf(r.heap, last) < r.width
    ensures AgreesByName(p, r, last) <==> SameSettings(r) && OrdersNoHidden(p, r) && HiddenAreProvided(p)
  {
    SameTextIffSameSettings(r, last);
    if DirectByName(p, |p.statements|, r.arguments, r.calls).Ok? {
      var named := DirectByName(p, |p.statements|, r.arguments, r.calls).value;
      AllAreProvided(p, r);
      if OrdersNoHidden(p, r) {
        NamedResultAgrees(p, r, named, last);
      } else {
        var k: nat :| k < |r.order| && r.order[k] in Objects(r.t) && AppendOf(r, k) < |p.statements| &&
                      Hides(p, AppendOf(r, k));
        var b := HiddenReadShows(p, r, named, last, k);
      }
    } else if HiddenAreProvided(p) {
      AllAreFound(p, r);
      assert false;
    }
  }

  // ----- a function with an argument x that generates an x and appends `s["x"]` -----

  const GEN_X: Kind := Kind.Gen(Some("x"), Overrides(None, None, map[]))
  const ARGUMENT_X: Kind := Kind.Argument("x")

  const HIDING: Program :=
    Program(1, map[0 := GEN_X], [map["x" := Symbolic(Object(1, ARGUMENT_X))]], [Adds(0, 0), AddsRead(0, 0, "x", 2)])

  /** Its trace appends the argument. */
  const HIDING_TRACE: Trace :=
    Trace(1, map[0 := GEN_X, 1 := ARGUMENT_X], [Append(0, 0, true), Append(0, 1, true)])

  lemma HidingIsTraced()
    ensures TraceOf(HIDING, HIDING_TRACE) && HidesOnlyByText(HIDING) && Hides(HIDING, 1)
  {
    assert HIDING.given[0]["x"] == Symbolic(Object(1, ARGUMENT_X));
    assert IsTraced(HIDING, HIDING_TRACE, 0) && IsTraced(HIDING, HIDING_TRACE, 1);
  }

  lemma HidingIsCompilable()
    ensures Compilable(HIDING_TRACE) && LastNode(HIDING_TRACE, 2, 0) == Some(1)
  {
    assert Objects(HIDING_TRACE)[0] == 0 && Objects(HIDING_TRACE)[1] == 1;
  }

  /** However it is compiled and whatever it is given, some model tells the compiled run from the direct one. */
  lemma ArgumentHidesVariable(r: Runs)
    requires r.Valid() && r.t == HIDING_TRACE && OnlyReached(r, 1) && 1 in r.order
    ensures 0 < r.t.width && StreamOf(r.heap, 1) < r.width && Sound(HIDING) && !AgreesByName(HIDING, r, 1)
  {
    HidingIsTraced();
    HidingIsCompilable();
    NamesAgreeIff(HIDING, r, 1);
    var j := IndexOf(r.order, 1);
    OrderedObject(r, j);
    assert AppendOf(r, j) == 1;
  }
}
