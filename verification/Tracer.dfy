/** The tracer runs a program on symbolic values. It appends the same role text as the
    interpreter, although it records every message as blank. */
module Tracer {
  import opened Prelude
  import opened Ir
  import opened ChatTemplates
  import opened Tracing

  /** What a program submits with `+=`: one IR object, a list, the beginning or end of a role, or
      something the tracer does not know (an image, a variable scope), which the executor turns
      into the given text. */
  datatype Expr =
    | Object(id: Id, kind: Kind)
    | ExprList(items: seq<Expr>)
    | RoleBegin(role: string)
    | RoleEnd(role: string)
    | Unknown(added: string)

  /** The elements of an expression in the order in which they are executed. */
  function Flatten(expr: Expr): seq<Expr>
    decreases expr, 0
  {
    match expr
    case ExprList(items) => FlattenAll(items)
    case _ => [expr]
  }

  function FlattenAll(items: seq<Expr>): seq<Expr>
    decreases items
  {
    if items == [] then [] else Flatten(items[0]) + FlattenAll(items[1..])
  }

  /** `a + b`: lists are spliced, anything else becomes one element. */
  function Concatenated(a: Expr, b: Expr): Expr {
    ExprList((if a.ExprList? then a.items else [a]) + (if b.ExprList? then b.items else [b]))
  }

  lemma {:induction false} FlattenAllInTwo(a: seq<Expr>, b: seq<Expr>)
    ensures FlattenAll(a + b) == FlattenAll(a) + FlattenAll(b)
  {
    if a == [] {
      assert a + b == b;
    } else {
      assert (a + b)[1..] == a[1..] + b;
      FlattenAllInTwo(a[1..], b);
    }
  }

  /** A sum executes as its two sides, one after the other, however they are nested. */
  lemma SumExecutesInOrder(a: Expr, b: Expr)
    ensures Flatten(Concatenated(a, b)) == Flatten(a) + Flatten(b)
  {
    FlattenAllInTwo(if a.ExprList? then a.items else [a], if b.ExprList? then b.items else [b]);
    assert forall x: Expr :: !x.ExprList? ==> FlattenAll([x]) == Flatten(x) + FlattenAll([]);
  }

  /** How tracing one or more elements ends: normally, by a stop, or by a failed assertion. */
  datatype Status = Running | Stopped | Asserted

  /** The part of a tracer that decides what it appends. */
  datatype TracerState = TracerState(kinds: seq<Kind>, messages: seq<Message>, curRole: Option<string>)
  {
    function Append(kind: Kind): TracerState {
      this.(kinds := kinds + [kind])
    }
  }

  function OpenTraced(s: TracerState, template: ChatTemplate, role: string): TracerState {
    s.(curRole := Some(role)).Append(Const(template.PrefixAndSuffix(role, s.messages).0))
  }

  function CloseTraced(s: TracerState, template: ChatTemplate, role: string): TracerState {
    s.Append(Const(template.PrefixAndSuffix(role, s.messages).1))
     .(messages := s.messages + [Message(role, Some(""))], curRole := None)
  }

  function SystemTraced(s: TracerState, template: ChatTemplate): TracerState
    requires template.defaultSystemPrompt.Some?
  {
    CloseTraced(OpenTraced(s, template, "system").Append(Const(template.defaultSystemPrompt.value)), template, "system")
  }

  function BeginTraced(s: TracerState, template: ChatTemplate, role: string): (TracerState, Status) {
    if s.curRole.Some? then (s, Asserted)
    else if template.InsertsSystem(s.messages, role) then
      (OpenTraced(SystemTraced(s, template), template, role), Running)
    else
      (OpenTraced(s, template, role), Running)
  }

  /** One element that is not a list. Tracing for the prefix stops at arguments and variables. */
  function TraceElement(s: TracerState, template: ChatTemplate, onlyPrefix: bool, e: Expr): (TracerState, Status) {
    match e
    case Object(_, kind) =>
      if (kind.Argument? || kind.Variable?) && onlyPrefix then (s, Stopped) else (s.Append(kind), Running)
    case ExprList(_) => (s, Running)
    case RoleBegin(role) => BeginTraced(s, template, role)
    case RoleEnd(role) => (CloseTraced(s, template, role), Running)
    case Unknown(_) => (s, Stopped)
  }

  function TraceElements(s: TracerState, template: ChatTemplate, onlyPrefix: bool, es: seq<Expr>): (TracerState, Status)
    decreases |es|
  {
    if es == [] then (s, Running)
    else
      var (s', status) := TraceElement(s, template, onlyPrefix, es[0]);
      if status.Running? then TraceElements(s', template, onlyPrefix, es[1..]) else (s', status)
  }

  lemma {:induction false} TraceInTwo(s: TracerState, template: ChatTemplate, onlyPrefix: bool, a: seq<Expr>,
                                      b: seq<Expr>)
    ensures var (s', status) := TraceElements(s, template, onlyPrefix, a);
            TraceElements(s, template, onlyPrefix, a + b) ==
            if status.Running? then TraceElements(s', template, onlyPrefix, b) else (s', status)
    decreases |a|
  {
    if a == [] {
      assert a + b == b;
    } else {
      assert (a + b)[1..] == a[1..] + b;
      TraceInTwo(TraceElement(s, template, onlyPrefix, a[0]).0, template, onlyPrefix, a[1..], b);
    }
  }

  lemma TraceOne(s: TracerState, template: ChatTemplate, onlyPrefix: bool, e: Expr)
    requires !e.ExprList?
    ensures TraceElements(s, template, onlyPrefix, Flatten(e)) == TraceElement(s, template, onlyPrefix, e)
  {
    var es := Flatten(e);
    assert es == [e] && es[1..] == [];
    var (s', status) := TraceElement(s, template, onlyPrefix, e);
    assert TraceElements(s', template, onlyPrefix, es[1..]) == (s', Running);
  }

  /** The leading constant text. */
  function LeadingText(kinds: seq<Kind>): string {
    if kinds != [] && kinds[0].Const? then kinds[0].value + LeadingText(kinds[1..]) else ""
  }

  lemma {:induction false} FlattenOneMore(items: seq<Expr>, i: nat)
    requires i < |items|
    ensures FlattenAll(items[..i + 1]) == FlattenAll(items[..i]) + Flatten(items[i])
  {
    if i == 0 {
      assert items[..1][1..] == [];
    } else {
      assert items[..i + 1][1..] == items[1..][..i] && items[..i][1..] == items[1..][..i - 1];
      FlattenOneMore(items[1..], i - 1);
    }
  }

  /** What remains of a list does not matter once tracing has stopped. */
  lemma {:induction false} StoppedInside(s: TracerState, template: ChatTemplate, onlyPrefix: bool, items: seq<Expr>,
                                         i: nat)
    requires i <= |items|
    requires !TraceElements(s, template, onlyPrefix, FlattenAll(items[..i])).1.Running?
    ensures TraceElements(s, template, onlyPrefix, FlattenAll(items)) ==
            TraceElements(s, template, onlyPrefix, FlattenAll(items[..i]))
    decreases |items| - i
  {
    if i == |items| {
      assert items[..i] == items;
    } else {
      FlattenOneMore(items, i);
      TraceInTwo(s, template, onlyPrefix, FlattenAll(items[..i]), Flatten(items[i]));
      StoppedInside(s, template, onlyPrefix, items, i + 1);
    }
  }

  /** Every object of the expression has been created, as the kind it stands for. */
  predicate Created(e: Expr, kinds: map<Id, Kind>) {
    match e
    case Object(id, kind) => id in kinds && kinds[id] == kind
    case ExprList(items) => forall x :: x in items ==> Created(x, kinds)
    case _ => true
  }

  predicate Extends(before: map<Id, Kind>, after: map<Id, Kind>) {
    forall id :: id in before ==> id in after && after[id] == before[id]
  }

  lemma {:induction false} StillCreated(e: Expr, before: map<Id, Kind>, after: map<Id, Kind>)
    requires Created(e, before) && Extends(before, after)
    ensures Created(e, after)
  {
    if e.ExprList? {
      forall x | x in e.items {
        StillCreated(x, before, after);
      }
    }
  }

  function KindsOf(ids: seq<Id>, kinds: map<Id, Kind>): (r: seq<Kind>)
    requires forall i :: 0 <= i < |ids| ==> ids[i] in kinds
    ensures |r| == |ids| && forall i :: 0 <= i < |ids| ==> r[i] == kinds[ids[i]]
  {
    seq(|ids|, i requires 0 <= i < |ids| => kinds[ids[i]])
  }

  /** What a function is given under a name, or reads: Python's None, plain text, or an expression. */
  datatype Bound = Missing | Plain(text: string) | Symbolic(expr: Expr)

  /** What `s[name]` gives while tracing: an argument of that name hides the variable of that name, unless
      it is None. `id` is for the node made for a variable. */
  function ReadWhileTracing(arguments: map<string, Bound>, variables: map<string, Id>, name: string, id: Id)
    : Result<Bound>
  {
    if name in arguments && arguments[name] != Missing then Ok(arguments[name])
    else if name !in variables then Err(KeyError(name))
    else Ok(Symbolic(Object(id, Variable(name, variables[name]))))
  }

  class TracerProgramState {
    const tracer: nat
    const heap: IrHeap
    const template: ChatTemplate
    const onlyTracePrefix: bool
    const arguments: map<string, Bound>
    var nodes: seq<Id>
    var lastNode: Option<Id>
    var variables: map<string, Id>
    var messages: seq<Message>
    var curRole: Option<string>

    ghost predicate Valid()
      reads this, heap
    {
      heap.Valid() && forall i :: 0 <= i < |nodes| ==> nodes[i] in heap.objects
    }

    ghost function State(): TracerState
      requires Valid()
      reads this, heap
    {
      TracerState(KindsOf(nodes, heap.kinds), messages, curRole)
    }

    constructor (tracer: nat, heap: IrHeap, template: ChatTemplate, onlyTracePrefix: bool,
                 arguments: map<string, Bound>)
      requires heap.Valid()
      ensures Valid() && State() == TracerState([], [], None)
      ensures nodes == [] && lastNode == None && variables == map[]
      ensures this.tracer == tracer && this.heap == heap && this.template == template
      ensures this.onlyTracePrefix == onlyTracePrefix && this.arguments == arguments
    {
      this.tracer, this.heap, this.template := tracer, heap, template;
      this.onlyTracePrefix, this.arguments := onlyTracePrefix, arguments;
      nodes, lastNode, variables, messages, curRole := [], None, map[], [], None;
    }

    method AppendNode(obj: Id, pid: Pid)
      requires Valid() && obj in heap.kinds
      modifies this`nodes, this`lastNode, heap`objects
      ensures Valid() && State() == old(State()).Append(heap.kinds[obj])
      ensures heap.objects == old(heap.objects)[obj := IrNode(heap.kinds[obj], old(lastNode), pid)]
      ensures lastNode == Some(obj) && nodes == old(nodes) + [obj]
    {
      nodes := nodes + [obj];
      heap.objects := heap.objects[obj := IrNode(heap.kinds[obj], lastNode, pid)];
      lastNode := Some(obj);
    }

    /** Role text becomes a new object without a label. */
    method ExecuteFillText(value: string)
      requires Valid()
      modifies this`nodes, this`lastNode, heap
      ensures Valid() && State() == old(State()).Append(Const(value))
      ensures Extends(old(heap.kinds), heap.kinds)
      ensures old(heap.nodeCount) !in old(heap.kinds) && lastNode == Some(old(heap.nodeCount))
      ensures heap.objects ==
              old(heap.objects)[old(heap.nodeCount) := IrNode(Const(value), old(lastNode), Unset)]
    {
      var id := heap.Create(Const(value));
      AppendNode(id, Unset);
    }

    /** An object submitted by the program is labelled, entered under its name if it generates
        something, and appended. */
    method ExecuteObject(obj: Id)
      requires Valid() && obj in heap.kinds
      modifies this`nodes, this`lastNode, this`variables, heap`objects
      ensures Valid() && State() == old(State()).Append(heap.kinds[obj])
      ensures heap.objects == old(heap.objects)[obj := IrNode(heap.kinds[obj], old(lastNode), Tracer(tracer))]
      ensures lastNode == Some(obj)
      ensures variables == if KeyOf(heap.kinds[obj]).Some?
                           then old(variables)[EntryName(heap.kinds[obj], |old(variables)|) := obj] else old(variables)
    {
      var kind := heap.kinds[obj];
      if KeyOf(kind).Some? {
        var name := EntryName(kind, |variables|);
        variables := variables[name := obj];
      }
      AppendNode(obj, Tracer(tracer));
    }

    method GetVar(name: string) returns (r: Result<Bound>)
      requires Valid()
      modifies heap`kinds, heap`nodeCount
      ensures Valid() && Extends(old(heap.kinds), heap.kinds)
      ensures r == ReadWhileTracing(arguments, variables, name, old(heap.nodeCount))
      ensures name in arguments && !arguments[name].Missing? ==> r == Ok(arguments[name])
      ensures (name !in arguments || arguments[name].Missing?) && name in variables ==>
                && r.Ok? && r.value.Symbolic? && r.value.expr.Object?
                && r.value.expr.kind == Variable(name, variables[name])
      ensures (name !in arguments || arguments[name].Missing?) && name !in variables ==> r == Err(KeyError(name))
      ensures if r.Ok? && !(name in arguments && arguments[name] != Missing)
              then old(heap.nodeCount) !in old(heap.kinds) && Created(r.value.expr, heap.kinds)
              else heap.kinds == old(heap.kinds)
    {
      if name in arguments && arguments[name] != Missing {
        return Ok(arguments[name]);
      }
      if name !in variables {
        return Err(KeyError(name));
      }
      var id := heap.Create(Variable(name, variables[name]));
      r := Ok(Symbolic(Object(id, Variable(name, variables[name]))));
    }

    method ExecuteRoleBegin(role: string) returns (ok: bool)
      requires Valid()
      modifies this, heap
      decreases role != "system"
      ensures Valid() && Extends(old(heap.kinds), heap.kinds)
      ensures (State(), if ok then Running else Asserted) == BeginTraced(old(State()), template, role)
    {
      if curRole.Some? {
        return false;
      }
      if messages == [] && role != "system" {
        var defaultSystem := template.defaultSystemPrompt;
        if defaultSystem.Some? && defaultSystem.value != "" {
          var inserted := ExecuteRoleBegin("system");
          ExecuteFillText(defaultSystem.value);
          ExecuteRoleEnd("system");
        }
      }
      curRole := Some(role);
      var (prefix, _) := template.PrefixAndSuffix(role, messages);
      ExecuteFillText(prefix);
      ok := true;
    }

    method ExecuteRoleEnd(role: string)
      requires Valid()
      modifies this, heap
      ensures Valid() && Extends(old(heap.kinds), heap.kinds)
      ensures State() == CloseTraced(old(State()), template, role)
    {
      var (_, suffix) := template.PrefixAndSuffix(role, messages);
      ExecuteFillText(suffix);
      messages := messages + [Message(role, Some(""))];
      curRole := None;
    }

    method Execute(e: Expr) returns (status: Status)
      requires Valid() && Created(e, heap.kinds)
      modifies this, heap
      decreases e
      ensures Valid() && Extends(old(heap.kinds), heap.kinds)
      ensures (State(), status) == TraceElements(old(State()), template, onlyTracePrefix, Flatten(e))
    {
      status := Running;
      if !e.ExprList? {
        TraceOne(State(), template, onlyTracePrefix, e);
      }
      match e
      case Object(id, kind) =>
        if (kind.Argument? || kind.Variable?) && onlyTracePrefix {
          status := Stopped;
        } else {
          ExecuteObject(id);
        }
      case ExprList(items) =>
        status := ExecuteAll(items);
      case RoleBegin(role) =>
        var ok := ExecuteRoleBegin(role);
        status := if ok then Running else Asserted;
      case RoleEnd(role) =>
        ExecuteRoleEnd(role);
      case Unknown(_) =>
        status := Stopped;
    }

    method ExecuteAll(items: seq<Expr>) returns (status: Status)
      requires Valid() && forall x :: x in items ==> Created(x, heap.kinds)
      modifies this, heap
      decreases items
      ensures Valid() && Extends(old(heap.kinds), heap.kinds)
      ensures (State(), status) == TraceElements(old(State()), template, onlyTracePrefix, FlattenAll(items))
    {
      status := Running;
      assert FlattenAll(items[..0]) == [];
      ghost var start := State();
      for i := 0 to |items|
        invariant Valid() && Extends(old(heap.kinds), heap.kinds) && status.Running?
        invariant (State(), Running) == TraceElements(start, template, onlyTracePrefix, FlattenAll(items[..i]))
      {
        StillCreated(items[i], old(heap.kinds), heap.kinds);
        FlattenOneMore(items, i);
        TraceInTwo(start, template, onlyTracePrefix, FlattenAll(items[..i]), Flatten(items[i]));
        status := Execute(items[i]);
        if !status.Running? {
          StoppedInside(start, template, onlyTracePrefix, items, i + 1);
          return;
        }
      }
      assert items[..|items|] == items;
    }
  }

  /** The objects of the appends exist, as the kinds they stand for. */
  predicate Supplied(t: Trace, kinds: map<Id, Kind>) {
    WellTyped(t) && forall i :: 0 <= i < |t.appends| ==>
      t.appends[i].obj in kinds && kinds[t.appends[i].obj] == t.kinds[t.appends[i].obj]
  }

  method NewTracers(t: Trace, heap: IrHeap, template: ChatTemplate) returns (tracers: seq<TracerProgramState>)
    requires heap.Valid() && heap.objects == map[] && WellTyped(t)
    ensures |tracers| == t.width
    ensures forall i :: 0 <= i < t.width ==>
              tracers[i].tracer == i && Traces(t, 0, tracers[i], heap) && fresh(tracers[i])
  {
    tracers := [];
    for k := 0 to t.width
      invariant |tracers| == k
      invariant forall i :: 0 <= i < k ==> tracers[i].tracer == i && Traces(t, 0, tracers[i], heap) && fresh(tracers[i])
    {
      var tracer := new TracerProgramState(k, heap, template, false, map[]);
      tracers := tracers + [tracer];
    }
  }

  /** What one append changes: the heap, and the last node and the variables of its tracer. */
  lemma OneMoreAppend(t: Trace, i: nat, k: nat)
    requires WellTyped(t) && i < |t.appends| && t.appends[i].labelled
    ensures var a := t.appends[i];
            && HeapAfter(t, i + 1) ==
               HeapAfter(t, i)[a.obj := IrNode(t.kinds[a.obj], LastNode(t, i, a.tracer), Tracer(a.tracer))]
            && LastNode(t, i + 1, k) == (if k == a.tracer then Some(a.obj) else LastNode(t, i, k))
            && Variables(t, i + 1, k) ==
               (if k == a.tracer && KeyOf(t.kinds[a.obj]).Some?
                then Variables(t, i, k)[EntryName(t.kinds[a.obj], |Variables(t, i, k)|) := a.obj]
                else Variables(t, i, k))
  {
  }

  /** Tracing a program of plain objects, call by call, builds the heap, the chains and the tables
      of variables of its trace. */
  method TraceProgram(t: Trace, heap: IrHeap, template: ChatTemplate) returns (tracers: seq<TracerProgramState>)
    requires heap.Valid() && heap.objects == map[] && Supplied(t, heap.kinds)
    requires forall i :: 0 <= i < |t.appends| ==> t.appends[i].labelled
    modifies heap
    ensures |tracers| == t.width && heap.Valid()
    ensures heap.objects == HeapAfter(t, |t.appends|)
    ensures forall k :: 0 <= k < t.width ==>
              && tracers[k].lastNode == LastNode(t, |t.appends|, k)
              && tracers[k].variables == Variables(t, |t.appends|, k)
  {
    tracers := NewTracers(t, heap, template);
    TraceAppends(t, tracers, heap);
  }

  method TraceAppends(t: Trace, tracers: seq<TracerProgramState>, heap: IrHeap)
    requires Supplied(t, heap.kinds) && AllTrace(t, 0, tracers, heap)
    requires forall i :: 0 <= i < |t.appends| ==> t.appends[i].labelled
    modifies tracers, heap`objects
    ensures AllTrace(t, |t.appends|, tracers, heap)
  {
    for i := 0 to |t.appends|
      invariant AllTrace(t, i, tracers, heap)
    {
      TraceAppend(t, i, tracers, heap);
    }
  }

  /** Every tracer has done its part of the first n appends. */
  ghost predicate AllTrace(t: Trace, n: nat, tracers: seq<TracerProgramState>, heap: IrHeap)
    requires n <= |t.appends| && WellTyped(t)
    reads tracers, heap
  {
    && |tracers| == t.width && heap.Valid() && heap.objects == HeapAfter(t, n)
    && forall k :: 0 <= k < t.width ==> tracers[k].tracer == k && Traces(t, n, tracers[k], heap)
  }

  method TraceAppend(t: Trace, i: nat, tracers: seq<TracerProgramState>, heap: IrHeap)
    requires i < |t.appends| && Supplied(t, heap.kinds) && t.appends[i].labelled && AllTrace(t, i, tracers, heap)
    modifies tracers, heap`objects
    ensures AllTrace(t, i + 1, tracers, heap)
  {
    var tracer := tracers[t.appends[i].tracer];
    OneMoreAppend(t, i, tracer.tracer);
    tracer.ExecuteObject(t.appends[i].obj);
    forall k | 0 <= k < t.width && k != t.appends[i].tracer
      ensures Traces(t, i + 1, tracers[k], heap)
    {
      OneMoreAppend(t, i, k);
    }
  }

  ghost predicate Traces(t: Trace, n: nat, tracer: TracerProgramState, heap: IrHeap)
    requires n <= |t.appends| && WellTyped(t)
    reads tracer, heap
  {
    && tracer.heap == heap && tracer.Valid()
    && tracer.lastNode == LastNode(t, n, tracer.tracer)
    && tracer.variables == Variables(t, n, tracer.tracer)
  }
}
