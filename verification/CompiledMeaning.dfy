/** Running a compiled program and running the program directly give the same stream. */
module CompiledMeaning {
  import opened Prelude
  import opened Ir
  import opened Tracing
  import opened Network

  // ----- the two ways to run a traced program -----

  /** The submission for one object: arguments are substituted, and a variable reads from
      the executor that owns its source. */
  function OpOf(kind: Kind, owner: nat, onWorker: bool, arguments: map<string, string>, defaults: Params): Result<Op> {
    match kind
    case Const(value) => Ok(Text(value))
    case Argument(name) => if name in arguments then Ok(Text(arguments[name])) else Err(KeyError(name))
    case Gen(key, overrides) => Ok(Op.Gen(key, ResolveParams(defaults, overrides)))
    case Select(key, choices) => Ok(Op.Select(key, choices))
    case Variable(name, _) => Ok(Read(owner, name, onWorker))
  }

  /** The tracer that appended an object, as the first n appends stand. */
  function TracerOf(t: Trace, n: nat, obj: Id): nat
    requires n <= |t.appends|
  {
    if n == 0 then 0
    else if t.appends[n - 1].obj == obj then t.appends[n - 1].tracer
    else TracerOf(t, n - 1, obj)
  }

  /** A function that is called runs with the sampling defaults of its own call, whatever the run of
      its caller was given. */
  type Calls = nat -> Params

  function AllAlike(defaults: Params): Calls {
    (tracer: nat) => defaults
  }

  function DirectOp(t: Trace, i: nat, arguments: map<string, string>, calls: Calls): Result<Op>
    requires i < |t.appends| && WellTyped(t)
  {
    var kind := t.kinds[t.appends[i].obj];
    OpOf(kind, if kind.Variable? then TracerOf(t, i, kind.source) else 0, false, arguments, calls(t.appends[i].tracer))
  }

  /** Direct interpretation: every append is submitted in program order to the executor of its
      function call; the main thread itself reads the variables of finished calls. */
  function Direct(t: Trace, n: nat, arguments: map<string, string>, calls: Calls): Result<seq<Submission>>
    requires n <= |t.appends| && WellTyped(t)
  {
    if n == 0 then Ok([])
    else
      match Direct(t, n - 1, arguments, calls)
      case Err(e) => Err(e)
      case Ok(before) =>
        match DirectOp(t, n - 1, arguments, calls)
        case Err(e) => Err(e)
        case Ok(op) => Ok(before + [Submission(t.appends[n - 1].tracer, op)])
  }

  function StreamOf(heap: Heap, id: Id): nat {
    if id in heap && heap[id].pid.Stream? then heap[id].pid.n else 0
  }

  function CompiledOp(heap: Heap, variables: map<string, Id>, id: Id, arguments: map<string, string>,
                      defaults: Params): Result<Op>
    requires id in heap
  {
    var source := SourceOf(heap, variables, id);
    OpOf(heap[id].kind, if source.Some? then StreamOf(heap, source.value) else 0, true, arguments, defaults)
  }

  /** The compiled run: the first n ordered objects are submitted to the executors of their streams. */
  function Compiled(heap: Heap, variables: map<string, Id>, order: seq<Id>, n: nat,
                    arguments: map<string, string>, defaults: Params): Result<seq<Submission>>
    requires n <= |order| && forall j :: 0 <= j < |order| ==> order[j] in heap
  {
    if n == 0 then Ok([])
    else
      match Compiled(heap, variables, order, n - 1, arguments, defaults)
      case Err(e) => Err(e)
      case Ok(before) =>
        match CompiledOp(heap, variables, order[n - 1], arguments, defaults)
        case Err(e) => Err(e)
        case Ok(op) => Ok(before + [Submission(StreamOf(heap, order[n - 1]), op)])
  }

  // ----- the programs compared -----

  predicate Named(t: Trace, d: nat, tracer: nat, name: string)
    requires WellTyped(t)
  {
    d < |t.appends| && t.appends[d].tracer == tracer && KeyOf(t.kinds[t.appends[d].obj]) == Some(Some(name))
  }

  /** Append d is the gen or select, appended before, that the variable node at append i stands
      for, and the only one of that name in its function call. */
  ghost predicate ServedBy(t: Trace, i: nat, d: nat)
    requires i < |t.appends| && WellTyped(t)
  {
    var kind := t.kinds[t.appends[i].obj];
    && d < i && kind.Variable? && t.appends[d].obj == kind.source
    && Named(t, d, t.appends[d].tracer, kind.name)
    && forall d': nat :: Named(t, d', t.appends[d].tracer, kind.name) ==> d' == d
  }

  ghost predicate VariableIsServed(t: Trace, i: nat)
    requires i < |t.appends| && WellTyped(t)
  {
    t.kinds[t.appends[i].obj].Variable? ==> exists d: nat :: ServedBy(t, i, d)
  }

  function Objects(t: Trace): seq<Id> {
    seq(|t.appends|, i requires 0 <= i < |t.appends| => t.appends[i].obj)
  }

  /** The name of a variable is looked up to the source it was made with. */
  predicate ResolvesToSource(t: Trace, i: nat)
    requires i < |t.appends| && WellTyped(t)
  {
    var kind := t.kinds[t.appends[i].obj];
    var variables := Variables(t, |t.appends|, 0);
    kind.Variable? && kind.name in variables ==> variables[kind.name] == kind.source
  }

  /** A trace whose variables were made from generations that are the only ones of their name in their
      call. */
  ghost predicate Served(t: Trace) {
    && WellTyped(t)
    && forall i: nat :: i < |t.appends| ==> VariableIsServed(t, i)
  }

  /** A trace of plain objects, none of them appended twice. */
  ghost predicate Traceable(t: Trace) {
    Served(t) && Distinct(Objects(t)) && forall i :: 0 <= i < |t.appends| ==> t.appends[i].labelled
  }

  ghost predicate Compilable(t: Trace) {
    Traceable(t) && forall i: nat :: i < |t.appends| ==> ResolvesToSource(t, i)
  }

  /** The heap the compiler leaves: streams are numbered below `width`, and two objects it ordered
      are on one stream exactly when one tracer appended both. */
  predicate Relabelled(before: Heap, after: Heap, order: seq<Id>, width: nat) {
    && after.Keys == before.Keys
    && (forall id :: id in before ==> after[id].kind == before[id].kind && after[id].prev == before[id].prev)
    && (forall j :: 0 <= j < |order| ==>
          order[j] in after && after[order[j]].pid.Stream? && after[order[j]].pid.n < width)
    && (forall i, j :: 0 <= i < |order| && 0 <= j < |order| ==>
          (after[order[i]].pid == after[order[j]].pid <==> before[order[i]].pid == before[order[j]].pid))
  }

  lemma RelabelledAt(before: Heap, after: Heap, order: seq<Id>, width: nat, i: nat, j: nat)
    requires Relabelled(before, after, order, width) && i < |order| && j < |order|
    requires order[i] in before && order[j] in before
    ensures order[i] in after && order[j] in after
    ensures after[order[i]].kind == before[order[i]].kind && after[order[i]].prev == before[order[i]].prev
    ensures StreamOf(after, order[i]) < width
    ensures StreamOf(after, order[i]) == StreamOf(after, order[j]) <==> before[order[i]].pid == before[order[j]].pid
  {
  }

  /** An object that adds no text, whatever the model answers. */
  predicate Silent(kind: Kind, arguments: map<string, string>) {
    match kind
    case Const(value) => value == ""
    case Argument(name) => name in arguments && arguments[name] == ""
    case _ => false
  }
}
