/** Stream executors as a network of threads: the main thread submits expressions,
    one worker per stream takes them from its queue, and a reader waits on the event
    of the variable it reads. Every interleaving is compared with the unthreaded run,
    which executes each expression at the moment it is submitted. */
module Network {
  import opened Prelude
  import opened Ir
  import opened Executor

  /** A read names the executor that owns the variable; it is done either by the worker
      that executes the expression or by the main thread before it submits the value. */
  datatype Op =
    | Text(value: string)
    | Gen(key: Key, params: Params)
    | Select(key: Key, choices: seq<string>)
    | Read(source: nat, name: string, onWorker: bool)

  datatype Submission = Submission(stream: nat, op: Op)

  /** The backend of each stream. */
  type Backends = nat -> Backend

  function Everywhere(b: Backend): Backends {
    (stream: nat) => b
  }

  // ----- the unthreaded run -----

  /** What an operation contributes to the text of its stream. */
  function Output(b: Backends, execs: seq<Exec>, sub: Submission): string {
    match sub.op
    case Text(value) => value
    case Gen(_, params) => if sub.stream < |execs| then b(sub.stream).generate(execs[sub.stream].text, params) else ""
    case Select(_, choices) =>
      if sub.stream < |execs| then b(sub.stream).select(execs[sub.stream].text, choices) else ""
    case Read(source, name, _) =>
      if source < |execs| && Some(name) in execs[source].variables then execs[source].variables[Some(name)] else ""
  }

  function Apply(e: Exec, op: Op, output: string): Exec {
    match op
    case Text(_) => Fill(e, output)
    case Gen(key, _) => Complete(e, key, output)
    case Select(key, _) => Decide(e, key, output)
    case Read(_, _, _) => Fill(e, output)
  }

  function Unthreaded(b: Backends, program: seq<Submission>, width: nat, n: nat): (execs: seq<Exec>)
    requires n <= |program|
    ensures |execs| == width
  {
    if n == 0 then seq(width, _ => FRESH)
    else
      var before := Unthreaded(b, program, width, n - 1);
      var sub := program[n - 1];
      if sub.stream < width then before[sub.stream := Apply(before[sub.stream], sub.op, Output(b, before, sub))]
      else before
  }

  /** What submission i contributes in the unthreaded run. */
  function OutputOf(b: Backends, program: seq<Submission>, width: nat, i: nat): string
    requires i < |program|
  {
    Output(b, Unthreaded(b, program, width, i), program[i])
  }

  // ----- programs whose reads are served by one earlier definition -----

  function Defines(op: Op): Option<Key> {
    match op
    case Gen(key, _) => Some(key)
    case Select(key, _) => Some(key)
    case _ => None
  }

  predicate IsDefinition(program: seq<Submission>, i: nat, source: nat, name: string) {
    i < |program| && program[i].stream == source && Defines(program[i].op) == Some(Some(name))
  }

  ghost predicate SoleDefinition(program: seq<Submission>, d: nat, source: nat, name: string) {
    IsDefinition(program, d, source, name) &&
    forall i: nat :: IsDefinition(program, i, source, name) ==> i == d
  }

  ghost predicate ReadIsServed(program: seq<Submission>, j: nat)
    requires j < |program|
  {
    program[j].op.Read? ==>
      exists d: nat :: d < j && SoleDefinition(program, d, program[j].op.source, program[j].op.name)
  }

  ghost predicate WellFormed(program: seq<Submission>, width: nat) {
    && (forall i :: 0 <= i < |program| ==> program[i].stream < width)
    && (forall j: nat :: j < |program| ==> ReadIsServed(program, j))
  }

  ghost function DefinitionOf(program: seq<Submission>, j: nat): (d: nat)
    requires j < |program| && program[j].op.Read? && ReadIsServed(program, j)
    ensures d < j && SoleDefinition(program, d, program[j].op.source, program[j].op.name)
  {
    var d: nat :| d < j && SoleDefinition(program, d, program[j].op.source, program[j].op.name);
    d
  }

  lemma {:induction false} StreamIsIdle(b: Backends, program: seq<Submission>, width: nat, s: nat, i: nat, j: nat)
    requires s < width && i <= j <= |program|
    requires forall k :: i <= k < j ==> program[k].stream != s
    ensures Unthreaded(b, program, width, i)[s] == Unthreaded(b, program, width, j)[s]
  {
    if i < j {
      StreamIsIdle(b, program, width, s, i, j - 1);
    }
  }

  /** Once its one definition has run, a variable keeps that value. */
  lemma {:induction false} VariableIsKept(b: Backends, program: seq<Submission>, width: nat, d: nat, source: nat,
                                          name: string, j: nat)
    requires source < width && d < j <= |program|
    requires SoleDefinition(program, d, source, name)
    ensures Some(name) in Unthreaded(b, program, width, j)[source].variables
    ensures Unthreaded(b, program, width, j)[source].variables[Some(name)] == OutputOf(b, program, width, d)
  {
    if d + 1 < j {
      VariableIsKept(b, program, width, d, source, name, j - 1);
      assert !IsDefinition(program, j - 1, source, name);
    }
  }

  /** A variable holds what its latest definition gave it. */
  lemma {:induction false} LatestIsRead(b: Backends, program: seq<Submission>, width: nat, d: nat, j: nat, name: string)
    requires d < j <= |program| && program[d].stream < width && Defines(program[d].op) == Some(Some(name))
    requires forall m: nat :: d < m < j ==> !IsDefinition(program, m, program[d].stream, name)
    ensures Some(name) in Unthreaded(b, program, width, j)[program[d].stream].variables
    ensures Unthreaded(b, program, width, j)[program[d].stream].variables[Some(name)] == OutputOf(b, program, width, d)
  {
    if d + 1 < j {
      LatestIsRead(b, program, width, d, j - 1, name);
      assert !IsDefinition(program, j - 1, program[d].stream, name);
    }
  }

  // ----- the threads -----

  /** One queued expression; its submission number is kept for reference only. */
  datatype Item = Item(index: nat, op: Op)

  /** A worker executes the head of its queue in small steps, and removes it with the last one. An event
      object is known by the number of the submission that registered it: `events` says which one a name
      stands for now, `isSet` which have been set, and `awaited` which one the worker waits for.
      `cursor` counts the submissions, of any stream, up to and including its last finished one. */
  datatype Worker = Worker(exec: Exec, queue: seq<Item>, phase: nat, output: string, events: map<Key, nat>,
                           isSet: set<nat>, awaited: Option<nat>, cursor: nat)

  const IDLE: Worker := Worker(FRESH, [], 0, "", map[], {}, None, 0)

  /** `prepared` is the expression the main thread has registered but not yet put in a queue. */
  datatype State = State(submitted: nat, prepared: Option<Op>, workers: seq<Worker>, crashed: bool)

  datatype Step = Prepare | Put | Work(stream: nat)

  function Initial(width: nat): State {
    State(0, None, seq(width, _ => IDLE), false)
  }

  /** The event that a lookup of the name finds now. */
  function EventOf(st: State, source: nat, name: string): Option<nat> {
    if source < |st.workers| && Some(name) in st.workers[source].events
    then Some(st.workers[source].events[Some(name)])
    else None
  }

  /** A wait for an event returns when that very object has been set, and at once if there was none. */
  predicate WaitReturns(st: State, source: nat, event: Option<nat>) {
    event.Some? && source < |st.workers| ==> event.value in st.workers[source].isSet
  }

  /** The main thread's read is one step: while it waits nothing is registered, so the event it looked up
      stays the one its name stands for. A worker looks the event up in one step and waits in another. */
  predicate Enabled(program: seq<Submission>, st: State, step: Step) {
    match step
    case Prepare =>
      st.prepared.None? && st.submitted < |program| &&
      (program[st.submitted].op.Read? && !program[st.submitted].op.onWorker ==>
         var op := program[st.submitted].op; WaitReturns(st, op.source, EventOf(st, op.source, op.name)))
    case Put =>
      st.prepared.Some? && st.submitted < |program| && program[st.submitted].stream < |st.workers|
    case Work(s) =>
      s < |st.workers| && st.workers[s].queue != [] &&
      (st.workers[s].queue[0].op.Read? && st.workers[s].phase > 0 ==>
         WaitReturns(st, st.workers[s].queue[0].op.source, st.workers[s].awaited))
  }

  /** The lookup `variables[name]` after the wait. */
  function Lookup(st: State, source: nat, name: string): Option<string> {
    if source < |st.workers| && Some(name) in st.workers[source].exec.variables
    then Some(st.workers[source].exec.variables[Some(name)])
    else None
  }

  /** The number of small steps an expression takes, and the state after the first of them.
      A gen extends the text, then stores the variable, then sets the event; a select stores the
      variable, then sets the event, then extends the text; a read looks up the event, then, once that is
      set, reads and fills. */
  function Phases(op: Op): nat {
    match op
    case Text(_) => 1
    case Gen(_, _) => 3
    case Select(_, _) => 3
    case Read(_, _, _) => 2
  }

  function Partial(e: Exec, op: Op, output: string, phase: nat): Exec {
    match op
    case Text(_) => if phase == 0 then e else Fill(e, output)
    case Gen(key, _) =>
      if phase == 0 then e
      else if phase == 1 then e.(text := e.text + output)
      else Complete(e, key, output)
    case Select(key, _) =>
      if phase == 0 then e
      else if phase < 3 then (if key.Some? then e.(variables := e.variables[key := output]) else e)
      else Decide(e, key, output)
    case Read(_, _, _) => if phase < 2 then e else Fill(e, output)
  }

  /** The name whose event the small step leading to `phase` sets. */
  function Sets(op: Op, phase: nat): Option<Key> {
    match op
    case Gen(key, _) => if phase == 3 then Some(key) else None
    case Select(key, _) => if phase == 2 && key.Some? then Some(key) else None
    case _ => None
  }

  /** One small step: what the fields become given what they hold now. */
  function Advance(e: Exec, op: Op, output: string, phase: nat): Exec {
    match op
    case Text(_) => Fill(e, output)
    case Gen(key, _) =>
      if phase == 0 then e.(text := e.text + output)
      else if phase == 1 then e.(variables := e.variables[key := output])
      else e
    case Select(key, _) =>
      if phase == 0 then (if key.Some? then e.(variables := e.variables[key := output]) else e)
      else if phase == 1 then e
      else e.(text := e.text + output)
    case Read(_, _, _) => if phase == 0 then e else Fill(e, output)
  }

  function WorkerOutput(b: Backend, st: State, w: Worker, op: Op): Option<string> {
    match op
    case Text(value) => Some(value)
    case Gen(_, params) => Some(if w.phase == 0 then b.generate(w.exec.text, params) else w.output)
    case Select(_, choices) => Some(if w.phase == 0 then b.select(w.exec.text, choices) else w.output)
    case Read(source, name, _) => if w.phase == 0 then Some("") else Lookup(st, source, name)
  }

  /** Setting the event of a name sets the one it stands for now, whichever expression registered that. */
  function SetAfter(w: Worker, key: Option<Key>): set<nat> {
    if key.Some? && key.value in w.events then w.isSet + {w.events[key.value]} else w.isSet
  }

  function WorkStep(b: Backends, st: State, s: nat): State
    requires s < |st.workers| && st.workers[s].queue != []
  {
    var w := st.workers[s];
    var item := w.queue[0];
    match WorkerOutput(b(s), st, w, item.op)
    case None => st.(crashed := true)
    case Some(output) =>
      var exec := Advance(w.exec, item.op, output, w.phase);
      var isSet := SetAfter(w, Sets(item.op, w.phase + 1));
      var w' := if w.phase + 1 == Phases(item.op)
                then Worker(exec, w.queue[1..], 0, "", w.events, isSet, None, item.index + 1)
                else w.(exec := exec, phase := w.phase + 1, output := output, isSet := isSet,
                        awaited := if item.op.Read? then EventOf(st, item.op.source, item.op.name) else None);
      st.(workers := st.workers[s := w'])
  }

  function PrepareStep(program: seq<Submission>, st: State): State
    requires st.submitted < |program|
  {
    var Submission(s, op) := program[st.submitted];
    if op.Read? && !op.onWorker then
      match Lookup(st, op.source, op.name)
      case None => st.(crashed := true)
      case Some(value) => st.(prepared := Some(Text(value)))
    else if Defines(op).Some? && s < |st.workers| then
      var w := st.workers[s];
      st.(prepared := Some(op), workers := st.workers[s := w.(events := w.events[Defines(op).value := st.submitted])])
    else
      st.(prepared := Some(op))
  }

  function PutStep(program: seq<Submission>, st: State): State
    requires st.submitted < |program| && st.prepared.Some? && program[st.submitted].stream < |st.workers|
  {
    var s := program[st.submitted].stream;
    var w := st.workers[s];
    State(st.submitted + 1, None,
          st.workers[s := w.(queue := w.queue + [Item(st.submitted, st.prepared.value)])],
          st.crashed)
  }

  function Perform(b: Backends, program: seq<Submission>, st: State, step: Step): State
    requires Enabled(program, st, step)
  {
    match step
    case Prepare => PrepareStep(program, st)
    case Put => PutStep(program, st)
    case Work(s) => WorkStep(b, st, s)
  }

  predicate Schedulable(b: Backends, program: seq<Submission>, st: State, schedule: seq<Step>)
    decreases |schedule|
  {
    schedule != [] ==>
      Enabled(program, st, schedule[0]) &&
      Schedulable(b, program, Perform(b, program, st, schedule[0]), schedule[1..])
  }

  function After(b: Backends, program: seq<Submission>, st: State, schedule: seq<Step>): State
    requires Schedulable(b, program, st, schedule)
    decreases |schedule|
  {
    if schedule == [] then st
    else After(b, program, Perform(b, program, st, schedule[0]), schedule[1..])
  }

  predicate Finished(program: seq<Submission>, st: State) {
    st.submitted == |program| && st.prepared.None? &&
    forall s :: 0 <= s < |st.workers| ==> st.workers[s].queue == []
  }

  // ----- the invariant of every run -----

  /** What the main thread puts in the queue for a submission. */
  function Queued(b: Backends, program: seq<Submission>, width: nat, i: nat): Op
    requires i < |program|
  {
    var op := program[i].op;
    if op.Read? && !op.onWorker then Text(OutputOf(b, program, width, i)) else op
  }

  /** The submissions to stream s among numbers lo..hi. */
  function Items(b: Backends, program: seq<Submission>, width: nat, s: nat, lo: nat, hi: nat): seq<Item>
    requires hi <= |program|
  {
    if hi <= lo then []
    else
      Items(b, program, width, s, lo, hi - 1) +
      (if program[hi - 1].stream == s then [Item(hi - 1, Queued(b, program, width, hi - 1))] else [])
  }

  /** The queue of a stream is what was submitted to it and is not done, and its head has steps left. */
  ghost predicate QueueOk(b: Backends, program: seq<Submission>, width: nat, st: State, s: nat)
    requires st.submitted <= |program| && s < |st.workers|
  {
    var w := st.workers[s];
    && w.cursor <= st.submitted
    && w.queue == Items(b, program, width, s, w.cursor, st.submitted)
    && (if w.queue == [] then w.phase == 0 else w.phase < Phases(w.queue[0].op))
    && (w.phase > 0 ==> w.queue[0].index < |program|)
  }

  ghost predicate WorkerOk(b: Backends, program: seq<Submission>, width: nat, st: State, s: nat)
    requires st.submitted <= |program| && s < |st.workers| && s < width
  {
    var w := st.workers[s];
    && QueueOk(b, program, width, st, s)
    && (w.phase > 0 && !w.queue[0].op.Read? ==> w.output == OutputOf(b, program, width, w.queue[0].index))
    && w.exec == (if w.phase == 0 then Unthreaded(b, program, width, w.cursor)[s]
                  else Partial(Unthreaded(b, program, width, w.queue[0].index)[s], w.queue[0].op,
                               OutputOf(b, program, width, w.queue[0].index), w.phase))
  }

  predicate Reading(w: Worker) {
    w.phase > 0 && w.queue != [] && w.queue[0].op.Read?
  }

  /** A worker in the middle of a read waits for the event of the one definition of its name. */
  ghost predicate AwaitsDefinition(program: seq<Submission>, w: Worker) {
    Reading(w) ==>
      w.awaited.Some? && SoleDefinition(program, w.awaited.value, w.queue[0].op.source, w.queue[0].op.name)
  }

  predicate HasRun(w: Worker, d: nat) {
    d < w.cursor || (w.queue != [] && w.queue[0].index == d && w.queue[0].op.Select? && w.phase >= 2)
  }

  /** The event of a variable with one definition is registered from the moment its definition is
      prepared, and set exactly when the definition has stored the value. */
  ghost predicate EventOk(program: seq<Submission>, st: State, d: nat, source: nat, name: string)
    requires source < |st.workers|
  {
    var w := st.workers[source];
    && EventOf(st, source, name) == (if Registered(st, d) then Some(d) else None)
    && (d in w.isSet <==> HasRun(w, d))
  }

  predicate Registered(st: State, d: nat) {
    d < st.submitted || (d == st.submitted && st.prepared.Some?)
  }

  /** A name stands for an event that a definition of it registered. */
  ghost predicate EventsAreNamed(program: seq<Submission>, st: State, s: nat)
    requires s < |st.workers|
  {
    forall key :: key in st.workers[s].events ==>
      var e := st.workers[s].events[key];
      e < |program| && program[e].stream == s && Defines(program[e].op) == Some(key)
  }

  ghost predicate Invariant(b: Backends, program: seq<Submission>, width: nat, st: State) {
    && st.submitted <= |program| && |st.workers| == width && !st.crashed
    && (st.prepared.Some? ==> st.submitted < |program| && st.prepared.value == Queued(b, program, width, st.submitted))
    && (forall s: nat :: s < width ==>
          && WorkerOk(b, program, width, st, s) && AwaitsDefinition(program, st.workers[s])
          && EventsAreNamed(program, st, s))
    && (forall d: nat, source: nat, name: string ::
          source < width && SoleDefinition(program, d, source, name) ==> EventOk(program, st, d, source, name))
  }
}
