/** Runs of programs whose reads are left to the workers, as in compiled functions, and whose names may be
    defined any number of times: what every step keeps, and schedules that bring a stream to a given place. */
module StreamRuns {
  import opened Prelude
  import opened Ir
  import opened Network
  import opened NetworkProofs

  ghost predicate WorkersRead(program: seq<Submission>, width: nat) {
    forall i :: 0 <= i < |program| ==>
      program[i].stream < width && (program[i].op.Read? ==> program[i].op.onWorker)
  }

  // ----- what every run keeps, however often a name is defined -----

  /** Submission k is to stream s and stores its result under the key. */
  predicate Stores(program: seq<Submission>, k: nat, s: nat, key: Key) {
    k < |program| && program[k].stream == s && Defines(program[k].op) == Some(key)
  }

  ghost predicate LastDefinition(program: seq<Submission>, d: nat, source: nat, name: string) {
    IsDefinition(program, d, source, name) &&
    forall k: nat :: IsDefinition(program, k, source, name) ==> k <= d
  }

  /** A name stands for the event of its latest registration. */
  ghost predicate LatestEvents(program: seq<Submission>, st: State, s: nat)
    requires s < |st.workers|
  {
    var events := st.workers[s].events;
    && (forall key :: key in events ==> Registered(st, events[key]) && Stores(program, events[key], s, key))
    && (forall k: nat, key :: Registered(st, k) && Stores(program, k, s, key) ==> key in events && k <= events[key])
  }

  /** The expression that a worker is at has stored its result before it sets an event. */
  predicate HalfDone(w: Worker) {
    w.phase > 0 && w.queue != [] ==>
      match w.queue[0].op
      case Gen(key, _) => w.phase == 2 ==> key in w.exec.variables
      case Select(key, _) => key.Some? ==> key in w.exec.variables
      case _ => true
  }

  /** What has run is stored, and its event is set unless the name was registered again since. */
  ghost predicate RanIsSet(program: seq<Submission>, st: State, s: nat)
    requires s < |st.workers|
  {
    var w := st.workers[s];
    forall k: nat, name :: HasRun(w, k) && IsDefinition(program, k, s, name) ==>
      && Some(name) in w.exec.variables
      && (Some(name) in w.events && w.events[Some(name)] == k ==> k in w.isSet)
  }

  /** Only an expression that stores under a name sets an event of that name. */
  ghost predicate SetByRun(program: seq<Submission>, st: State, s: nat)
    requires s < |st.workers|
  {
    var w := st.workers[s];
    && (forall e: nat :: e in w.isSet ==> Registered(st, e))
    && (forall e: nat, name :: e in w.isSet && IsDefinition(program, e, s, name) ==>
          exists k: nat :: k <= e && HasRun(w, k) && IsDefinition(program, k, s, name))
  }

  /** A worker in the middle of a read waits for the last event of the name, if that is registered before. */
  ghost predicate AwaitsLast(program: seq<Submission>, w: Worker) {
    Reading(w) ==>
      forall d: nat :: d < w.queue[0].index && LastDefinition(program, d, w.queue[0].op.source, w.queue[0].op.name) ==>
        w.awaited == Some(d)
  }

  ghost predicate StreamKept(b: Backends, program: seq<Submission>, width: nat, st: State, s: nat)
    requires InBounds(program, width, st) && s < width
  {
    && QueueOk(b, program, width, st, s) && LatestEvents(program, st, s) && HalfDone(st.workers[s])
    && RanIsSet(program, st, s) && SetByRun(program, st, s) && AwaitsLast(program, st.workers[s])
  }

  ghost predicate RunOk(b: Backends, program: seq<Submission>, width: nat, st: State) {
    && InBounds(program, width, st)
    && (st.prepared.Some? ==> st.submitted < |program| && st.prepared.value == program[st.submitted].op)
    && (forall s: nat :: s < width ==> StreamKept(b, program, width, st, s))
  }

  /** Nothing that a queue still holds or that is not in it yet has run. */
  lemma RunIsRegistered(b: Backends, program: seq<Submission>, width: nat, st: State, s: nat, k: nat)
    requires InBounds(program, width, st) && s < width && QueueOk(b, program, width, st, s)
    requires HasRun(st.workers[s], k)
    ensures k < st.submitted
  {
    ItemsHead(b, program, width, s, st.workers[s].cursor, st.submitted);
  }

  lemma PrepareKeepsLatest(b: Backends, program: seq<Submission>, width: nat, st: State, s: nat)
    requires WorkersRead(program, width) && RunOk(b, program, width, st) && s < width
    requires Enabled(program, st, Prepare)
    ensures LatestEvents(program, PrepareStep(program, st), s)
  {
    assert StreamKept(b, program, width, st, s);
    var st' := PrepareStep(program, st);
    assert forall k: nat :: Registered(st', k) <==> Registered(st, k) || k == st.submitted;
  }

  lemma PrepareKeepsSet(b: Backends, program: seq<Submission>, width: nat, st: State, s: nat)
    requires WorkersRead(program, width) && RunOk(b, program, width, st) && s < width
    requires Enabled(program, st, Prepare)
    ensures RanIsSet(program, PrepareStep(program, st), s) && SetByRun(program, PrepareStep(program, st), s)
  {
    assert StreamKept(b, program, width, st, s);
    var w, w' := st.workers[s], PrepareStep(program, st).workers[s];
    assert w' == w.(events := w'.events);
    if HasRun(w, st.submitted) {
      RunIsRegistered(b, program, width, st, s, st.submitted);
    }
    assert forall k: nat :: HasRun(w', k) == HasRun(w, k);
  }

  lemma PrepareIsKept(b: Backends, program: seq<Submission>, width: nat, st: State, s: nat)
    requires WorkersRead(program, width) && RunOk(b, program, width, st) && s < width
    requires Enabled(program, st, Prepare)
    ensures StreamKept(b, program, width, PrepareStep(program, st), s)
  {
    assert StreamKept(b, program, width, st, s);
    PrepareKeepsLatest(b, program, width, st, s);
    PrepareKeepsSet(b, program, width, st, s);
    var w, w' := st.workers[s], PrepareStep(program, st).workers[s];
    assert w' == w.(events := w'.events);
  }

  lemma PutIsKept(b: Backends, program: seq<Submission>, width: nat, st: State, s: nat)
    requires WorkersRead(program, width) && RunOk(b, program, width, st) && s < width
    requires Enabled(program, st, Put)
    ensures StreamKept(b, program, width, PutStep(program, st), s)
  {
    assert StreamKept(b, program, width, st, s);
    var st' := PutStep(program, st);
    assert st'.workers[s].queue == Items(b, program, width, s, st.workers[s].cursor, st'.submitted);
    HasRunAfterPut(b, program, width, st, s);
  }

  lemma HasRunAfterPut(b: Backends, program: seq<Submission>, width: nat, st: State, s: nat)
    requires InBounds(program, width, st) && s < width && QueueOk(b, program, width, st, s)
    requires Enabled(program, st, Put)
    ensures forall k: nat :: HasRun(PutStep(program, st).workers[s], k) == HasRun(st.workers[s], k)
  {
  }

  lemma OtherIsKept(b: Backends, program: seq<Submission>, width: nat, st: State, other: nat, s: nat)
    requires RunOk(b, program, width, st) && s < width && other != s && Enabled(program, st, Work(other))
    ensures StreamKept(b, program, width, WorkStep(b, st, other), s)
  {
    assert StreamKept(b, program, width, st, s);
    assert WorkStep(b, st, other).workers[s] == st.workers[s];
  }

  /** The next expression of a stream. */
  lemma HeadOf(b: Backends, program: seq<Submission>, width: nat, st: State, s: nat)
    requires WorkersRead(program, width) && InBounds(program, width, st) && s < width
    requires QueueOk(b, program, width, st, s) && st.workers[s].queue != []
    ensures var item := st.workers[s].queue[0];
            && st.workers[s].cursor <= item.index < st.submitted && program[item.index] == Submission(s, item.op)
            && (forall k :: st.workers[s].cursor <= k < item.index ==> program[k].stream != s)
  {
    ItemsHead(b, program, width, s, st.workers[s].cursor, st.submitted);
  }

  lemma WorkKeepsQueue(b: Backends, program: seq<Submission>, width: nat, st: State, s: nat)
    requires WorkersRead(program, width) && RunOk(b, program, width, st) && s < width
    requires Enabled(program, st, Work(s))
    ensures QueueOk(b, program, width, WorkStep(b, st, s), s) && HalfDone(WorkStep(b, st, s).workers[s])
  {
    assert StreamKept(b, program, width, st, s);
    HeadOf(b, program, width, st, s);
    var w, st' := st.workers[s], WorkStep(b, st, s);
    if WorkerOutput(b(s), st, w, w.queue[0].op).Some? && w.phase + 1 == Phases(w.queue[0].op) {
      FinishedQueueOk(b, program, width, st, st', s);
    }
  }

  lemma WorkKeepsEventsLatest(b: Backends, program: seq<Submission>, width: nat, st: State, s: nat)
    requires WorkersRead(program, width) && RunOk(b, program, width, st) && s < width
    requires Enabled(program, st, Work(s))
    ensures LatestEvents(program, WorkStep(b, st, s), s) && AwaitsLast(program, WorkStep(b, st, s).workers[s])
  {
    assert StreamKept(b, program, width, st, s);
    HeadOf(b, program, width, st, s);
    var w, w' := st.workers[s], WorkStep(b, st, s).workers[s];
    assert w'.events == w.events;
    if Reading(w') && w.phase == 0 {
      FindsLast(b, program, width, st, s);
    }
  }

  /** A read that is looked up after all definitions of its name are registered finds the last event. */
  lemma FindsLast(b: Backends, program: seq<Submission>, width: nat, st: State, s: nat)
    requires WorkersRead(program, width) && RunOk(b, program, width, st) && s < width
    requires st.workers[s].queue != [] && st.workers[s].queue[0].op.Read?
    ensures var item := st.workers[s].queue[0];
            forall d: nat :: d < item.index && LastDefinition(program, d, item.op.source, item.op.name) ==>
              EventOf(st, item.op.source, item.op.name) == Some(d)
  {
    assert StreamKept(b, program, width, st, s);
    HeadOf(b, program, width, st, s);
    var item := st.workers[s].queue[0];
    forall d: nat | d < item.index && LastDefinition(program, d, item.op.source, item.op.name)
      ensures EventOf(st, item.op.source, item.op.name) == Some(d)
    {
      assert program[d].stream == item.op.source;
      assert StreamKept(b, program, width, st, item.op.source);
      assert Registered(st, d) && Stores(program, d, item.op.source, Some(item.op.name));
      var e := st.workers[item.op.source].events[Some(item.op.name)];
      assert Stores(program, e, item.op.source, Some(item.op.name));
      assert IsDefinition(program, e, item.op.source, item.op.name);
    }
  }

  lemma WorkRuns(b: Backends, program: seq<Submission>, width: nat, st: State, s: nat)
    requires WorkersRead(program, width) && RunOk(b, program, width, st) && s < width
    requires Enabled(program, st, Work(s)) && WorkerOutput(b(s), st, st.workers[s], st.workers[s].queue[0].op).Some?
    ensures var w, w' := st.workers[s], WorkStep(b, st, s).workers[s]; var h := w.queue[0].index;
            forall k: nat, name :: IsDefinition(program, k, s, name) ==>
              (HasRun(w', k) <==>
               HasRun(w, k) ||
               (k == h && Sets(w.queue[0].op, w.phase + 1) == Some(Some(name))))
  {
    assert StreamKept(b, program, width, st, s);
    HeadOf(b, program, width, st, s);
    var w, w' := st.workers[s], WorkStep(b, st, s).workers[s];
    var item := w.queue[0];
    forall k: nat, name | IsDefinition(program, k, s, name)
      ensures HasRun(w', k) <==> HasRun(w, k) || (k == item.index && Sets(item.op, w.phase + 1) == Some(Some(name)))
    {
      HasRunAfterStep(b, program, width, st, s, k);
      assert k < item.index ==> k < w.cursor;
    }
  }

  lemma WorkKeepsRan(b: Backends, program: seq<Submission>, width: nat, st: State, s: nat)
    requires WorkersRead(program, width) && RunOk(b, program, width, st) && s < width
    requires Enabled(program, st, Work(s)) && WorkerOutput(b(s), st, st.workers[s], st.workers[s].queue[0].op).Some?
    ensures RanIsSet(program, WorkStep(b, st, s), s)
  {
    assert StreamKept(b, program, width, st, s);
    HeadOf(b, program, width, st, s);
    WorkRuns(b, program, width, st, s);
    var w, w' := st.workers[s], WorkStep(b, st, s).workers[s];
    forall k: nat, name | HasRun(w', k) && IsDefinition(program, k, s, name)
      ensures Some(name) in w'.exec.variables
      ensures Some(name) in w'.events && w'.events[Some(name)] == k ==> k in w'.isSet
    {
      assert Stores(program, k, s, Some(name));
    }
  }

  lemma WorkKeepsSet(b: Backends, program: seq<Submission>, width: nat, st: State, s: nat)
    requires WorkersRead(program, width) && RunOk(b, program, width, st) && s < width
    requires Enabled(program, st, Work(s)) && WorkerOutput(b(s), st, st.workers[s], st.workers[s].queue[0].op).Some?
    ensures SetByRun(program, WorkStep(b, st, s), s)
  {
    assert StreamKept(b, program, width, st, s);
    HeadOf(b, program, width, st, s);
    WorkRuns(b, program, width, st, s);
    var w, w' := st.workers[s], WorkStep(b, st, s).workers[s];
    var h := w.queue[0].index;
    forall e: nat, name | e in w'.isSet && IsDefinition(program, e, s, name)
      ensures exists k: nat :: k <= e && HasRun(w', k) && IsDefinition(program, k, s, name)
    {
      if e in w.isSet {
        var k: nat :| k <= e && HasRun(w, k) && IsDefinition(program, k, s, name);
        assert HasRun(w', k);
      } else {
        assert Stores(program, e, s, Some(name)) && Stores(program, h, s, Sets(w.queue[0].op, w.phase + 1).value);
        assert h <= e && HasRun(w', h) && IsDefinition(program, h, s, name);
      }
    }
  }

  lemma StepKeepsRun(b: Backends, program: seq<Submission>, width: nat, st: State, step: Step)
    requires WorkersRead(program, width) && RunOk(b, program, width, st) && Enabled(program, st, step)
    ensures RunOk(b, program, width, Perform(b, program, st, step))
  {
    var st' := Perform(b, program, st, step);
    forall s: nat | s < width
      ensures StreamKept(b, program, width, st', s)
    {
      match step
      case Prepare => PrepareIsKept(b, program, width, st, s);
      case Put => PutIsKept(b, program, width, st, s);
      case Work(other) =>
        if other != s {
          OtherIsKept(b, program, width, st, other, s);
        } else {
          WorkIsKept(b, program, width, st, s);
        }
    }
  }

  lemma WorkIsKept(b: Backends, program: seq<Submission>, width: nat, st: State, s: nat)
    requires WorkersRead(program, width) && RunOk(b, program, width, st) && s < width
    requires Enabled(program, st, Work(s))
    ensures StreamKept(b, program, width, WorkStep(b, st, s), s)
  {
    assert StreamKept(b, program, width, st, s);
    if WorkerOutput(b(s), st, st.workers[s], st.workers[s].queue[0].op).Some? {
      WorkKeepsQueue(b, program, width, st, s);
      WorkKeepsEventsLatest(b, program, width, st, s);
      WorkKeepsRan(b, program, width, st, s);
      WorkKeepsSet(b, program, width, st, s);
    }
  }

  lemma {:induction false} RunStaysOk(b: Backends, program: seq<Submission>, width: nat, st: State,
                                      schedule: seq<Step>)
    requires WorkersRead(program, width) && RunOk(b, program, width, st) && Schedulable(b, program, st, schedule)
    ensures RunOk(b, program, width, After(b, program, st, schedule))
    decreases |schedule|
  {
    if schedule != [] {
      StepKeepsRun(b, program, width, st, schedule[0]);
      RunStaysOk(b, program, width, Perform(b, program, st, schedule[0]), schedule[1..]);
    }
  }

  // ----- streams that compute what the unthreaded run computes -----

  /** One stream is as the unthreaded run has it, whatever becomes of the others. */
  ghost predicate StreamOk(b: Backends, program: seq<Submission>, width: nat, st: State, s: nat) {
    InBounds(program, width, st) && s < width && WorkerOk(b, program, width, st, s)
  }

  lemma StartIsOk(b: Backends, program: seq<Submission>, width: nat)
    ensures RunOk(b, program, width, Initial(width))
    ensures forall s: nat :: s < width ==> StreamOk(b, program, width, Initial(width), s)
  {
  }

  lemma SubmittingIsOk(b: Backends, program: seq<Submission>, width: nat, st: State, step: Step, s: nat)
    requires WorkersRead(program, width) && RunOk(b, program, width, st) && StreamOk(b, program, width, st, s)
    requires Enabled(program, st, step) && !step.Work?
    ensures StreamOk(b, program, width, Perform(b, program, st, step), s)
  {
    StepKeepsRun(b, program, width, st, step);
    assert StreamKept(b, program, width, Perform(b, program, st, step), s);
  }

  lemma OthersAreOk(b: Backends, program: seq<Submission>, width: nat, st: State, other: nat, s: nat)
    requires StreamOk(b, program, width, st, s) && Enabled(program, st, Work(other)) && other != s
    ensures StreamOk(b, program, width, Perform(b, program, st, Work(other)), s)
    ensures Perform(b, program, st, Work(other)).workers[s] == st.workers[s]
  {
  }

  lemma HeadStarts(b: Backends, program: seq<Submission>, width: nat, st: State, s: nat)
    requires WorkersRead(program, width) && StreamOk(b, program, width, st, s) && st.workers[s].queue != []
    ensures var w := st.workers[s];
            w.queue[0].index < |program| &&
            (w.phase == 0 ==> w.exec == Unthreaded(b, program, width, w.queue[0].index)[s])
  {
    HeadOf(b, program, width, st, s);
    StreamIsIdle(b, program, width, s, st.workers[s].cursor, st.workers[s].queue[0].index);
  }

  /** The state of an executor after a small step that computes what the unthreaded run computes. */
  lemma AdvancedExec(b: Backends, program: seq<Submission>, width: nat, st: State, s: nat)
    requires WorkersRead(program, width) && StreamOk(b, program, width, st, s) && st.workers[s].queue != []
    ensures var w := st.workers[s]; var h, op := w.queue[0].index, w.queue[0].op;
            && h < |program| && program[h] == Submission(s, op) && w.phase < Phases(op)
            && Advance(w.exec, op, OutputOf(b, program, width, h), w.phase) ==
               Partial(Unthreaded(b, program, width, h)[s], op, OutputOf(b, program, width, h), w.phase + 1)
            && Partial(Unthreaded(b, program, width, h)[s], op, OutputOf(b, program, width, h), Phases(op)) ==
               Unthreaded(b, program, width, h + 1)[s]
  {
    HeadOf(b, program, width, st, s);
    HeadStarts(b, program, width, st, s);
    var w := st.workers[s];
    var h, op := w.queue[0].index, w.queue[0].op;
    StepsAddUp(Unthreaded(b, program, width, h)[s], op, OutputOf(b, program, width, h), w.phase);
    assert Unthreaded(b, program, width, h + 1)[s] ==
           Apply(Unthreaded(b, program, width, h)[s], program[h].op, OutputOf(b, program, width, h));
  }

  predicate ComputesTheSame(b: Backends, program: seq<Submission>, width: nat, st: State, s: nat)
    requires s < |st.workers| && st.workers[s].queue != []
  {
    var w := st.workers[s];
    var item := w.queue[0];
    item.index < |program| &&
    WorkerOutput(b(s), st, w, item.op) ==
    Some(if item.op.Read? && w.phase == 0 then "" else OutputOf(b, program, width, item.index))
  }

  /** A worker that computes what the unthreaded run computes stays as the unthreaded run has it. */
  lemma WorkingIsOk(b: Backends, program: seq<Submission>, width: nat, st: State, s: nat)
    requires WorkersRead(program, width) && StreamOk(b, program, width, st, s)
    requires Enabled(program, st, Work(s))
    requires ComputesTheSame(b, program, width, st, s)
    ensures StreamOk(b, program, width, WorkStep(b, st, s), s)
  {
    if st.workers[s].phase + 1 == Phases(st.workers[s].queue[0].op) {
      LastWorkIsOk(b, program, width, st, s);
    } else {
      MidWorkIsOk(b, program, width, st, s);
    }
  }

  lemma MidWorkIsOk(b: Backends, program: seq<Submission>, width: nat, st: State, s: nat)
    requires WorkersRead(program, width) && StreamOk(b, program, width, st, s)
    requires Enabled(program, st, Work(s)) && ComputesTheSame(b, program, width, st, s)
    requires st.workers[s].phase + 1 < Phases(st.workers[s].queue[0].op)
    ensures StreamOk(b, program, width, WorkStep(b, st, s), s)
  {
    AdvancedExec(b, program, width, st, s);
  }

  lemma LastWorkIsOk(b: Backends, program: seq<Submission>, width: nat, st: State, s: nat)
    requires WorkersRead(program, width) && StreamOk(b, program, width, st, s)
    requires Enabled(program, st, Work(s)) && ComputesTheSame(b, program, width, st, s)
    requires st.workers[s].phase + 1 == Phases(st.workers[s].queue[0].op)
    ensures StreamOk(b, program, width, WorkStep(b, st, s), s)
  {
    AdvancedExec(b, program, width, st, s);
    LastStepOf(b, st, s);
    FinishedQueueOk(b, program, width, st, WorkStep(b, st, s), s);
  }

  /** What the last small step of an expression makes of its worker. */
  lemma LastStepOf(b: Backends, st: State, s: nat)
    requires s < |st.workers| && st.workers[s].queue != []
    requires st.workers[s].phase + 1 == Phases(st.workers[s].queue[0].op)
    requires WorkerOutput(b(s), st, st.workers[s], st.workers[s].queue[0].op).Some?
    ensures var w, st' := st.workers[s], WorkStep(b, st, s);
            && st'.submitted == st.submitted && |st'.workers| == |st.workers|
            && st'.workers[s].cursor == w.queue[0].index + 1 && st'.workers[s].phase == 0
            && st'.workers[s].queue == w.queue[1..]
            && st'.workers[s].exec ==
               Advance(w.exec, w.queue[0].op, WorkerOutput(b(s), st, w, w.queue[0].op).value, w.phase)
  {
  }

  /** So does a worker whose next expression is no read. */
  lemma AskingIsOk(b: Backends, program: seq<Submission>, width: nat, st: State, s: nat)
    requires WorkersRead(program, width) && StreamOk(b, program, width, st, s)
    requires st.workers[s].queue != [] && !st.workers[s].queue[0].op.Read?
    ensures Enabled(program, st, Work(s)) && StreamOk(b, program, width, WorkStep(b, st, s), s)
    ensures WorkerOutput(b(s), st, st.workers[s], st.workers[s].queue[0].op).Some?
  {
    HeadOf(b, program, width, st, s);
    HeadStarts(b, program, width, st, s);
    WorkingIsOk(b, program, width, st, s);
  }

  // ----- schedules -----

  ghost predicate Reaches(b: Backends, program: seq<Submission>, st: State, st': State) {
    exists schedule :: Schedulable(b, program, st, schedule) && After(b, program, st, schedule) == st'
  }

  lemma Stay(b: Backends, program: seq<Submission>, st: State)
    ensures Reaches(b, program, st, st)
  {
    assert Schedulable(b, program, st, []) && After(b, program, st, []) == st;
  }

  lemma FirstStep(b: Backends, program: seq<Submission>, st: State, schedule: seq<Step>)
    requires schedule != []
    ensures Schedulable(b, program, st, schedule) <==>
            Enabled(program, st, schedule[0]) &&
            Schedulable(b, program, Perform(b, program, st, schedule[0]), schedule[1..])
    ensures Schedulable(b, program, st, schedule) ==>
              After(b, program, st, schedule) == After(b, program, Perform(b, program, st, schedule[0]), schedule[1..])
  {
  }

  lemma {:induction false} OneAfterAnother(b: Backends, program: seq<Submission>, st: State, first: seq<Step>,
                                           second: seq<Step>)
    requires Schedulable(b, program, st, first) && Schedulable(b, program, After(b, program, st, first), second)
    ensures Schedulable(b, program, st, first + second)
    ensures After(b, program, st, first + second) == After(b, program, After(b, program, st, first), second)
    decreases |first|
  {
    if first == [] {
      assert first + second == second;
    } else {
      var both := first + second;
      assert both[0] == first[0] && both[1..] == first[1..] + second;
      FirstStep(b, program, st, first);
      OneAfterAnother(b, program, Perform(b, program, st, first[0]), first[1..], second);
      FirstStep(b, program, st, both);
    }
  }

  lemma Follow(b: Backends, program: seq<Submission>, st: State, mid: State, st': State)
    requires Reaches(b, program, st, mid) && Reaches(b, program, mid, st')
    ensures Reaches(b, program, st, st')
  {
    var first :| Schedulable(b, program, st, first) && After(b, program, st, first) == mid;
    var second :| Schedulable(b, program, mid, second) && After(b, program, mid, second) == st';
    OneAfterAnother(b, program, st, first, second);
  }

  lemma TakeStep(b: Backends, program: seq<Submission>, st: State, step: Step)
    requires Enabled(program, st, step)
    ensures Reaches(b, program, st, Perform(b, program, st, step))
  {
    var schedule, next := [step], Perform(b, program, st, step);
    assert schedule[0] == step && schedule[1..] == [];
    assert Schedulable(b, program, next, []) && After(b, program, next, []) == next;
    assert Schedulable(b, program, st, schedule);
    assert After(b, program, st, schedule) == After(b, program, next, schedule[1..]);
  }

  /** The later state is reached from the earlier one, with every stream as the unthreaded run has it that was
      so before. */
  ghost predicate Continues(b: Backends, program: seq<Submission>, width: nat, st: State, st': State) {
    && Reaches(b, program, st, st') && RunOk(b, program, width, st')
    && forall s :: StreamOk(b, program, width, st, s) ==> StreamOk(b, program, width, st', s)
  }

  lemma Continue(b: Backends, program: seq<Submission>, width: nat, st: State, mid: State, st': State)
    requires Continues(b, program, width, st, mid) && Continues(b, program, width, mid, st')
    ensures Continues(b, program, width, st, st')
  {
    Follow(b, program, st, mid, st');
  }

  /** The main thread alone submits everything up to n. */
  lemma {:induction false} SubmitUpTo(b: Backends, program: seq<Submission>, width: nat, st: State, n: nat)
    returns (st': State)
    requires WorkersRead(program, width) && RunOk(b, program, width, st) && st.submitted <= n <= |program|
    requires st.prepared.Some? ==> st.submitted < n
    ensures Continues(b, program, width, st, st')
    ensures st'.submitted == n && st'.prepared == None
    ensures forall s :: 0 <= s < width ==>
              st'.workers[s] == st.workers[s].(queue := st'.workers[s].queue, events := st'.workers[s].events)
    decreases n - st.submitted, st.prepared.None?
  {
    if st.submitted == n {
      Stay(b, program, st);
      st' := st;
    } else {
      var step := if st.prepared.Some? then Put else Prepare;
      var next := Perform(b, program, st, step);
      SubmittingContinues(b, program, width, st, step);
      st' := SubmitUpTo(b, program, width, next, n);
      Continue(b, program, width, st, next, st');
    }
  }

  lemma SubmittingContinues(b: Backends, program: seq<Submission>, width: nat, st: State, step: Step)
    requires WorkersRead(program, width) && RunOk(b, program, width, st)
    requires Enabled(program, st, step) && !step.Work?
    ensures Continues(b, program, width, st, Perform(b, program, st, step))
  {
    TakeStep(b, program, st, step);
    StepKeepsRun(b, program, width, st, step);
    var next := Perform(b, program, st, step);
    forall s | StreamOk(b, program, width, st, s)
      ensures StreamOk(b, program, width, next, s)
    {
      SubmittingIsOk(b, program, width, st, step, s);
    }
  }

  predicate EventSet(w: Worker, key: Key) {
    key in w.events && w.events[key] in w.isSet
  }

  lemma AskingContinues(b: Backends, program: seq<Submission>, width: nat, st: State, s: nat)
    requires WorkersRead(program, width) && RunOk(b, program, width, st) && s < width
    requires st.workers[s].queue != [] && !st.workers[s].queue[0].op.Read?
    ensures Enabled(program, st, Work(s)) && Continues(b, program, width, st, WorkStep(b, st, s))
    ensures WorkerOutput(b(s), st, st.workers[s], st.workers[s].queue[0].op).Some?
    ensures WorkStep(b, st, s) == st.(workers := WorkStep(b, st, s).workers)
    ensures forall o :: 0 <= o < width && o != s ==> WorkStep(b, st, s).workers[o] == st.workers[o]
  {
    assert StreamKept(b, program, width, st, s);
    HeadOf(b, program, width, st, s);
    TakeStep(b, program, st, Work(s));
    StepKeepsRun(b, program, width, st, Work(s));
    forall o | StreamOk(b, program, width, st, o)
      ensures StreamOk(b, program, width, WorkStep(b, st, s), o)
    {
      if o == s {
        AskingIsOk(b, program, width, st, s);
      } else {
        OthersAreOk(b, program, width, st, s, o);
      }
    }
  }

  /** A worker alone finishes the expression it is at. */
  lemma {:induction false} FinishItem(b: Backends, program: seq<Submission>, width: nat, st: State, s: nat)
    returns (st': State)
    requires WorkersRead(program, width) && RunOk(b, program, width, st) && s < width
    requires st.workers[s].queue != [] && !st.workers[s].queue[0].op.Read?
    ensures Continues(b, program, width, st, st') && st' == st.(workers := st'.workers)
    ensures forall o :: 0 <= o < width && o != s ==> st'.workers[o] == st.workers[o]
    ensures var w, w' := st.workers[s], st'.workers[s]; var item := w.queue[0];
            && w'.phase == 0 && w'.cursor == item.index + 1 && w'.queue == w.queue[1..]
            && (Defines(item.op).Some? && Defines(item.op).value.Some? &&
                (item.op.Select? && w.phase >= 2 ==> EventSet(w, Defines(item.op).value)) ==>
                  EventSet(w', Defines(item.op).value))
    decreases 3 - st.workers[s].phase
  {
    assert StreamKept(b, program, width, st, s);
    AskingContinues(b, program, width, st, s);
    HeadIsRegistered(b, program, width, st, s);
    var w, next := st.workers[s], WorkStep(b, st, s);
    if w.phase + 1 == Phases(w.queue[0].op) {
      st' := next;
    } else {
      st' := FinishItem(b, program, width, next, s);
      Continue(b, program, width, st, next, st');
    }
  }

  lemma HeadIsRegistered(b: Backends, program: seq<Submission>, width: nat, st: State, s: nat)
    requires WorkersRead(program, width) && RunOk(b, program, width, st) && s < width
    requires st.workers[s].queue != []
    ensures Defines(st.workers[s].queue[0].op).Some? ==>
              Defines(st.workers[s].queue[0].op).value in st.workers[s].events
  {
    assert StreamKept(b, program, width, st, s);
    HeadOf(b, program, width, st, s);
    var item := st.workers[s].queue[0];
    if Defines(item.op).Some? {
      assert Registered(st, item.index) && Stores(program, item.index, s, Defines(item.op).value);
    }
  }

  predicate Asks(program: seq<Submission>, s: nat, lo: nat, hi: nat)
    requires hi <= |program|
  {
    forall k :: lo <= k < hi && program[k].stream == s ==> !program[k].op.Read?
  }

  /** A worker alone runs through submission e. */
  lemma {:induction false} RunThrough(b: Backends, program: seq<Submission>, width: nat, st: State, s: nat, e: nat)
    returns (st': State)
    requires WorkersRead(program, width) && RunOk(b, program, width, st) && s < width
    requires st.workers[s].cursor <= e < st.submitted && program[e].stream == s
    requires Asks(program, s, st.workers[s].cursor, e + 1)
    ensures Continues(b, program, width, st, st') && st' == st.(workers := st'.workers)
    ensures forall o :: 0 <= o < width && o != s ==> st'.workers[o] == st.workers[o]
    ensures st'.workers[s].phase == 0 && st'.workers[s].cursor == e + 1
    ensures st.workers[s].phase == 0 && Defines(program[e].op).Some? && Defines(program[e].op).value.Some? ==>
              EventSet(st'.workers[s], Defines(program[e].op).value)
    decreases e - st.workers[s].cursor
  {
    AskedNext(b, program, width, st, s, e);
    st' := FinishItem(b, program, width, st, s);
    if st'.workers[s].cursor <= e {
      var mid := st';
      st' := RunThrough(b, program, width, mid, s, e);
      Continue(b, program, width, st, mid, st');
    }
  }

  /** Before submission e the stream has nothing but questions for the model, and text. */
  lemma AskedNext(b: Backends, program: seq<Submission>, width: nat, st: State, s: nat, e: nat)
    requires WorkersRead(program, width) && RunOk(b, program, width, st) && s < width
    requires st.workers[s].cursor <= e < st.submitted && program[e].stream == s
    requires Asks(program, s, st.workers[s].cursor, e + 1)
    ensures st.workers[s].queue != [] && !st.workers[s].queue[0].op.Read?
    ensures var h := st.workers[s].queue[0].index;
            && st.workers[s].cursor <= h <= e && Asks(program, s, h + 1, e + 1)
            && program[h].op == st.workers[s].queue[0].op
  {
    assert StreamKept(b, program, width, st, s);
    ItemsHead(b, program, width, s, st.workers[s].cursor, st.submitted);
    HeadOf(b, program, width, st, s);
  }

  lemma {:induction false} LatestDefinition(program: seq<Submission>, source: nat, name: string, d: nat, n: nat)
    returns (k: nat)
    requires IsDefinition(program, d, source, name) && d < n <= |program|
    ensures d <= k < n && IsDefinition(program, k, source, name)
    ensures forall m: nat :: k < m < n ==> !IsDefinition(program, m, source, name)
  {
    if IsDefinition(program, n - 1, source, name) || n == d + 1 {
      k := n - 1;
    } else {
      k := LatestDefinition(program, source, name, d, n - 1);
    }
  }
}
