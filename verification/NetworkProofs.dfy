/** Every schedule of the threads agrees with the unthreaded run, no schedule blocks
    before all work is done, and every schedule ends. */
module NetworkProofs {
  import opened Prelude
  import opened Executor
  import opened Network

  /** The next submission to stream s at or after lo, and what is queued behind it. */
  predicate HeadFits(b: Backends, program: seq<Submission>, width: nat, s: nat, lo: nat, hi: nat)
    requires hi <= |program|
  {
    var items := Items(b, program, width, s, lo, hi);
    if items == [] then forall k :: lo <= k < hi ==> program[k].stream != s
    else
      var h := items[0].index;
      && lo <= h < hi && program[h].stream == s && items[0].op == Queued(b, program, width, h)
      && (forall k :: lo <= k < h ==> program[k].stream != s)
      && items[1..] == Items(b, program, width, s, h + 1, hi)
  }

  lemma HeadFitsOneMore(b: Backends, program: seq<Submission>, width: nat, s: nat, lo: nat, hi: nat)
    requires lo <= hi < |program| && HeadFits(b, program, width, s, lo, hi)
    ensures HeadFits(b, program, width, s, lo, hi + 1)
  {
    var init := Items(b, program, width, s, lo, hi);
    var more := if program[hi].stream == s then [Item(hi, Queued(b, program, width, hi))] else [];
    assert Items(b, program, width, s, lo, hi + 1) == init + more;
    if init == [] {
      assert more != [] ==> more[1..] == Items(b, program, width, s, hi + 1, hi + 1);
    } else {
      assert (init + more)[1..] == init[1..] + more;
    }
  }

  lemma ItemsHead(b: Backends, program: seq<Submission>, width: nat, s: nat, lo: nat, hi: nat)
    requires hi <= |program|
    ensures var items := Items(b, program, width, s, lo, hi);
            if items == [] then forall k :: lo <= k < hi ==> program[k].stream != s
            else
              var h := items[0].index;
              && lo <= h < hi && program[h].stream == s && items[0].op == Queued(b, program, width, h)
              && (forall k :: lo <= k < h ==> program[k].stream != s)
              && items[1..] == Items(b, program, width, s, h + 1, hi)
  {
    if lo < hi {
      for k := lo to hi
        invariant HeadFits(b, program, width, s, lo, k)
      {
        HeadFitsOneMore(b, program, width, s, lo, k);
      }
    }
  }

  predicate InBounds(program: seq<Submission>, width: nat, st: State) {
    st.submitted <= |program| && |st.workers| == width
  }

  /** A variable whose definition has run holds that definition's output. */
  lemma LookupAfterDefinition(b: Backends, program: seq<Submission>, width: nat, st: State, d: nat, source: nat,
                              name: string)
    requires InBounds(program, width, st) && source < width && WorkerOk(b, program, width, st, source)
    requires SoleDefinition(program, d, source, name)
    requires HasRun(st.workers[source], d)
    ensures Lookup(st, source, name) == Some(OutputOf(b, program, width, d))
  {
    var w := st.workers[source];
    ItemsHead(b, program, width, source, w.cursor, st.submitted);
    if d < w.cursor {
      if w.phase == 0 {
        VariableIsKept(b, program, width, d, source, name, w.cursor);
      } else {
        var h := w.queue[0].index;
        VariableIsKept(b, program, width, d, source, name, h);
        assert !IsDefinition(program, h, source, name);
        PartialKeeps(Unthreaded(b, program, width, h)[source], w.queue[0].op, OutputOf(b, program, width, h), w.phase,
                     name);
      }
    }
  }

  /** An expression under way changes no variable but its own. */
  lemma PartialKeeps(e: Exec, op: Op, output: string, phase: nat, name: string)
    requires Some(name) in e.variables && Defines(op) != Some(Some(name))
    ensures Some(name) in Partial(e, op, output, phase).variables
    ensures Partial(e, op, output, phase).variables[Some(name)] == e.variables[Some(name)]
  {
  }

  /** The definition of a submitted read has registered its event; once that is set, the variable is there. */
  lemma ReadSeesDefinition(b: Backends, program: seq<Submission>, width: nat, st: State, j: nat)
    requires WellFormed(program, width) && Invariant(b, program, width, st)
    requires j < |program| && program[j].op.Read? && j <= st.submitted
    requires ReadIsServed(program, j)
    ensures var op := program[j].op; var d := DefinitionOf(program, j);
            && op.source < width && EventOf(st, op.source, op.name) == Some(d)
            && (d in st.workers[op.source].isSet ==>
                  Lookup(st, op.source, op.name) == Some(OutputOf(b, program, width, j)))
  {
    var op := program[j].op;
    var d := DefinitionOf(program, j);
    assert EventOk(program, st, d, op.source, op.name);
    if d in st.workers[op.source].isSet {
      VariableIsKept(b, program, width, d, op.source, op.name, j);
      LookupAfterDefinition(b, program, width, st, d, op.source, op.name);
    }
  }

  /** A head that is a read was left for the worker, and its definition precedes it. */
  lemma HeadIsRead(b: Backends, program: seq<Submission>, width: nat, st: State, s: nat)
    requires WellFormed(program, width) && st.submitted <= |program| && |st.workers| == width && s < width
    requires WorkerOk(b, program, width, st, s)
    requires st.workers[s].queue != [] && st.workers[s].queue[0].op.Read?
    ensures var item := st.workers[s].queue[0];
            && item.index < st.submitted && program[item.index].op == item.op
            && ReadIsServed(program, item.index)
            && item.op.source < width
  {
    var w := st.workers[s];
    ItemsHead(b, program, width, s, w.cursor, st.submitted);
    assert ReadIsServed(program, w.queue[0].index);
    var d := DefinitionOf(program, w.queue[0].index);
  }

  // ----- each step keeps the invariant -----

  /** Preparing changes no more of a worker than its table of events. */
  lemma PrepareTouchesEvents(program: seq<Submission>, st: State, s: nat)
    requires s < |st.workers| && Enabled(program, st, Prepare)
    ensures var st' := PrepareStep(program, st); var key := Defines(program[st.submitted].op);
            var events, events' := st.workers[s].events, st'.workers[s].events;
            && st'.submitted == st.submitted && |st'.workers| == |st.workers|
            && st'.workers[s] == st.workers[s].(events := events')
            && (events' == events ||
                (program[st.submitted].stream == s && key.Some? && events' == events[key.value := st.submitted]))
            && (st'.prepared.Some? && program[st.submitted].stream == s && key.Some? ==>
                  events' == events[key.value := st.submitted])
  {
  }

  lemma NotRunYet(b: Backends, program: seq<Submission>, width: nat, st: State, s: nat)
    requires InBounds(program, width, st) && s < width && QueueOk(b, program, width, st, s)
    ensures !HasRun(st.workers[s], st.submitted)
  {
    ItemsHead(b, program, width, s, st.workers[s].cursor, st.submitted);
  }

  lemma PrepareKeepsEvents(b: Backends, program: seq<Submission>, width: nat, st: State, d: nat, source: nat,
                           name: string)
    requires InBounds(program, width, st) && source < width && WorkerOk(b, program, width, st, source)
    requires Enabled(program, st, Prepare) && PrepareStep(program, st).prepared.Some?
    requires SoleDefinition(program, d, source, name) && EventOk(program, st, d, source, name)
    ensures EventOk(program, PrepareStep(program, st), d, source, name)
  {
    PrepareTouchesEvents(program, st, source);
    NotRunYet(b, program, width, st, source);
    assert IsDefinition(program, st.submitted, source, name) ==> st.submitted == d;
  }

  lemma SameButEvents(b: Backends, program: seq<Submission>, width: nat, st: State, st': State, s: nat)
    requires InBounds(program, width, st) && InBounds(program, width, st') && s < width
    requires st'.submitted == st.submitted && st'.workers[s] == st.workers[s].(events := st'.workers[s].events)
    requires WorkerOk(b, program, width, st, s)
    ensures WorkerOk(b, program, width, st', s)
  {
  }

  lemma PrepareKeepsWorker(b: Backends, program: seq<Submission>, width: nat, st: State, s: nat)
    requires InBounds(program, width, st) && s < width && Enabled(program, st, Prepare)
    requires WorkerOk(b, program, width, st, s) && AwaitsDefinition(program, st.workers[s])
    requires EventsAreNamed(program, st, s)
    ensures InBounds(program, width, PrepareStep(program, st))
    ensures WorkerOk(b, program, width, PrepareStep(program, st), s)
    ensures AwaitsDefinition(program, PrepareStep(program, st).workers[s])
    ensures EventsAreNamed(program, PrepareStep(program, st), s)
  {
    PrepareTouchesEvents(program, st, s);
    SameButEvents(b, program, width, st, PrepareStep(program, st), s);
  }

  lemma PrepareSucceeds(b: Backends, program: seq<Submission>, width: nat, st: State)
    requires WellFormed(program, width) && Invariant(b, program, width, st)
    requires Enabled(program, st, Prepare)
    ensures var st' := PrepareStep(program, st);
            st'.prepared == Some(Queued(b, program, width, st.submitted)) && !st'.crashed
  {
    var op := program[st.submitted].op;
    if op.Read? && !op.onWorker {
      assert ReadIsServed(program, st.submitted);
      ReadSeesDefinition(b, program, width, st, st.submitted);
    }
  }

  lemma PrepareKeeps(b: Backends, program: seq<Submission>, width: nat, st: State)
    requires WellFormed(program, width) && Invariant(b, program, width, st)
    requires Enabled(program, st, Prepare)
    ensures Invariant(b, program, width, PrepareStep(program, st))
  {
    var st' := PrepareStep(program, st);
    PrepareSucceeds(b, program, width, st);
    forall s: nat | s < width
      ensures WorkerOk(b, program, width, st', s) && AwaitsDefinition(program, st'.workers[s])
      ensures EventsAreNamed(program, st', s)
    {
      PrepareKeepsWorker(b, program, width, st, s);
    }
    forall d: nat, source: nat, name: string | source < width && SoleDefinition(program, d, source, name)
      ensures EventOk(program, st', d, source, name)
    {
      assert EventOk(program, st, d, source, name) && WorkerOk(b, program, width, st, source);
      PrepareKeepsEvents(b, program, width, st, d, source, name);
    }
  }

  lemma PutKeepsWorker(b: Backends, program: seq<Submission>, width: nat, st: State, s: nat)
    requires InBounds(program, width, st) && s < width && Enabled(program, st, Put)
    requires st.prepared.value == Queued(b, program, width, st.submitted)
    requires WorkerOk(b, program, width, st, s) && AwaitsDefinition(program, st.workers[s])
    requires EventsAreNamed(program, st, s)
    ensures WorkerOk(b, program, width, PutStep(program, st), s)
    ensures AwaitsDefinition(program, PutStep(program, st).workers[s])
    ensures EventsAreNamed(program, PutStep(program, st), s)
  {
    var st' := PutStep(program, st);
    assert st'.workers[s].queue == Items(b, program, width, s, st.workers[s].cursor, st'.submitted);
  }

  lemma PutKeepsEvents(b: Backends, program: seq<Submission>, width: nat, st: State, d: nat, source: nat, name: string)
    requires InBounds(program, width, st) && source < width && Enabled(program, st, Put)
    requires WorkerOk(b, program, width, st, source) && EventOk(program, st, d, source, name)
    ensures EventOk(program, PutStep(program, st), d, source, name)
  {
  }

  lemma PutKeeps(b: Backends, program: seq<Submission>, width: nat, st: State)
    requires WellFormed(program, width) && Invariant(b, program, width, st)
    requires Enabled(program, st, Put)
    ensures Invariant(b, program, width, PutStep(program, st))
  {
    var st' := PutStep(program, st);
    forall s: nat | s < width
      ensures WorkerOk(b, program, width, st', s) && AwaitsDefinition(program, st'.workers[s])
      ensures EventsAreNamed(program, st', s)
    {
      PutKeepsWorker(b, program, width, st, s);
    }
    forall d: nat, source: nat, name: string | source < width && SoleDefinition(program, d, source, name)
      ensures EventOk(program, st', d, source, name)
    {
      assert WorkerOk(b, program, width, st, source) && EventOk(program, st, d, source, name);
      PutKeepsEvents(b, program, width, st, d, source, name);
    }
  }

  /** What the worker of stream s computes is what the unthreaded run computes. */
  lemma WorkerAgrees(b: Backends, program: seq<Submission>, width: nat, st: State, s: nat)
    requires WellFormed(program, width) && Invariant(b, program, width, st)
    requires Enabled(program, st, Work(s))
    ensures var w := st.workers[s]; var item := w.queue[0];
            && item.index < st.submitted && program[item.index].stream == s && s < width
            && WorkerOutput(b(s), st, w, item.op) ==
               Some(if item.op.Read? && w.phase == 0 then "" else OutputOf(b, program, width, item.index))
            && (w.phase == 0 ==> w.exec == Unthreaded(b, program, width, item.index)[s])
  {
    assert WorkerOk(b, program, width, st, s) && AwaitsDefinition(program, st.workers[s]);
    var w := st.workers[s];
    ItemsHead(b, program, width, s, w.cursor, st.submitted);
    StreamIsIdle(b, program, width, s, w.cursor, w.queue[0].index);
    if w.queue[0].op.Read? {
      HeadIsRead(b, program, width, st, s);
      ReadSeesDefinition(b, program, width, st, w.queue[0].index);
    }
  }

  /** The small steps of an expression add up to executing it whole. */
  lemma StepsAddUp(e: Exec, op: Op, output: string, phase: nat)
    requires phase < Phases(op)
    ensures Advance(Partial(e, op, output, phase), op, output, phase) == Partial(e, op, output, phase + 1)
    ensures Partial(e, op, output, Phases(op)) == Apply(e, op, output)
  {
  }

  lemma WorkStepExec(b: Backends, program: seq<Submission>, width: nat, st: State, s: nat)
    requires WellFormed(program, width) && Invariant(b, program, width, st)
    requires Enabled(program, st, Work(s))
    ensures var w := st.workers[s]; var h := w.queue[0].index; var op := w.queue[0].op;
            && h < |program| && s < width && !WorkStep(b, st, s).crashed
            && WorkStep(b, st, s).workers[s].exec ==
               Partial(Unthreaded(b, program, width, h)[s], op, OutputOf(b, program, width, h), w.phase + 1)
            && Partial(Unthreaded(b, program, width, h)[s], op, OutputOf(b, program, width, h), Phases(op)) ==
               Unthreaded(b, program, width, h + 1)[s]
  {
    assert WorkerOk(b, program, width, st, s);
    WorkerAgrees(b, program, width, st, s);
    var w := st.workers[s];
    ItemsHead(b, program, width, s, w.cursor, st.submitted);
    var h, op := w.queue[0].index, w.queue[0].op;
    StepsAddUp(Unthreaded(b, program, width, h)[s], op, OutputOf(b, program, width, h), w.phase);
    assert Unthreaded(b, program, width, h + 1)[s] ==
           Apply(Unthreaded(b, program, width, h)[s], program[h].op, OutputOf(b, program, width, h));
  }

  lemma MidStepKeepsWorker(b: Backends, program: seq<Submission>, width: nat, st: State, s: nat)
    requires WellFormed(program, width) && Invariant(b, program, width, st)
    requires Enabled(program, st, Work(s))
    requires st.workers[s].phase + 1 < Phases(st.workers[s].queue[0].op)
    ensures s < width && WorkerOk(b, program, width, WorkStep(b, st, s), s)
  {
    assert WorkerOk(b, program, width, st, s);
    WorkerAgrees(b, program, width, st, s);
    WorkStepExec(b, program, width, st, s);
  }

  lemma FinishedQueueOk(b: Backends, program: seq<Submission>, width: nat, st: State, st': State, s: nat)
    requires st.submitted <= |program| && |st.workers| == width == |st'.workers| && s < width
    requires QueueOk(b, program, width, st, s) && st.workers[s].queue != []
    requires st'.submitted == st.submitted
    requires var w, w' := st.workers[s], st'.workers[s];
             w'.cursor == w.queue[0].index + 1 && w'.phase == 0 && w'.queue == w.queue[1..]
    ensures QueueOk(b, program, width, st', s)
  {
    ItemsHead(b, program, width, s, st.workers[s].cursor, st.submitted);
  }

  lemma LastStepKeepsWorker(b: Backends, program: seq<Submission>, width: nat, st: State, s: nat)
    requires WellFormed(program, width) && Invariant(b, program, width, st)
    requires Enabled(program, st, Work(s))
    requires st.workers[s].phase + 1 == Phases(st.workers[s].queue[0].op)
    ensures s < width && WorkerOk(b, program, width, WorkStep(b, st, s), s)
  {
    assert WorkerOk(b, program, width, st, s);
    WorkStepExec(b, program, width, st, s);
    FinishedQueueOk(b, program, width, st, WorkStep(b, st, s), s);
  }

  /** Whether a definition has run changes in the step that sets its event, and in no other. */
  lemma HasRunAfterStep(b: Backends, program: seq<Submission>, width: nat, st: State, s: nat, d: nat)
    requires InBounds(program, width, st) && s < width && QueueOk(b, program, width, st, s)
    requires Enabled(program, st, Work(s)) && WorkerOutput(b(s), st, st.workers[s], st.workers[s].queue[0].op).Some?
    ensures var w := st.workers[s]; var item := w.queue[0];
            HasRun(WorkStep(b, st, s).workers[s], d) ==
            (HasRun(w, d) ||
             (item.index == d && (w.phase + 1 == Phases(item.op) || (item.op.Select? && w.phase + 1 >= 2))) ||
             (w.phase + 1 == Phases(item.op) && d < item.index))
  {
    var w := st.workers[s];
    ItemsHead(b, program, width, s, w.cursor, st.submitted);
    ItemsHead(b, program, width, s, w.queue[0].index + 1, st.submitted);
  }

  lemma WorkKeepsEvents(b: Backends, program: seq<Submission>, width: nat, st: State, s: nat, d: nat, source: nat,
                        name: string)
    requires InBounds(program, width, st) && s < width && source < width
    requires source == s ==> WorkerOk(b, program, width, st, s) && EventsAreNamed(program, st, s)
    requires Enabled(program, st, Work(s)) && WorkerOutput(b(s), st, st.workers[s], st.workers[s].queue[0].op).Some?
    requires SoleDefinition(program, d, source, name) && EventOk(program, st, d, source, name)
    ensures EventOk(program, WorkStep(b, st, s), d, source, name)
  {
    if source == s {
      HasRunAfterStep(b, program, width, st, s, d);
      var w := st.workers[s];
      ItemsHead(b, program, width, s, w.cursor, st.submitted);
      assert IsDefinition(program, w.queue[0].index, source, name) ==> w.queue[0].index == d;
      assert Queued(b, program, width, w.queue[0].index) == w.queue[0].op;
    }
  }

  lemma WorkKeepsOthers(b: Backends, program: seq<Submission>, width: nat, st: State, s: nat, s': nat)
    requires WellFormed(program, width) && Invariant(b, program, width, st)
    requires Enabled(program, st, Work(s)) && s < width && s' < width
    requires WorkerOutput(b(s), st, st.workers[s], st.workers[s].queue[0].op).Some?
    ensures s' != s ==> WorkerOk(b, program, width, WorkStep(b, st, s), s')
    ensures AwaitsDefinition(program, WorkStep(b, st, s).workers[s'])
    ensures EventsAreNamed(program, WorkStep(b, st, s), s')
  {
    assert WorkerOk(b, program, width, st, s') && AwaitsDefinition(program, st.workers[s']);
    assert EventsAreNamed(program, st, s');
    if s' == s && st.workers[s].queue[0].op.Read? {
      HeadIsRead(b, program, width, st, s);
      ReadSeesDefinition(b, program, width, st, st.workers[s].queue[0].index);
    }
  }

  lemma WorkKeeps(b: Backends, program: seq<Submission>, width: nat, st: State, s: nat)
    requires WellFormed(program, width) && Invariant(b, program, width, st)
    requires Enabled(program, st, Work(s))
    ensures Invariant(b, program, width, WorkStep(b, st, s))
  {
    var st' := WorkStep(b, st, s);
    WorkerAgrees(b, program, width, st, s);
    assert WorkerOk(b, program, width, st, s) && EventsAreNamed(program, st, s);
    if st.workers[s].phase + 1 < Phases(st.workers[s].queue[0].op) {
      MidStepKeepsWorker(b, program, width, st, s);
    } else {
      LastStepKeepsWorker(b, program, width, st, s);
    }
    forall s': nat | s' < width
      ensures WorkerOk(b, program, width, st', s') && AwaitsDefinition(program, st'.workers[s'])
      ensures EventsAreNamed(program, st', s')
    {
      WorkKeepsOthers(b, program, width, st, s, s');
    }
    forall d: nat, source: nat, name: string | source < width && SoleDefinition(program, d, source, name)
      ensures EventOk(program, st', d, source, name)
    {
      assert EventOk(program, st, d, source, name);
      WorkKeepsEvents(b, program, width, st, s, d, source, name);
    }
  }

  lemma StepKeeps(b: Backends, program: seq<Submission>, width: nat, st: State, step: Step)
    requires WellFormed(program, width) && Invariant(b, program, width, st)
    requires Enabled(program, st, step)
    ensures Invariant(b, program, width, Perform(b, program, st, step))
  {
    match step
    case Prepare => PrepareKeeps(b, program, width, st);
    case Put => PutKeeps(b, program, width, st);
    case Work(s) => WorkKeeps(b, program, width, st, s);
  }

  lemma {:induction false} ScheduleKeeps(b: Backends, program: seq<Submission>, width: nat, st: State,
                                         schedule: seq<Step>)
    requires WellFormed(program, width) && Invariant(b, program, width, st)
    requires Schedulable(b, program, st, schedule)
    ensures Invariant(b, program, width, After(b, program, st, schedule))
    decreases |schedule|
  {
    if schedule != [] {
      StepKeeps(b, program, width, st, schedule[0]);
      ScheduleKeeps(b, program, width, Perform(b, program, st, schedule[0]), schedule[1..]);
    }
  }

  // ----- the three theorems -----

  /** Confluence: no schedule reads a missing variable, and whenever all work is done
      every stream is exactly as the unthreaded run leaves it. */
  lemma EveryScheduleAgrees(b: Backends, program: seq<Submission>, width: nat, schedule: seq<Step>)
    requires WellFormed(program, width)
    requires Schedulable(b, program, Initial(width), schedule)
    ensures var st := After(b, program, Initial(width), schedule);
            && |st.workers| == width && !st.crashed
            && (Finished(program, st) ==>
                  forall s :: 0 <= s < width ==> st.workers[s].exec == Unthreaded(b, program, width, |program|)[s])
  {
    ScheduleKeeps(b, program, width, Initial(width), schedule);
    var st := After(b, program, Initial(width), schedule);
    if Finished(program, st) {
      forall s: nat | s < width
        ensures st.workers[s].exec == Unthreaded(b, program, width, |program|)[s]
      {
        assert WorkerOk(b, program, width, st, s);
        ItemsHead(b, program, width, s, st.workers[s].cursor, st.submitted);
        StreamIsIdle(b, program, width, s, st.workers[s].cursor, |program|);
      }
    }
  }

  /** The stream whose next expression was submitted first. */
  lemma {:induction false} EarliestHead(st: State, n: nat) returns (s: nat)
    requires n <= |st.workers|
    requires exists i :: 0 <= i < n && st.workers[i].queue != []
    ensures s < n && st.workers[s].queue != []
    ensures forall i :: 0 <= i < n && st.workers[i].queue != [] ==>
              st.workers[s].queue[0].index <= st.workers[i].queue[0].index
  {
    if exists i :: 0 <= i < n - 1 && st.workers[i].queue != [] {
      s := EarliestHead(st, n - 1);
      if st.workers[n - 1].queue != [] && st.workers[n - 1].queue[0].index < st.workers[s].queue[0].index {
        s := n - 1;
      }
    } else {
      s := n - 1;
    }
  }

  /** A definition that every queue head comes at or after, and that no worker is at, has run. */
  lemma ServedRead(b: Backends, program: seq<Submission>, width: nat, st: State, j: nat)
    requires WellFormed(program, width) && Invariant(b, program, width, st)
    requires j < |program| && j <= st.submitted && program[j].op.Read? && ReadIsServed(program, j)
    requires forall s :: 0 <= s < width && st.workers[s].queue != [] ==> j <= st.workers[s].queue[0].index
    ensures DefinitionOf(program, j) in st.workers[program[j].op.source].isSet
    ensures EventOf(st, program[j].op.source, program[j].op.name) == Some(DefinitionOf(program, j))
  {
    var op := program[j].op;
    var d := DefinitionOf(program, j);
    assert EventOk(program, st, d, op.source, op.name);
    ReadSeesDefinition(b, program, width, st, j);
    var w := st.workers[op.source];
    assert WorkerOk(b, program, width, st, op.source);
    ItemsHead(b, program, width, op.source, w.cursor, st.submitted);
  }

  lemma EarliestIsEnabled(b: Backends, program: seq<Submission>, width: nat, st: State, s: nat)
    requires WellFormed(program, width) && Invariant(b, program, width, st)
    requires s < width && st.workers[s].queue != []
    requires forall o :: 0 <= o < width && st.workers[o].queue != [] ==>
               st.workers[s].queue[0].index <= st.workers[o].queue[0].index
    ensures Enabled(program, st, Work(s))
  {
    assert WorkerOk(b, program, width, st, s) && AwaitsDefinition(program, st.workers[s]);
    if st.workers[s].queue[0].op.Read? {
      HeadIsRead(b, program, width, st, s);
      ServedRead(b, program, width, st, st.workers[s].queue[0].index);
    }
  }

  /** No schedule blocks: while anything is left to do, some thread can take a step. */
  lemma NoDeadlock(b: Backends, program: seq<Submission>, width: nat, schedule: seq<Step>)
    requires WellFormed(program, width)
    requires Schedulable(b, program, Initial(width), schedule)
    requires !Finished(program, After(b, program, Initial(width), schedule))
    ensures exists step :: Enabled(program, After(b, program, Initial(width), schedule), step)
  {
    var st := After(b, program, Initial(width), schedule);
    ScheduleKeeps(b, program, width, Initial(width), schedule);
    if exists i :: 0 <= i < width && st.workers[i].queue != [] {
      var s := EarliestHead(st, width);
      EarliestIsEnabled(b, program, width, st, s);
    } else if st.prepared.Some? {
      assert Enabled(program, st, Put);
    } else {
      assert ReadIsServed(program, st.submitted);
      if program[st.submitted].op.Read? {
        ServedRead(b, program, width, st, st.submitted);
      }
      assert Enabled(program, st, Prepare);
    }
  }

  function Load(workers: seq<Worker>): int {
    if workers == [] then 0
    else 3 * |workers[0].queue| - workers[0].phase + Load(workers[1..])
  }

  lemma {:induction false} LoadOfUpdate(workers: seq<Worker>, s: nat, w: Worker)
    requires s < |workers|
    ensures Load(workers[s := w]) ==
            Load(workers) + (3 * |w.queue| - w.phase) - (3 * |workers[s].queue| - workers[s].phase)
  {
    var workers' := workers[s := w];
    if s == 0 {
      assert workers'[1..] == workers[1..];
    } else {
      assert workers'[1..] == workers[1..][s - 1 := w];
      LoadOfUpdate(workers[1..], s - 1, w);
    }
  }

  lemma {:induction false} LoadIsNat(workers: seq<Worker>)
    requires forall s :: 0 <= s < |workers| ==> workers[s].phase <= 3 * |workers[s].queue|
    ensures Load(workers) >= 0
  {
    if workers != [] {
      LoadIsNat(workers[1..]);
    }
  }

  /** The small steps still to be taken, at most. */
  function Remaining(program: seq<Submission>, st: State): int {
    5 * (|program| - st.submitted) - (if st.prepared.Some? then 1 else 0) + Load(st.workers)
  }

  lemma StepUsesUp(b: Backends, program: seq<Submission>, width: nat, st: State, step: Step)
    requires InBounds(program, width, st)
    requires Enabled(program, st, step) && !Perform(b, program, st, step).crashed
    requires step.Work? ==> QueueOk(b, program, width, st, step.stream)
    requires step.Prepare? ==> program[st.submitted].stream < width
    ensures Remaining(program, Perform(b, program, st, step)) < Remaining(program, st)
  {
    var st' := Perform(b, program, st, step);
    match step
    case Prepare =>
      var s := program[st.submitted].stream;
      LoadOfUpdate(st.workers, s, st'.workers[s]);
      assert st.workers[s := st.workers[s]] == st.workers;
    case Put =>
      var s := program[st.submitted].stream;
      LoadOfUpdate(st.workers, s, st'.workers[s]);
    case Work(s) =>
      LoadOfUpdate(st.workers, s, st'.workers[s]);
  }

  lemma RemainingIsNat(b: Backends, program: seq<Submission>, width: nat, st: State)
    requires InBounds(program, width, st) && forall s :: 0 <= s < width ==> QueueOk(b, program, width, st, s)
    requires st.prepared.Some? ==> st.submitted < |program|
    ensures Remaining(program, st) >= 0
  {
    forall s | 0 <= s < width
      ensures st.workers[s].phase <= 3 * |st.workers[s].queue|
    {
      assert QueueOk(b, program, width, st, s);
    }
    LoadIsNat(st.workers);
  }

  lemma {:induction false} RemainingBounds(b: Backends, program: seq<Submission>, width: nat, st: State,
                                           schedule: seq<Step>)
    requires WellFormed(program, width) && Invariant(b, program, width, st)
    requires Schedulable(b, program, st, schedule)
    ensures |schedule| <= Remaining(program, st)
    decreases |schedule|
  {
    if schedule == [] {
      RemainingIsNat(b, program, width, st);
    } else {
      StepKeeps(b, program, width, st, schedule[0]);
      StepUsesUp(b, program, width, st, schedule[0]);
      RemainingBounds(b, program, width, Perform(b, program, st, schedule[0]), schedule[1..]);
    }
  }

  /** Every schedule ends: it takes at most five small steps for each submission. */
  lemma EveryScheduleEnds(b: Backends, program: seq<Submission>, width: nat, schedule: seq<Step>)
    requires WellFormed(program, width)
    requires Schedulable(b, program, Initial(width), schedule)
    ensures |schedule| <= 5 * |program|
  {
    RemainingBounds(b, program, width, Initial(width), schedule);
    IdleLoad(width);
  }

  lemma {:induction false} IdleLoad(width: nat)
    ensures Load(Initial(width).workers) == 0
  {
    if width > 0 {
      assert Initial(width).workers[1..] == Initial(width - 1).workers;
      IdleLoad(width - 1);
    }
  }
}
