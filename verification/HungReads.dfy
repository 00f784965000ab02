/** Names that are defined more than once on a stream: registering a name again replaces its event, and a
    reader that waits for the old one may wait forever. */
module HungReads {
  import opened Prelude
  import opened Ir
  import opened Network
  import opened NetworkProofs
  import opened StreamRuns

  /** A read of a variable that was defined before, of whatever stream; what precedes it on its own stream
      and on that one reads nothing. */
  ghost predicate ReadsFrom(program: seq<Submission>, width: nat, d: nat, j: nat) {
    && WorkersRead(program, width) && d < j < |program| && program[j].op.Read?
    && IsDefinition(program, d, program[j].op.source, program[j].op.name)
    && Asks(program, program[j].stream, 0, j) && Asks(program, program[j].op.source, 0, j)
  }

  predicate HasRead(program: seq<Submission>, st: State, j: nat)
    requires j < |program|
  {
    program[j].stream < |st.workers| && j < st.workers[program[j].stream].cursor
  }

  /** From this state on some schedule executes the read. */
  ghost predicate CanRead(b: Backends, program: seq<Submission>, st: State, j: nat)
    requires j < |program|
  {
    exists st' :: Reaches(b, program, st, st') && HasRead(program, st', j)
  }

  ghost predicate NeverHangs(b: Backends, program: seq<Submission>, width: nat, j: nat)
    requires j < |program|
  {
    forall st :: Reaches(b, program, Initial(width), st) ==> CanRead(b, program, st, j)
  }

  // ----- a later definition: its registration may replace the event before that is set -----

  /** The read waits for an event that is not set, and that nothing will set: either its name stands for
      another event by now, or only expressions behind the read would set it. */
  predicate Hung(program: seq<Submission>, st: State, j: nat)
    requires j < |program| && program[j].op.Read?
  {
    var s, source := program[j].stream, program[j].op.source;
    && s < |st.workers| && source < |st.workers|
    && var w := st.workers[s];
    && Reading(w) && w.queue[0] == Item(j, program[j].op) && w.cursor <= j && w.awaited.Some?
    && Registered(st, w.awaited.value) && w.awaited.value !in st.workers[source].isSet
    && (source == s || w.awaited.value !in st.workers[source].events.Values)
  }

  lemma {:induction false} HungForever(b: Backends, program: seq<Submission>, st: State, schedule: seq<Step>, j: nat)
    requires j < |program| && program[j].op.Read? && Hung(program, st, j) && Schedulable(b, program, st, schedule)
    ensures Hung(program, After(b, program, st, schedule), j)
    decreases |schedule|
  {
    if schedule != [] {
      StaysHung(b, program, st, schedule[0], j);
      HungForever(b, program, Perform(b, program, st, schedule[0]), schedule[1..], j);
    }
  }

  lemma StaysHung(b: Backends, program: seq<Submission>, st: State, step: Step, j: nat)
    requires j < |program| && program[j].op.Read? && Hung(program, st, j) && Enabled(program, st, step)
    ensures Hung(program, Perform(b, program, st, step), j)
  {
    match step
    case Prepare => RegisteringKeepsHung(program, st, j);
    case Put =>
    case Work(s) => WorkingKeepsHung(b, program, st, s, j);
  }

  lemma RegisteringKeepsHung(program: seq<Submission>, st: State, j: nat)
    requires j < |program| && program[j].op.Read? && Hung(program, st, j) && Enabled(program, st, Prepare)
    ensures Hung(program, PrepareStep(program, st), j)
  {
    var source, st' := program[j].op.source, PrepareStep(program, st);
    var events, events' := st.workers[source].events, st'.workers[source].events;
    forall v | v in events'.Values
      ensures v in events.Values || v == st.submitted
    {
      var key :| key in events' && events'[key] == v;
      assert key in events && events[key] == v ==> v in events.Values;
    }
  }

  lemma WorkingKeepsHung(b: Backends, program: seq<Submission>, st: State, s: nat, j: nat)
    requires j < |program| && program[j].op.Read? && Hung(program, st, j) && Enabled(program, st, Work(s))
    ensures Hung(program, WorkStep(b, st, s), j)
  {
    var source := program[j].op.source;
    assert forall key :: key in st.workers[source].events ==>
        st.workers[source].events[key] in st.workers[source].events.Values;
  }

  lemma HungCannotRead(b: Backends, program: seq<Submission>, st: State, j: nat)
    requires j < |program| && program[j].op.Read? && Hung(program, st, j)
    ensures !CanRead(b, program, st, j)
  {
    forall st' | Reaches(b, program, st, st')
      ensures !HasRead(program, st', j)
    {
      var schedule :| Schedulable(b, program, st, schedule) && After(b, program, st, schedule) == st';
      HungForever(b, program, st, schedule, j);
    }
  }

  /** A stream on which nothing precedes submission j but text and questions for the model comes to it. */
  lemma {:induction false} ComesTo(b: Backends, program: seq<Submission>, width: nat, st: State, j: nat)
    returns (st': State)
    requires WorkersRead(program, width) && RunOk(b, program, width, st) && j < st.submitted
    requires st.workers[program[j].stream].cursor <= j && Asks(program, program[j].stream, 0, j)
    ensures Continues(b, program, width, st, st') && st' == st.(workers := st'.workers)
    ensures forall o :: 0 <= o < width && o != program[j].stream ==> st'.workers[o] == st.workers[o]
    ensures var w, w' := st.workers[program[j].stream], st'.workers[program[j].stream];
            && w'.queue != [] && w'.queue[0] == Item(j, program[j].op) && w'.cursor <= j
            && (w.phase == 0 ==> w'.phase == 0)
    decreases j - st.workers[program[j].stream].cursor
  {
    var s := program[j].stream;
    assert StreamKept(b, program, width, st, s);
    ItemsHead(b, program, width, s, st.workers[s].cursor, st.submitted);
    HeadOf(b, program, width, st, s);
    if st.workers[s].queue[0].index == j {
      Stay(b, program, st);
      st' := st;
    } else {
      var mid := FinishItem(b, program, width, st, s);
      st' := ComesTo(b, program, width, mid, j);
      Continue(b, program, width, st, mid, st');
    }
  }

  /** The read is looked up. */
  lemma LooksUp(b: Backends, program: seq<Submission>, width: nat, st: State, j: nat) returns (st': State)
    requires WorkersRead(program, width) && RunOk(b, program, width, st) && j < |program| && program[j].op.Read?
    requires var w := st.workers[program[j].stream];
             w.queue != [] && w.queue[0] == Item(j, program[j].op) && w.phase == 0
    ensures Reaches(b, program, st, st') && RunOk(b, program, width, st') && st' == st.(workers := st'.workers)
    ensures var s := program[j].stream; var w := st.workers[s];
            && st'.workers[s] == w.(phase := 1, output := "", isSet := st'.workers[s].isSet,
                                    awaited := EventOf(st, program[j].op.source, program[j].op.name))
            && st'.workers[s].isSet == w.isSet
            && (forall o :: 0 <= o < width && o != s ==> st'.workers[o] == st.workers[o])
  {
    TakeStep(b, program, st, Work(program[j].stream));
    StepKeepsRun(b, program, width, st, Work(program[j].stream));
    st' := WorkStep(b, st, program[j].stream);
  }

  /** On its own stream, the read looks its event up after the later definition is registered. */
  lemma OwnReadHangs(b: Backends, program: seq<Submission>, width: nat, d: nat, j: nat, e: nat) returns (st: State)
    requires ReadsFrom(program, width, d, j) && program[j].op.source == program[j].stream
    requires j < e && IsDefinition(program, e, program[j].stream, program[j].op.name)
    ensures Reaches(b, program, Initial(width), st) && Hung(program, st, j)
  {
    StartIsOk(b, program, width);
    var submitted := SubmitUpTo(b, program, width, Initial(width), e);
    var ran := ComesTo(b, program, width, submitted, j);
    Continue(b, program, width, Initial(width), submitted, ran);
    assert StreamKept(b, program, width, ran, program[j].stream);
    SubmittingContinues(b, program, width, ran, Prepare);
    var registered := PrepareStep(program, ran);
    Continue(b, program, width, Initial(width), ran, registered);
    st := LooksUp(b, program, width, registered, j);
    Follow(b, program, Initial(width), registered, st);
  }

  /** On another stream, the read looks its event up while nothing has been executed there ... */
  lemma LooksUpEarly(b: Backends, program: seq<Submission>, width: nat, d: nat, j: nat) returns (st: State)
    requires ReadsFrom(program, width, d, j) && program[j].op.source != program[j].stream
    ensures Reaches(b, program, Initial(width), st) && RunOk(b, program, width, st)
    ensures st.submitted == j + 1 && st.prepared == None && st.workers[program[j].op.source].isSet == {}
    ensures var w := st.workers[program[j].stream];
            && Reading(w) && w.queue[0] == Item(j, program[j].op) && w.cursor <= j && w.awaited.Some?
            && w.awaited.value <= j && IsDefinition(program, w.awaited.value, program[j].op.source,
                                                    program[j].op.name)
  {
    StartIsOk(b, program, width);
    var submitted := SubmitUpTo(b, program, width, Initial(width), j + 1);
    var ran := ComesTo(b, program, width, submitted, j);
    Continue(b, program, width, Initial(width), submitted, ran);
    st := LooksUp(b, program, width, ran, j);
    Follow(b, program, Initial(width), ran, st);
    FindsSome(b, program, width, ran, d, j);
  }

  lemma SubmittedStaysHeld(b: Backends, program: seq<Submission>, width: nat, st: State, st': State, j: nat)
    requires WorkersRead(program, width) && RunOk(b, program, width, st) && RunOk(b, program, width, st')
    requires j < |program| && st.submitted <= st'.submitted
    requires var s := program[j].stream;
             st'.workers[s] == st.workers[s].(queue := st'.workers[s].queue, events := st'.workers[s].events)
    requires var w := st.workers[program[j].stream]; w.queue != [] && w.queue[0].index == j
    ensures var w, w' := st.workers[program[j].stream], st'.workers[program[j].stream];
            w'.queue != [] && w'.queue[0] == w.queue[0]
  {
    var s := program[j].stream;
    assert StreamKept(b, program, width, st, s) && StreamKept(b, program, width, st', s);
    HeadOf(b, program, width, st, s);
    ItemsHead(b, program, width, s, st'.workers[s].cursor, st'.submitted);
    HeadOf(b, program, width, st', s);
  }

  /** ... and then the later definition replaces it. */
  lemma OtherReadHangs(b: Backends, program: seq<Submission>, width: nat, d: nat, j: nat, e: nat) returns (st: State)
    requires ReadsFrom(program, width, d, j) && program[j].op.source != program[j].stream
    requires j < e && IsDefinition(program, e, program[j].op.source, program[j].op.name)
    ensures Reaches(b, program, Initial(width), st) && Hung(program, st, j)
  {
    var looked := LooksUpEarly(b, program, width, d, j);
    var later := SubmitUpTo(b, program, width, looked, e);
    Follow(b, program, Initial(width), looked, later);
    SubmittedStaysHeld(b, program, width, looked, later, j);
    SubmittingContinues(b, program, width, later, Prepare);
    st := PrepareStep(program, later);
    Follow(b, program, Initial(width), later, st);
    var s, source := program[j].stream, program[j].op.source;
    assert st.workers[s] == later.workers[s].(events := st.workers[s].events);
    assert st.workers[source].isSet == later.workers[source].isSet;
    Replaced(b, program, width, st, looked.workers[s].awaited.value, e, j);
  }

  lemma FindsSome(b: Backends, program: seq<Submission>, width: nat, st: State, d: nat, j: nat)
    requires ReadsFrom(program, width, d, j) && RunOk(b, program, width, st) && st.submitted == j + 1
    requires st.prepared == None
    ensures var found := EventOf(st, program[j].op.source, program[j].op.name);
            found.Some? && found.value <= j && IsDefinition(program, found.value, program[j].op.source,
                                                            program[j].op.name)
  {
    assert StreamKept(b, program, width, st, program[j].op.source);
    assert Registered(st, d) && Stores(program, d, program[j].op.source, Some(program[j].op.name));
  }

  lemma Replaced(b: Backends, program: seq<Submission>, width: nat, st: State, v: nat, e: nat, j: nat)
    requires WorkersRead(program, width) && RunOk(b, program, width, st) && j < |program| && program[j].op.Read?
    requires IsDefinition(program, v, program[j].op.source, program[j].op.name) && v < e && Registered(st, e)
    requires IsDefinition(program, e, program[j].op.source, program[j].op.name)
    ensures v !in st.workers[program[j].op.source].events.Values
  {
    var source := program[j].op.source;
    assert StreamKept(b, program, width, st, source);
    assert Stores(program, e, source, Some(program[j].op.name));
    forall key | key in st.workers[source].events
      ensures st.workers[source].events[key] != v
    {
      assert Stores(program, st.workers[source].events[key], source, key);
    }
  }

  lemma LaterDefinitionHangs(b: Backends, program: seq<Submission>, width: nat, d: nat, j: nat, e: nat)
    returns (st: State)
    requires ReadsFrom(program, width, d, j)
    requires j < e && IsDefinition(program, e, program[j].op.source, program[j].op.name)
    ensures Reaches(b, program, Initial(width), st) && Hung(program, st, j)
  {
    if program[j].op.source == program[j].stream {
      st := OwnReadHangs(b, program, width, d, j, e);
    } else {
      st := OtherReadHangs(b, program, width, d, j, e);
    }
  }

  // ----- no later definition: the last event is looked up, and it is set in time -----

  /** When the last definition has run, its event is set and the variable is there. */
  lemma LastIsSet(b: Backends, program: seq<Submission>, width: nat, st: State, last: nat, source: nat, name: string)
    requires RunOk(b, program, width, st) && source < width && LastDefinition(program, last, source, name)
    requires HasRun(st.workers[source], last)
    ensures last in st.workers[source].isSet && Lookup(st, source, name).Some?
  {
    assert StreamKept(b, program, width, st, source);
    RunIsRegistered(b, program, width, st, source, last);
    assert Stores(program, last, source, Some(name));
    var e := st.workers[source].events[Some(name)];
    assert Stores(program, e, source, Some(name)) && IsDefinition(program, e, source, name);
  }

  /** A read that is next is executed when the last definition of its name has run. */
  lemma ReadsNext(b: Backends, program: seq<Submission>, width: nat, st: State, last: nat, j: nat)
    requires WorkersRead(program, width) && RunOk(b, program, width, st) && last < j < |program|
    requires program[j].op.Read? && program[j].op.source < width
    requires LastDefinition(program, last, program[j].op.source, program[j].op.name)
    requires HasRun(st.workers[program[j].op.source], last)
    requires var w := st.workers[program[j].stream]; w.queue != [] && w.queue[0] == Item(j, program[j].op)
    ensures CanRead(b, program, st, j)
  {
    var s, source := program[j].stream, program[j].op.source;
    var looked := st;
    if st.workers[s].phase == 0 {
      looked := LooksUp(b, program, width, st, j);
    } else {
      Stay(b, program, st);
    }
    assert StreamKept(b, program, width, looked, s) && StreamKept(b, program, width, st, s);
    LastIsSet(b, program, width, looked, last, source, program[j].op.name);
    TakeStep(b, program, looked, Work(s));
    Follow(b, program, st, looked, WorkStep(b, looked, s));
    assert HasRead(program, WorkStep(b, looked, s), j);
  }

  /** The source runs through the last definition, and then the stream of the read comes to it. */
  lemma SourceThenReader(b: Backends, program: seq<Submission>, width: nat, st: State, last: nat, j: nat)
    returns (st': State)
    requires WorkersRead(program, width) && RunOk(b, program, width, st) && last < j < st.submitted
    requires program[j].op.Read? && IsDefinition(program, last, program[j].op.source, program[j].op.name)
    requires Asks(program, program[j].stream, 0, j) && Asks(program, program[j].op.source, 0, j)
    requires !HasRead(program, st, j)
    ensures Continues(b, program, width, st, st') && HasRun(st'.workers[program[j].op.source], last)
    ensures var w := st'.workers[program[j].stream]; w.queue != [] && w.queue[0] == Item(j, program[j].op)
  {
    var s, source := program[j].stream, program[j].op.source;
    var ran := st;
    if st.workers[source].cursor <= last {
      ran := RunThrough(b, program, width, st, source, last);
    } else {
      Stay(b, program, st);
    }
    assert ran.workers[source].cursor > last;
    st' := ComesTo(b, program, width, ran, j);
    Continue(b, program, width, st, ran, st');
    if source == s {
      assert StreamKept(b, program, width, st', s);
      HeadOf(b, program, width, st', s);
    }
  }

  lemma ReadsEventually(b: Backends, program: seq<Submission>, width: nat, st: State, last: nat, d: nat, j: nat)
    requires ReadsFrom(program, width, d, j) && RunOk(b, program, width, st) && last < j
    requires LastDefinition(program, last, program[j].op.source, program[j].op.name)
    ensures CanRead(b, program, st, j)
  {
    if HasRead(program, st, j) {
      Stay(b, program, st);
    } else {
      var n := if st.submitted <= j then j + 1 else if st.prepared.Some? then st.submitted + 1 else st.submitted;
      var submitted := SubmitUpTo(b, program, width, st, n);
      var ran := SourceThenReader(b, program, width, submitted, last, j);
      Continue(b, program, width, st, submitted, ran);
      ReadsNext(b, program, width, ran, last, j);
      var st' :| Reaches(b, program, ran, st') && HasRead(program, st', j);
      Follow(b, program, st, ran, st');
    }
  }

  /** Such a read can always still be executed, whatever was scheduled so far and whatever the model
      answers, exactly when no later expression defines its variable again. */
  lemma ReadNeverHangsIff(b: Backends, program: seq<Submission>, width: nat, d: nat, j: nat)
    requires ReadsFrom(program, width, d, j)
    ensures NeverHangs(b, program, width, j) <==>
            forall k: nat :: IsDefinition(program, k, program[j].op.source, program[j].op.name) ==> k < j
  {
    var source, name := program[j].op.source, program[j].op.name;
    if forall k: nat :: IsDefinition(program, k, source, name) ==> k < j {
      var last := LatestDefinition(program, source, name, d, j);
      StartIsOk(b, program, width);
      forall st | Reaches(b, program, Initial(width), st)
        ensures CanRead(b, program, st, j)
      {
        var schedule :| Schedulable(b, program, Initial(width), schedule) &&
                        After(b, program, Initial(width), schedule) == st;
        RunStaysOk(b, program, width, Initial(width), schedule);
        ReadsEventually(b, program, width, st, last, d, j);
      }
    } else {
      var e: nat :| IsDefinition(program, e, source, name) && j <= e;
      var st := LaterDefinitionHangs(b, program, width, d, j, e);
      HungCannotRead(b, program, st, j);
    }
  }

  /** What a compiled function submits that generates x, passes it to another function, and generates x
      again. */
  function ReusedName(params: Params): seq<Submission> {
    var x := Op.Gen(Some("x"), params);
    [Submission(0, x), Submission(1, Read(0, "x", true)), Submission(0, x)]
  }

  lemma ReusedNameHangs(b: Backends, params: Params)
    ensures !NeverHangs(b, ReusedName(params), 2, 1)
  {
    assert IsDefinition(ReusedName(params), 2, 0, "x") && IsDefinition(ReusedName(params), 0, 0, "x");
    ReadNeverHangsIff(b, ReusedName(params), 2, 0, 1);
  }

  // ----- whole programs -----

  /** Every read comes after all definitions of its variable, and there is one. */
  ghost predicate ReadsComeLast(program: seq<Submission>, width: nat) {
    WorkersRead(program, width) &&
    forall j: nat :: j < |program| && program[j].op.Read? ==> ReadComesLast(program, j)
  }

  ghost predicate ReadComesLast(program: seq<Submission>, j: nat)
    requires j < |program| && program[j].op.Read?
  {
    exists d: nat :: d < j && LastDefinition(program, d, program[j].op.source, program[j].op.name)
  }

  lemma ReadHeadWaits(b: Backends, program: seq<Submission>, width: nat, st: State, s: nat) returns (d: nat)
    requires ReadsComeLast(program, width) && RunOk(b, program, width, st) && s < width && Reading(st.workers[s])
    ensures var item := st.workers[s].queue[0];
            && d < item.index < st.submitted && st.workers[s].awaited == Some(d) && item.op.source < width
            && LastDefinition(program, d, item.op.source, item.op.name)
  {
    assert StreamKept(b, program, width, st, s);
    HeadOf(b, program, width, st, s);
    var item := st.workers[s].queue[0];
    assert ReadComesLast(program, item.index);
    d :| d < item.index && LastDefinition(program, d, item.op.source, item.op.name);
    assert program[d].stream == item.op.source;
  }

  /** No read finds its variable missing. */
  lemma NothingIsMissing(b: Backends, program: seq<Submission>, width: nat, st: State, step: Step)
    requires ReadsComeLast(program, width) && RunOk(b, program, width, st) && Enabled(program, st, step)
    ensures Perform(b, program, st, step).crashed == st.crashed
  {
    if step.Work? && Reading(st.workers[step.stream]) {
      var d := ReadHeadWaits(b, program, width, st, step.stream);
      var op := st.workers[step.stream].queue[0].op;
      assert StreamKept(b, program, width, st, op.source);
      var k: nat :| k <= d && HasRun(st.workers[op.source], k) && IsDefinition(program, k, op.source, op.name);
    }
  }

  /** A read before which nothing is left to execute on any stream need not wait. */
  lemma EarliestReadIsSet(b: Backends, program: seq<Submission>, width: nat, st: State, s: nat)
    requires ReadsComeLast(program, width) && RunOk(b, program, width, st) && s < width && Reading(st.workers[s])
    requires forall o :: 0 <= o < width && st.workers[o].queue != [] ==>
               st.workers[s].queue[0].index <= st.workers[o].queue[0].index
    ensures Enabled(program, st, Work(s))
  {
    var d := ReadHeadWaits(b, program, width, st, s);
    var op := st.workers[s].queue[0].op;
    assert StreamKept(b, program, width, st, op.source);
    ItemsHead(b, program, width, op.source, st.workers[op.source].cursor, st.submitted);
    LastIsSet(b, program, width, st, d, op.source, op.name);
  }

  lemma SomethingIsEnabled(b: Backends, program: seq<Submission>, width: nat, st: State)
    requires ReadsComeLast(program, width) && RunOk(b, program, width, st) && !Finished(program, st)
    ensures exists step :: Enabled(program, st, step)
  {
    if exists i :: 0 <= i < width && st.workers[i].queue != [] {
      var s := EarliestHead(st, width);
      assert StreamKept(b, program, width, st, s);
      if Reading(st.workers[s]) {
        EarliestReadIsSet(b, program, width, st, s);
      }
      assert Enabled(program, st, Work(s));
    } else if st.prepared.Some? {
      assert Enabled(program, st, Put);
    } else {
      assert Enabled(program, st, Prepare);
    }
  }

  lemma {:induction false} ScheduleIsBounded(b: Backends, program: seq<Submission>, width: nat, st: State,
                                             schedule: seq<Step>)
    requires ReadsComeLast(program, width) && RunOk(b, program, width, st) && !st.crashed
    requires Schedulable(b, program, st, schedule)
    ensures RunOk(b, program, width, After(b, program, st, schedule)) && !After(b, program, st, schedule).crashed
    ensures |schedule| <= Remaining(program, st)
    decreases |schedule|
  {
    if schedule == [] {
      forall s: nat | s < width
        ensures QueueOk(b, program, width, st, s)
      {
        assert StreamKept(b, program, width, st, s);
      }
      RemainingIsNat(b, program, width, st);
    } else {
      NothingIsMissing(b, program, width, st, schedule[0]);
      StepKeepsRun(b, program, width, st, schedule[0]);
      assert schedule[0].Work? ==> StreamKept(b, program, width, st, schedule[0].stream);
      StepUsesUp(b, program, width, st, schedule[0]);
      ScheduleIsBounded(b, program, width, Perform(b, program, st, schedule[0]), schedule[1..]);
    }
  }

  /** However often names are defined, if every read comes after all definitions of its variable, then no
      schedule misses a variable or blocks, and every schedule ends. */
  lemma NoReadIsHung(b: Backends, program: seq<Submission>, width: nat, schedule: seq<Step>)
    requires ReadsComeLast(program, width) && Schedulable(b, program, Initial(width), schedule)
    ensures var st := After(b, program, Initial(width), schedule);
            && !st.crashed && |schedule| <= 5 * |program|
            && (!Finished(program, st) ==> exists step :: Enabled(program, st, step))
  {
    StartIsOk(b, program, width);
    ScheduleIsBounded(b, program, width, Initial(width), schedule);
    IdleLoad(width);
    var st := After(b, program, Initial(width), schedule);
    if !Finished(program, st) {
      SomethingIsEnabled(b, program, width, st);
    }
  }
}
