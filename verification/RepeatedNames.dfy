/** Names that are defined more than once on a stream: a reader on another stream may see any of the
    values. */
module RepeatedNames {
  import opened Prelude
  import opened Ir
  import opened Executor
  import opened Network
  import opened NetworkProofs
  import opened StreamRuns
  import opened FixedLengthModels

  /** The first expression of its stream is a read from another stream, which has no reads itself, of a
      variable that was defined before. */
  ghost predicate ReadsElsewhere(program: seq<Submission>, width: nat, d: nat, j: nat) {
    && WorkersRead(program, width) && d < j < |program| && program[j].op.Read?
    && var source := program[j].op.source;
    && source != program[j].stream && source < width
    && IsDefinition(program, d, source, program[j].op.name) && Asks(program, source, 0, |program|)
    && forall k :: 0 <= k < j ==> program[k].stream != program[j].stream
  }

  /** When the read has been executed, its stream is as in the unthreaded run. */
  predicate ReadAgreesAt(b: Backends, program: seq<Submission>, width: nat, st: State, j: nat)
    requires j < |program| && program[j].stream < width
  {
    var s := program[j].stream;
    s < |st.workers| && st.workers[s].cursor == j + 1 && st.workers[s].phase == 0 ==>
      st.workers[s].exec == Unthreaded(b, program, width, j + 1)[s]
  }

  ghost predicate ReadAgrees(b: Backends, program: seq<Submission>, width: nat, j: nat)
    requires j < |program| && program[j].stream < width
  {
    forall schedule :: Schedulable(b, program, Initial(width), schedule) ==>
      ReadAgreesAt(b, program, width, After(b, program, Initial(width), schedule), j)
  }

  // One definition: every schedule agrees.

  ghost predicate ReadPending(b: Backends, program: seq<Submission>, width: nat, st: State, d: nat, j: nat)
    requires ReadsElsewhere(program, width, d, j)
  {
    var s, source := program[j].stream, program[j].op.source;
    && RunOk(b, program, width, st) && StreamOk(b, program, width, st, source)
    && var w := st.workers[s];
    if w.cursor == 0 then
      StreamOk(b, program, width, st, s)
    else
      && j < w.cursor && j < st.submitted && (forall i :: 0 <= i < |w.queue| ==> j < w.queue[i].index)
      && ReadAgreesAt(b, program, width, st, j)
  }

  lemma ReadIsFirst(b: Backends, program: seq<Submission>, width: nat, st: State, d: nat, j: nat)
    requires ReadsElsewhere(program, width, d, j) && ReadPending(b, program, width, st, d, j)
    requires st.workers[program[j].stream].cursor == 0 && st.workers[program[j].stream].queue != []
    ensures st.workers[program[j].stream].queue[0] == Item(j, program[j].op) && j < st.submitted
    ensures forall i :: 0 <= i < |st.workers[program[j].stream].queue[1..]| ==>
              j < st.workers[program[j].stream].queue[1..][i].index
  {
    var s := program[j].stream;
    ItemsHead(b, program, width, s, 0, st.submitted);
    HeadOf(b, program, width, st, s);
    ItemsAfter(b, program, width, s, j + 1, st.submitted);
  }

  lemma {:induction false} ItemsAfter(b: Backends, program: seq<Submission>, width: nat, s: nat, lo: nat, hi: nat)
    requires hi <= |program|
    ensures forall i :: 0 <= i < |Items(b, program, width, s, lo, hi)| ==>
              lo <= Items(b, program, width, s, lo, hi)[i].index < hi
  {
    if lo < hi {
      ItemsAfter(b, program, width, s, lo, hi - 1);
    }
  }

  lemma SubmittingKeepsRead(b: Backends, program: seq<Submission>, width: nat, st: State, step: Step, d: nat, j: nat)
    requires ReadsElsewhere(program, width, d, j) && ReadPending(b, program, width, st, d, j)
    requires Enabled(program, st, step) && !step.Work?
    ensures ReadPending(b, program, width, Perform(b, program, st, step), d, j)
  {
    var s, source := program[j].stream, program[j].op.source;
    StepKeepsRun(b, program, width, st, step);
    SubmittingIsOk(b, program, width, st, step, source);
    if st.workers[s].cursor == 0 {
      SubmittingIsOk(b, program, width, st, step, s);
    }
    SubmittingQueues(b, program, st, step, s);
  }

  /** Submitting leaves a worker as it is, but for its events and one more item. */
  lemma SubmittingQueues(b: Backends, program: seq<Submission>, st: State, step: Step, s: nat)
    requires s < |st.workers| && Enabled(program, st, step) && !step.Work?
    ensures var st' := Perform(b, program, st, step);
            && st.submitted <= st'.submitted && |st'.workers| == |st.workers|
            && st'.workers[s] == st.workers[s].(queue := st'.workers[s].queue, events := st'.workers[s].events)
            && |st.workers[s].queue| <= |st'.workers[s].queue|
            && (forall i :: 0 <= i < |st.workers[s].queue| ==> st'.workers[s].queue[i] == st.workers[s].queue[i])
            && (forall i :: |st.workers[s].queue| <= i < |st'.workers[s].queue| ==>
                  st'.workers[s].queue[i].index == st.submitted)
  {
  }

  lemma SourceKeepsRead(b: Backends, program: seq<Submission>, width: nat, st: State, d: nat, j: nat)
    requires ReadsElsewhere(program, width, d, j) && ReadPending(b, program, width, st, d, j)
    requires Enabled(program, st, Work(program[j].op.source))
    ensures ReadPending(b, program, width, Perform(b, program, st, Work(program[j].op.source)), d, j)
  {
    var s, source := program[j].stream, program[j].op.source;
    StepKeepsRun(b, program, width, st, Work(source));
    HeadOf(b, program, width, st, source);
    AskingIsOk(b, program, width, st, source);
    if st.workers[s].cursor == 0 {
      OthersAreOk(b, program, width, st, source, s);
    }
  }

  /** A reader that has looked for its event finds the value of the one definition. */
  lemma ReaderFinds(b: Backends, program: seq<Submission>, width: nat, st: State, d: nat, j: nat)
    requires ReadsElsewhere(program, width, d, j) && ReadPending(b, program, width, st, d, j)
    requires SoleDefinition(program, d, program[j].op.source, program[j].op.name)
    requires Enabled(program, st, Work(program[j].stream)) && st.workers[program[j].stream].cursor == 0
    requires st.workers[program[j].stream].phase == 1
    ensures Lookup(st, program[j].op.source, program[j].op.name) == Some(OutputOf(b, program, width, j))
  {
    var s, source, name := program[j].stream, program[j].op.source, program[j].op.name;
    ReadIsFirst(b, program, width, st, d, j);
    assert StreamKept(b, program, width, st, s) && StreamKept(b, program, width, st, source);
    assert LastDefinition(program, d, source, name) && d in st.workers[source].isSet;
    LookupAfterDefinition(b, program, width, st, d, source, name);
    VariableIsKept(b, program, width, d, source, name, j);
  }

  lemma ReaderKeepsRead(b: Backends, program: seq<Submission>, width: nat, st: State, d: nat, j: nat)
    requires ReadsElsewhere(program, width, d, j) && ReadPending(b, program, width, st, d, j)
    requires SoleDefinition(program, d, program[j].op.source, program[j].op.name)
    requires Enabled(program, st, Work(program[j].stream)) && st.workers[program[j].stream].cursor == 0
    ensures ReadPending(b, program, width, Perform(b, program, st, Work(program[j].stream)), d, j)
  {
    var s, source := program[j].stream, program[j].op.source;
    ReadIsFirst(b, program, width, st, d, j);
    StepKeepsRun(b, program, width, st, Work(s));
    OthersAreOk(b, program, width, st, s, source);
    if st.workers[s].phase == 1 {
      ReaderFinds(b, program, width, st, d, j);
    }
    WorkingIsOk(b, program, width, st, s);
  }

  lemma StepKeepsRead(b: Backends, program: seq<Submission>, width: nat, st: State, step: Step, d: nat, j: nat)
    requires ReadsElsewhere(program, width, d, j) && ReadPending(b, program, width, st, d, j)
    requires SoleDefinition(program, d, program[j].op.source, program[j].op.name)
    requires Enabled(program, st, step)
    ensures ReadPending(b, program, width, Perform(b, program, st, step), d, j)
  {
    var s, source := program[j].stream, program[j].op.source;
    if !step.Work? {
      SubmittingKeepsRead(b, program, width, st, step, d, j);
    } else if step.stream == source {
      SourceKeepsRead(b, program, width, st, d, j);
    } else if step.stream == s && st.workers[s].cursor == 0 {
      ReaderKeepsRead(b, program, width, st, d, j);
    } else {
      OtherStepKeepsRead(b, program, width, st, step.stream, d, j);
    }
  }

  lemma OtherStepKeepsRead(b: Backends, program: seq<Submission>, width: nat, st: State, other: nat, d: nat, j: nat)
    requires ReadsElsewhere(program, width, d, j) && ReadPending(b, program, width, st, d, j)
    requires Enabled(program, st, Work(other)) && other != program[j].op.source
    requires other == program[j].stream ==> st.workers[other].cursor > 0
    ensures ReadPending(b, program, width, Perform(b, program, st, Work(other)), d, j)
  {
    var s := program[j].stream;
    StepKeepsRun(b, program, width, st, Work(other));
    OthersAreOk(b, program, width, st, other, program[j].op.source);
    if st.workers[s].cursor == 0 {
      OthersAreOk(b, program, width, st, other, s);
    }
  }

  lemma {:induction false} RunKeepsRead(b: Backends, program: seq<Submission>, width: nat, st: State,
                                           schedule: seq<Step>,
                                           d: nat, j: nat)
    requires ReadsElsewhere(program, width, d, j) && ReadPending(b, program, width, st, d, j)
    requires SoleDefinition(program, d, program[j].op.source, program[j].op.name)
    requires Schedulable(b, program, st, schedule)
    ensures ReadPending(b, program, width, After(b, program, st, schedule), d, j)
    decreases |schedule|
  {
    if schedule != [] {
      StepKeepsRead(b, program, width, st, schedule[0], d, j);
      RunKeepsRead(b, program, width, Perform(b, program, st, schedule[0]), schedule[1..], d, j);
    }
  }

  // Another definition: the reader may run just after it.

  lemma ReaderIsNext(b: Backends, program: seq<Submission>, width: nat, st: State, d: nat, j: nat)
    requires ReadsElsewhere(program, width, d, j) && StreamOk(b, program, width, st, program[j].stream)
    requires j < st.submitted
    requires st.workers[program[j].stream].cursor == 0 && st.workers[program[j].stream].phase == 0
    ensures var w := st.workers[program[j].stream];
            w.queue != [] && w.queue[0] == Item(j, program[j].op) && w.exec == FRESH
  {
    var s := program[j].stream;
    ItemsHead(b, program, width, s, 0, st.submitted);
    HeadOf(b, program, width, st, s);
    HeadStarts(b, program, width, st, s);
    StreamIsIdle(b, program, width, s, 0, j);
  }

  /** A reader that finds the event set reads in two steps. */
  lemma ReadsNow(b: Backends, program: seq<Submission>, width: nat, st: State, d: nat, j: nat) returns (st': State)
    requires ReadsElsewhere(program, width, d, j) && StreamOk(b, program, width, st, program[j].stream)
    requires j < st.submitted
    requires st.workers[program[j].stream].cursor == 0 && st.workers[program[j].stream].phase == 0
    requires EventSet(st.workers[program[j].op.source], Some(program[j].op.name))
    requires Lookup(st, program[j].op.source, program[j].op.name).Some?
    ensures Reaches(b, program, st, st') && |st'.workers| == width
    ensures var w := st'.workers[program[j].stream];
            && w.cursor == j + 1 && w.phase == 0
            && w.exec == Fill(FRESH, Lookup(st, program[j].op.source, program[j].op.name).value)
  {
    ReaderIsNext(b, program, width, st, d, j);
    st' := TwoSteps(b, program, st, program[j].stream);
  }

  lemma TwoSteps(b: Backends, program: seq<Submission>, st: State, s: nat) returns (st': State)
    requires s < |st.workers| && st.workers[s].queue != [] && st.workers[s].phase == 0
    requires var op := st.workers[s].queue[0].op;
             && op.Read? && op.source != s && op.source < |st.workers|
             && EventSet(st.workers[op.source], Some(op.name)) && Lookup(st, op.source, op.name).Some?
    ensures Reaches(b, program, st, st') && |st'.workers| == |st.workers|
    ensures var w, w' := st.workers[s], st'.workers[s]; var item := w.queue[0];
            && w'.cursor == item.index + 1 && w'.phase == 0
            && w'.exec == Fill(w.exec, Lookup(st, item.op.source, item.op.name).value)
  {
    LookThenRead(b, program, st, s);
    var looked := WorkStep(b, st, s);
    TakeStep(b, program, st, Work(s));
    TakeStep(b, program, looked, Work(s));
    st' := WorkStep(b, looked, s);
    Follow(b, program, st, looked, st');
  }

  lemma LookThenRead(b: Backends, program: seq<Submission>, st: State, s: nat)
    requires s < |st.workers| && st.workers[s].queue != [] && st.workers[s].phase == 0
    requires var op := st.workers[s].queue[0].op;
             && op.Read? && op.source != s && op.source < |st.workers|
             && EventSet(st.workers[op.source], Some(op.name)) && Lookup(st, op.source, op.name).Some?
    ensures Enabled(program, st, Work(s))
    ensures var w := st.workers[s]; var st1 := WorkStep(b, st, s);
            && |st1.workers| == |st.workers|
            && st1.workers[s] == w.(phase := 1, output := "", isSet := st1.workers[s].isSet,
                                    awaited := EventOf(st, w.queue[0].op.source, w.queue[0].op.name))
            && Enabled(program, st1, Work(s))
            && var st2 := WorkStep(b, st1, s);
            && |st2.workers| == |st.workers|
            && st2.workers[s].phase == 0 && st2.workers[s].cursor == w.queue[0].index + 1
            && st2.workers[s].exec == Fill(w.exec, Lookup(st, w.queue[0].op.source, w.queue[0].op.name).value)
  {
  }

  /** The source may be just past any definition when the reader has not started. */
  lemma SourceRunsTo(b: Backends, program: seq<Submission>, width: nat, d: nat, j: nat, e: nat) returns (st: State)
    requires ReadsElsewhere(program, width, d, j)
    requires IsDefinition(program, e, program[j].op.source, program[j].op.name)
    ensures Reaches(b, program, Initial(width), st) && StreamOk(b, program, width, st, program[j].stream)
    ensures st.workers[program[j].stream].cursor == 0 && st.workers[program[j].stream].phase == 0 && j < st.submitted
    ensures StreamOk(b, program, width, st, program[j].op.source)
    ensures st.workers[program[j].op.source].phase == 0 && st.workers[program[j].op.source].cursor == e + 1
    ensures EventSet(st.workers[program[j].op.source], Some(program[j].op.name))
  {
    var s, source := program[j].stream, program[j].op.source;
    StartIsOk(b, program, width);
    var submitted := SubmitUpTo(b, program, width, Initial(width), Max(j, e) + 1);
    st := RunThrough(b, program, width, submitted, source, e);
    Continue(b, program, width, Initial(width), submitted, st);
  }

  /** The reader may see the value of any definition. */
  lemma AnyDefinitionIsSeen(b: Backends, program: seq<Submission>, width: nat, d: nat, j: nat, e: nat)
    returns (st: State)
    requires ReadsElsewhere(program, width, d, j)
    requires IsDefinition(program, e, program[j].op.source, program[j].op.name)
    ensures Reaches(b, program, Initial(width), st) && |st.workers| == width
    ensures var w := st.workers[program[j].stream];
            w.cursor == j + 1 && w.phase == 0 && w.exec == Fill(FRESH, OutputOf(b, program, width, e))
  {
    var ran := SourceRunsTo(b, program, width, d, j, e);
    LatestIsRead(b, program, width, e, e + 1, program[j].op.name);
    st := ReadsNow(b, program, width, ran, d, j);
    Follow(b, program, Initial(width), ran, st);
  }

  /** A model that repeats the text and adds a letter: no two answers on a stream are equally long. */
  const GROWING: Backend := Backend((text, params) => text + "x", (text, choices) => text + "x")

  lemma LaterIsLonger(program: seq<Submission>, width: nat, e: nat, k: nat)
    requires e < k < |program| && program[e].stream == program[k].stream < width
    requires Defines(program[e].op).Some? && Defines(program[k].op).Some?
    ensures |OutputOf(Everywhere(GROWING), program, width, e)| < |OutputOf(Everywhere(GROWING), program, width, k)|
  {
    TextStays(Everywhere(GROWING), program, width, program[e].stream, e + 1, k);
    LengthGrows(Everywhere(GROWING), program, width, e, program[e].stream);
    GrowsByOne(program, width, e);
    GrowsByOne(program, width, k);
  }

  lemma GrowsByOne(program: seq<Submission>, width: nat, k: nat)
    requires k < |program| && program[k].stream < width && Defines(program[k].op).Some?
    ensures |OutputOf(Everywhere(GROWING), program, width, k)| ==
            |Unthreaded(Everywhere(GROWING), program, width, k)[program[k].stream].text| + 1
  {
  }

  lemma UnthreadedRead(b: Backends, program: seq<Submission>, width: nat, d: nat, j: nat) returns (k: nat)
    requires ReadsElsewhere(program, width, d, j)
    ensures k < j && IsDefinition(program, k, program[j].op.source, program[j].op.name)
    ensures Unthreaded(b, program, width, j + 1)[program[j].stream] == Fill(FRESH, OutputOf(b, program, width, k))
  {
    k := LatestDefinition(program, program[j].op.source, program[j].op.name, d, j);
    LatestIsRead(b, program, width, k, j, program[j].op.name);
    StreamIsIdle(b, program, width, program[j].stream, 0, j);
  }

  lemma AnotherDefinition(program: seq<Submission>, width: nat, d: nat, j: nat, k: nat) returns (e: nat)
    requires ReadsElsewhere(program, width, d, j) && IsDefinition(program, k, program[j].op.source, program[j].op.name)
    requires !SoleDefinition(program, d, program[j].op.source, program[j].op.name)
    ensures IsDefinition(program, e, program[j].op.source, program[j].op.name)
    ensures OutputOf(Everywhere(GROWING), program, width, e) != OutputOf(Everywhere(GROWING), program, width, k)
  {
    var other: nat :| IsDefinition(program, other, program[j].op.source, program[j].op.name) && other != d;
    e := if d == k then other else d;
    if e < k {
      LaterIsLonger(program, width, e, k);
    } else {
      LaterIsLonger(program, width, k, e);
    }
  }

  lemma OtherDefinitionRaces(program: seq<Submission>, width: nat, d: nat, j: nat)
    requires ReadsElsewhere(program, width, d, j)
    requires !SoleDefinition(program, d, program[j].op.source, program[j].op.name)
    ensures !ReadAgrees(Everywhere(GROWING), program, width, j)
  {
    var b := Everywhere(GROWING);
    var k := UnthreadedRead(b, program, width, d, j);
    var e := AnotherDefinition(program, width, d, j, k);
    var st := AnyDefinitionIsSeen(b, program, width, d, j, e);
    WrongValueDisagrees(b, program, width, st, d, j, k, e);
  }

  lemma WrongValueDisagrees(b: Backends, program: seq<Submission>, width: nat, st: State, d: nat, j: nat, k: nat,
                            e: nat)
    requires ReadsElsewhere(program, width, d, j) && k < |program| && e < |program|
    requires Reaches(b, program, Initial(width), st) && |st.workers| == width
    requires var w := st.workers[program[j].stream];
             w.cursor == j + 1 && w.phase == 0 && w.exec == Fill(FRESH, OutputOf(b, program, width, e))
    requires Unthreaded(b, program, width, j + 1)[program[j].stream] == Fill(FRESH, OutputOf(b, program, width, k))
    requires OutputOf(b, program, width, e) != OutputOf(b, program, width, k)
    ensures !ReadAgrees(b, program, width, j)
  {
    var schedule :| Schedulable(b, program, Initial(width), schedule) &&
                    After(b, program, Initial(width), schedule) == st;
    assert forall value :: Fill(FRESH, value).text == value;
    assert !ReadAgreesAt(b, program, width, st, j);
  }

  /** Such a read agrees with the unthreaded run, under every schedule and for every model, exactly when
      its variable is defined once in the whole program, even counting definitions after the read. */
  lemma ReadAgreesIffSole(program: seq<Submission>, width: nat, d: nat, j: nat)
    requires ReadsElsewhere(program, width, d, j)
    ensures (forall b: Backend :: ReadAgrees(Everywhere(b), program, width, j)) <==>
            SoleDefinition(program, d, program[j].op.source, program[j].op.name)
  {
    if SoleDefinition(program, d, program[j].op.source, program[j].op.name) {
      forall b: Backend
        ensures ReadAgrees(Everywhere(b), program, width, j)
      {
        forall schedule | Schedulable(Everywhere(b), program, Initial(width), schedule)
          ensures ReadAgreesAt(Everywhere(b), program, width,
                               After(Everywhere(b), program, Initial(width), schedule), j)
        {
          StartIsOk(Everywhere(b), program, width);
          assert ReadPending(Everywhere(b), program, width, Initial(width), d, j);
          RunKeepsRead(Everywhere(b), program, width, Initial(width), schedule, d, j);
        }
      }
    } else {
      OtherDefinitionRaces(program, width, d, j);
    }
  }
}
