/** The join-counted queue of an executor, its worker, and the drain after an error, with any
    number of threads submitting at the same time. */
module WorkerQueue {
  import opened Prelude
  import opened Ir

  /** Items are numbered in the order in which they are put. */
  datatype Item = Job(number: nat, defines: Option<Key>) | End(number: nat)

  /** Where the worker is: waiting for an item; with an item it has taken; about to acknowledge one it
      has executed; in the drain, about to acknowledge an item or to look for the next one; about to
      start setting events; setting them, in a dictionary that had `size` names at the start; gone; or
      dead, because the dictionary did not have that size any more when the loop went on. */
  datatype Place =
    | Waiting
    | Taken(item: Item)
    | Executed(item: Item)
    | Draining(item: Item)
    | Looking
    | Releasing
    | Setting(size: nat)
    | Gone(failed: bool)
    | Dead

  /** `unfinished` is the counter that `join` waits on. Events are known by numbers, in the order in which
      they are made: a `get_var` waits on the event its name stands for when it begins, and returns once
      that event is set. `names` has the names of the dictionary in order. The last four fields are
      history: the numbers of the items acknowledged so far, how many items had been put at the drain's
      last look, how many names the loop has visited, and whether an acknowledgement was ever one too
      many. */
  datatype State = State(
    queue: seq<Item>,
    unfinished: int,
    place: Place,
    names: seq<Key>,
    events: map<Key, nat>,
    made: nat,
    isSet: set<nat>,
    puts: nat,
    acknowledged: seq<nat>,
    putsAtLastLook: nat,
    visited: nat,
    overdrawn: bool)

  const START: State := State([], 0, Waiting, [], map[], 0, {}, 0, [], 0, 0, false)

  /** One atomic step: some thread registers a new event under a name, some thread puts a job or the end
      mark, or the worker takes its next step, in which executing a job may fail. */
  datatype Step = Register(key: Key) | PutJob(defines: Option<Key>) | PutEnd | Work(fails: bool)

  predicate Ended(place: Place) {
    place.Gone? || place.Dead?
  }

  predicate Enabled(st: State, step: Step) {
    step.Work? ==> !Ended(st.place) && (st.place.Waiting? ==> st.queue != [])
  }

  function Acknowledge(st: State, item: Item, next: Place): State {
    st.(unfinished := st.unfinished - 1,
        overdrawn := st.overdrawn || st.unfinished <= 0,
        acknowledged := st.acknowledged + [item.number],
        place := next)
  }

  /** Sets the event that a name stands for now. */
  function SetEvent(st: State, defines: Option<Key>): State {
    if defines.Some? && defines.value in st.events then st.(isSet := st.isSet + {st.events[defines.value]}) else st
  }

  /** The loop over the dictionary checks its size before every name, and once more at the end. */
  function Visit(st: State): State
    requires st.place.Setting?
  {
    if |st.names| != st.place.size then st.(place := Dead)
    else if st.visited < |st.names| then SetEvent(st, Some(st.names[st.visited])).(visited := st.visited + 1)
    else st.(place := Gone(true))
  }

  function Perform(st: State, step: Step): State
    requires Enabled(st, step)
  {
    match step
    case Register(key) =>
      st.(names := if key in st.events then st.names else st.names + [key],
          events := st.events[key := st.made], made := st.made + 1)
    case PutJob(defines) =>
      st.(queue := st.queue + [Job(st.puts, defines)], unfinished := st.unfinished + 1, puts := st.puts + 1)
    case PutEnd =>
      st.(queue := st.queue + [End(st.puts)], unfinished := st.unfinished + 1, puts := st.puts + 1)
    case Work(fails) =>
      match st.place
      case Waiting => st.(place := Taken(st.queue[0]), queue := st.queue[1..])
      case Taken(End(n)) => Acknowledge(st, End(n), Gone(false))
      case Taken(Job(n, defines)) =>
        if fails then st.(place := Draining(Job(n, defines)))
        else SetEvent(st, defines).(place := Executed(Job(n, defines)))
      case Executed(item) => Acknowledge(st, item, Waiting)
      case Draining(item) => Acknowledge(st, item, Looking)
      case Looking =>
        if st.queue == [] then st.(place := Releasing, putsAtLastLook := st.puts)
        else st.(place := Draining(st.queue[0]), queue := st.queue[1..])
      case Releasing => st.(place := Setting(|st.names|), visited := 0)
      case Setting(_) => Visit(st)
      case _ => st
  }

  predicate Schedulable(st: State, schedule: seq<Step>)
    decreases |schedule|
  {
    schedule != [] ==> Enabled(st, schedule[0]) && Schedulable(Perform(st, schedule[0]), schedule[1..])
  }

  function After(st: State, schedule: seq<Step>): State
    requires Schedulable(st, schedule)
    decreases |schedule|
  {
    if schedule == [] then st else After(Perform(st, schedule[0]), schedule[1..])
  }

  // ----- what every run keeps -----

  predicate HasItem(place: Place) {
    place.Taken? || place.Executed? || place.Draining?
  }

  function InFlight(place: Place): nat {
    if HasItem(place) then 1 else 0
  }

  /** The counter is what is queued plus what is in flight. The numbers acknowledged are the first
      ones, each once; the item in flight has the next number, and the queue the ones after it. */
  predicate Accounted(st: State) {
    && !st.overdrawn
    && st.unfinished == |st.queue| + InFlight(st.place)
    && |st.acknowledged| + st.unfinished == st.puts
    && (forall i :: 0 <= i < |st.acknowledged| ==> st.acknowledged[i] == i)
    && (HasItem(st.place) ==> st.place.item.number == |st.acknowledged|)
    && (forall i :: 0 <= i < |st.queue| ==> st.queue[i].number == |st.acknowledged| + InFlight(st.place) + i)
  }

  predicate Looked(place: Place) {
    place.Releasing? || place.Setting? || place == Gone(true) || place.Dead?
  }

  /** From the last look of the drain on, the counter is what was put since. */
  predicate Drained(st: State) {
    Looked(st.place) ==> st.putsAtLastLook <= st.puts && st.unfinished == st.puts - st.putsAtLastLook
  }

  /** Names are listed once, and no two stand for one event. */
  ghost predicate Listed(names: seq<Key>, events: map<Key, nat>, made: nat) {
    && Distinct(names)
    && (forall key :: key in events <==> key in names)
    && (forall key :: key in events ==> events[key] < made)
    && (forall key, other :: key in events && other in events && events[key] == events[other] ==> key == other)
  }

  ghost predicate Registered(st: State) {
    && Listed(st.names, st.events, st.made)
    && (forall e :: e in st.isSet ==> e < st.made)
    && (st.place.Setting? ==> st.visited <= st.place.size <= |st.names|)
    && (Looked(st.place) && !st.place.Releasing? ==> st.visited <= |st.names|)
  }

  ghost predicate Kept(st: State) {
    Accounted(st) && Drained(st) && Registered(st)
  }

  lemma AcknowledgeIsAccounted(st: State, item: Item, next: Place)
    requires Accounted(st) && HasItem(st.place) && st.place.item == item && !HasItem(next)
    ensures Accounted(Acknowledge(st, item, next))
  {
  }

  lemma TakeIsAccounted(st: State, next: Place)
    requires Accounted(st) && !HasItem(st.place) && st.queue != [] && HasItem(next) && next.item == st.queue[0]
    ensures Accounted(st.(place := next, queue := st.queue[1..]))
  {
  }

  lemma PutIsAccounted(st: State, item: Item)
    requires Accounted(st) && item.number == st.puts
    ensures Accounted(st.(queue := st.queue + [item], unfinished := st.unfinished + 1, puts := st.puts + 1))
  {
  }

  lemma ItemWorkIsAccounted(st: State, fails: bool)
    requires Accounted(st) && HasItem(st.place)
    ensures Accounted(Perform(st, Work(fails))) && Drained(Perform(st, Work(fails)))
  {
    match st.place
    case Taken(item) => if item.End? { AcknowledgeIsAccounted(st, item, Gone(false)); }
    case Executed(item) => AcknowledgeIsAccounted(st, item, Waiting);
    case Draining(item) => AcknowledgeIsAccounted(st, item, Looking);
  }

  lemma LoopWorkIsAccounted(st: State, fails: bool)
    requires Accounted(st) && Drained(st) && Enabled(st, Work(fails)) && !HasItem(st.place)
    ensures Accounted(Perform(st, Work(fails))) && Drained(Perform(st, Work(fails)))
  {
    if st.place.Waiting? {
      TakeIsAccounted(st, Taken(st.queue[0]));
    } else if st.place.Looking? && st.queue != [] {
      TakeIsAccounted(st, Draining(st.queue[0]));
    } else {
      var st' := Perform(st, Work(fails));
      assert st' == st.(place := st'.place, visited := st'.visited, isSet := st'.isSet,
                        putsAtLastLook := st'.putsAtLastLook);
    }
  }

  lemma StepIsAccounted(st: State, step: Step)
    requires Kept(st) && Enabled(st, step)
    ensures Accounted(Perform(st, step)) && Drained(Perform(st, step))
  {
    match step
    case Register(_) =>
    case PutJob(defines) => PutIsAccounted(st, Job(st.puts, defines));
    case PutEnd => PutIsAccounted(st, End(st.puts));
    case Work(fails) =>
      if HasItem(st.place) {
        ItemWorkIsAccounted(st, fails);
      } else {
        LoopWorkIsAccounted(st, fails);
      }
  }

  lemma RegisterIsRegistered(st: State, key: Key)
    requires Registered(st)
    ensures Registered(Perform(st, Register(key))) && st.names <= Perform(st, Register(key)).names
  {
  }

  lemma SetEventIsMade(st: State, defines: Option<Key>)
    requires Registered(st)
    ensures var st' := SetEvent(st, defines);
            st' == st.(isSet := st'.isSet) && forall e :: e in st'.isSet ==> e < st'.made
  {
  }

  /** The worker's steps set events that were made, and count visits up to the number of names. */
  lemma WorkSets(st: State, fails: bool)
    requires Registered(st) && Enabled(st, Work(fails))
    ensures var st' := Perform(st, Work(fails));
            && st'.names == st.names && st'.events == st.events && st'.made == st.made
            && (forall e :: e in st'.isSet ==> e < st'.made)
            && (st'.place.Setting? ==> st'.visited <= st'.place.size <= |st'.names|)
            && (Looked(st'.place) && !st'.place.Releasing? ==> st'.visited <= |st'.names|)
  {
    match st.place
    case Taken(item) => if item.Job? { SetEventIsMade(st, item.defines); }
    case Setting(_) => if st.visited < |st.names| { SetEventIsMade(st, Some(st.names[st.visited])); }
    case _ =>
  }

  lemma WorkIsRegistered(st: State, fails: bool)
    requires Registered(st) && Enabled(st, Work(fails))
    ensures Registered(Perform(st, Work(fails))) && st.names == Perform(st, Work(fails)).names
  {
    WorkSets(st, fails);
  }

  lemma StepIsRegistered(st: State, step: Step)
    requires Registered(st) && Enabled(st, step)
    ensures Registered(Perform(st, step)) && st.names <= Perform(st, step).names
  {
    if step.Register? {
      RegisterIsRegistered(st, step.key);
    } else if step.Work? {
      WorkIsRegistered(st, step.fails);
    }
  }

  lemma {:induction false} RunKeeps(st: State, schedule: seq<Step>)
    requires Kept(st) && Schedulable(st, schedule)
    ensures Kept(After(st, schedule))
    decreases |schedule|
  {
    if schedule != [] {
      StepIsAccounted(st, schedule[0]);
      StepIsRegistered(st, schedule[0]);
      RunKeeps(Perform(st, schedule[0]), schedule[1..]);
    }
  }

  /** Queue accounting, at every moment of every run: the counter equals the queue plus the item in
      flight, no item is acknowledged twice or out of turn, and no acknowledgement is one too many. */
  lemma QueueAccounting(schedule: seq<Step>)
    requires Schedulable(START, schedule)
    ensures Accounted(After(START, schedule))
  {
    RunKeeps(START, schedule);
  }

  /** From the drain's last look on, through the loop that sets the events and after it, however it ends,
      a sync finds the counter at zero exactly when nothing was put since that look. */
  lemma LateSubmissionsHang(schedule: seq<Step>)
    requires Schedulable(START, schedule)
    requires Looked(After(START, schedule).place)
    ensures var st := After(START, schedule); st.unfinished == 0 <==> st.puts == st.putsAtLastLook
    ensures var st := After(START, schedule); st.unfinished == |st.queue|
  {
    RunKeeps(START, schedule);
  }

  /** The same after a normal end: what was put behind the end mark is never acknowledged. */
  lemma PutBehindEndHangs(schedule: seq<Step>)
    requires Schedulable(START, schedule)
    requires After(START, schedule).place == Gone(false)
    ensures var st := After(START, schedule);
            st.unfinished == |st.queue| && (st.unfinished == 0 <==> st.queue == [])
  {
    RunKeeps(START, schedule);
  }

  // ----- how the loop over the events ends -----

  /** Some thread registers a new name while the loop is under way. */
  predicate NewNameInLoop(st: State, schedule: seq<Step>)
    requires Schedulable(st, schedule)
    decreases |schedule|
  {
    schedule != [] &&
    ((st.place.Setting? && schedule[0].Register? && schedule[0].key !in st.events) ||
     NewNameInLoop(Perform(st, schedule[0]), schedule[1..]))
  }

  predicate HasGrown(st: State) {
    st.place.Setting? && |st.names| != st.place.size
  }

  lemma {:induction false} EndedStays(st: State, schedule: seq<Step>)
    requires Schedulable(st, schedule) && Ended(st.place)
    ensures After(st, schedule).place == st.place && !NewNameInLoop(st, schedule)
    ensures After(st, schedule).isSet == st.isSet && After(st, schedule).visited == st.visited
    decreases |schedule|
  {
    if schedule != [] {
      EndedStays(Perform(st, schedule[0]), schedule[1..]);
    }
  }

  lemma LoopStep(st: State, step: Step)
    requires Kept(st) && Enabled(st, step) && !Ended(st.place)
    ensures var st' := Perform(st, step);
            && Kept(st')
            && (Ended(st'.place) && st'.place != Gone(false) ==>
                  (st'.place == Gone(true) <==> !HasGrown(st)) && step.Work?)
            && (!Ended(st'.place) ==>
                  (HasGrown(st') <==> HasGrown(st) || (st.place.Setting? && step.Register? && step.key !in st.events)))
  {
    StepIsAccounted(st, step);
    StepIsRegistered(st, step);
  }

  lemma {:induction false} LoopEnds(st: State, schedule: seq<Step>)
    requires Kept(st) && Schedulable(st, schedule) && !Ended(st.place)
    requires After(st, schedule).place == Gone(true) || After(st, schedule).place.Dead?
    ensures After(st, schedule).place == Gone(true) <==> !(HasGrown(st) || NewNameInLoop(st, schedule))
    decreases |schedule|
  {
    var next := Perform(st, schedule[0]);
    LoopStep(st, schedule[0]);
    if Ended(next.place) {
      EndedStays(next, schedule[1..]);
    } else {
      LoopEnds(next, schedule[1..]);
    }
  }

  /** After an error the worker comes to a proper end exactly when no new name is registered between the
      first step of the loop that sets the events and its last; else it dies in the loop. Registering
      a known name again does no such harm. */
  lemma EndsProperlyIff(schedule: seq<Step>)
    requires Schedulable(START, schedule)
    requires After(START, schedule).place == Gone(true) || After(START, schedule).place.Dead?
    ensures After(START, schedule).place == Gone(true) <==> !NewNameInLoop(START, schedule)
  {
    LoopEnds(START, schedule);
  }

  /** A loop that ends properly has visited every name there was when it started. */
  lemma {:induction false} ProperEndVisitsAll(st: State, schedule: seq<Step>)
    requires Kept(st) && Schedulable(st, schedule) && st.place.Setting? && After(st, schedule).place == Gone(true)
    ensures After(st, schedule).visited == st.place.size
    decreases |schedule|
  {
    var next := Perform(st, schedule[0]);
    LoopStep(st, schedule[0]);
    if Ended(next.place) {
      EndedStays(next, schedule[1..]);
    } else {
      ProperEndVisitsAll(next, schedule[1..]);
    }
  }

  // ----- which events are set -----

  /** The i-th name is registered again before the loop has visited it, or after. */
  predicate Replaced(st: State, schedule: seq<Step>, i: nat)
    requires Schedulable(st, schedule) && i < |st.names|
    decreases |schedule|
  {
    schedule != [] &&
    ((schedule[0] == Register(st.names[i]) && st.visited <= i) ||
     (i < |Perform(st, schedule[0]).names| && Replaced(Perform(st, schedule[0]), schedule[1..], i)))
  }

  predicate Renewed(st: State, schedule: seq<Step>, i: nat)
    requires Schedulable(st, schedule) && i < |st.names|
    decreases |schedule|
  {
    schedule != [] &&
    ((schedule[0] == Register(st.names[i]) && i < st.visited) ||
     (i < |Perform(st, schedule[0]).names| && Renewed(Perform(st, schedule[0]), schedule[1..], i)))
  }

  predicate InLoop(st: State) {
    st.place.Setting? || st.place == Gone(true) || st.place.Dead?
  }

  predicate Orphan(st: State, e: nat) {
    e < st.made && forall key :: key in st.events ==> st.events[key] != e
  }

  lemma OrphanStep(st: State, step: Step, e: nat)
    requires Enabled(st, step) && Orphan(st, e)
    ensures Orphan(Perform(st, step), e) && (e in Perform(st, step).isSet <==> e in st.isSet)
  {
  }

  /** An event that no name stands for any more is never set again. */
  lemma {:induction false} OrphanStays(st: State, schedule: seq<Step>, e: nat)
    requires Schedulable(st, schedule) && Orphan(st, e)
    ensures e in After(st, schedule).isSet <==> e in st.isSet
    decreases |schedule|
  {
    if schedule != [] {
      OrphanStep(st, schedule[0], e);
      OrphanStays(Perform(st, schedule[0]), schedule[1..], e);
    }
  }

  lemma LoopGoesOn(st: State, step: Step, i: nat)
    requires Kept(st) && Enabled(st, step) && InLoop(st) && i < |st.names|
    ensures var st' := Perform(st, step);
            && InLoop(st') && Kept(st') && i < |st'.names| && st'.names[i] == st.names[i]
            && st.visited <= st'.visited <= st.visited + 1
            && (step != Register(st.names[i]) ==>
                  && st'.events[st'.names[i]] == st.events[st.names[i]]
                  && (st.events[st.names[i]] in st'.isSet <==>
                        st.events[st.names[i]] in st.isSet || st.visited <= i < st'.visited))
            && (step == Register(st.names[i]) ==> st'.isSet == st.isSet && st'.visited == st.visited)
  {
    StepIsAccounted(st, step);
    StepIsRegistered(st, step);
    assert st.names[i] in st.events;
  }

  lemma {:induction false} PassedIsNotReplaced(st: State, schedule: seq<Step>, i: nat)
    requires Kept(st) && Schedulable(st, schedule) && InLoop(st) && i < |st.names| && i < st.visited
    ensures !Replaced(st, schedule, i)
    decreases |schedule|
  {
    if schedule != [] {
      LoopGoesOn(st, schedule[0], i);
      PassedIsNotReplaced(Perform(st, schedule[0]), schedule[1..], i);
    }
  }

  /** The event that a name stands for at some moment of the loop, on which a `get_var` may be waiting, is
      set later on exactly when it was set already or the loop visits the name before it is registered
      again. */
  lemma {:induction false} WaitedEventIsSetIff(st: State, schedule: seq<Step>, i: nat)
    requires Kept(st) && Schedulable(st, schedule) && InLoop(st) && i < |st.names| && st.names[i] in st.events
    ensures var e, st' := st.events[st.names[i]], After(st, schedule);
            e in st'.isSet <==>
            e in st.isSet || (st.visited <= i < st'.visited && !Replaced(st, schedule, i))
    ensures st.visited <= After(st, schedule).visited
    decreases |schedule|
  {
    if schedule != [] {
      LoopGoesOn(st, schedule[0], i);
      var next := Perform(st, schedule[0]);
      WaitedEventIsSetIff(next, schedule[1..], i);
      if schedule[0] == Register(st.names[i]) {
        assert Orphan(next, st.events[st.names[i]]);
        OrphanStays(next, schedule[1..], st.events[st.names[i]]);
      } else if i < next.visited {
        PassedIsNotReplaced(next, schedule[1..], i);
      }
    }
  }

  /** The event that a name stands for later on is set exactly when, for a name the loop has visited, it
      was not registered again since, and for any other name, it was set already and was not registered
      again. */
  lemma {:induction false} CurrentEventIsSetIff(st: State, schedule: seq<Step>, i: nat)
    requires Kept(st) && Schedulable(st, schedule) && InLoop(st) && i < |st.names|
    requires st.names[i] in st.events && (i < st.visited ==> st.events[st.names[i]] in st.isSet)
    ensures var st' := After(st, schedule);
            && i < |st'.names| && st'.names[i] == st.names[i] && st'.names[i] in st'.events
            && (st'.events[st'.names[i]] in st'.isSet <==>
                if i < st'.visited then !Renewed(st, schedule, i)
                else st.events[st.names[i]] in st.isSet && !Replaced(st, schedule, i))
    ensures st.visited <= After(st, schedule).visited
    decreases |schedule|
  {
    if schedule != [] {
      LoopGoesOn(st, schedule[0], i);
      var next := Perform(st, schedule[0]);
      if schedule[0] == Register(st.names[i]) && i < st.visited {
        NewEventStaysUnset(next, schedule[1..], i);
      } else if schedule[0] == Register(st.names[i]) {
        assert next.events[next.names[i]] !in next.isSet;
        CurrentEventIsSetIff(next, schedule[1..], i);
      } else {
        CurrentEventIsSetIff(next, schedule[1..], i);
      }
    }
  }

  /** An event that is registered after the loop has visited its name stays unset. */
  lemma {:induction false} NewEventStaysUnset(st: State, schedule: seq<Step>, i: nat)
    requires Kept(st) && Schedulable(st, schedule) && InLoop(st) && i < |st.names| && i < st.visited
    requires st.names[i] in st.events && st.events[st.names[i]] !in st.isSet
    ensures var st' := After(st, schedule);
            && i < |st'.names| && st'.names[i] == st.names[i] && st'.names[i] in st'.events
            && st'.events[st'.names[i]] !in st'.isSet && st.visited <= st'.visited
    decreases |schedule|
  {
    if schedule != [] {
      LoopGoesOn(st, schedule[0], i);
      NewEventStaysUnset(Perform(st, schedule[0]), schedule[1..], i);
    }
  }

  /** Everyone waiting when the loop starts is released if nothing is registered until it has ended. */
  lemma QuietLoopReleasesAll(st: State, schedule: seq<Step>)
    requires Kept(st) && Schedulable(st, schedule) && st.place == Setting(|st.names|) && st.visited == 0
    requires forall i :: 0 <= i < |schedule| ==> !schedule[i].Register?
    requires Ended(After(st, schedule).place)
    ensures After(st, schedule).place == Gone(true) && After(st, schedule).events == st.events
    ensures forall key :: key in st.events ==> st.events[key] in After(st, schedule).isSet
  {
    NothingRegistered(st, schedule);
    LoopEnds(st, schedule);
    forall key | key in st.events
      ensures st.events[key] in After(st, schedule).isSet
    {
      var i :| 0 <= i < |st.names| && st.names[i] == key;
      NotReplaced(st, schedule, i);
      WaitedEventIsSetIff(st, schedule, i);
    }
  }

  /** A step of the loop in which nothing is registered. */
  lemma QuietStep(st: State, step: Step)
    requires Kept(st) && Enabled(st, step) && InLoop(st) && !step.Register?
    ensures var st' := Perform(st, step);
            && Kept(st') && InLoop(st') && st'.events == st.events && st'.names == st.names
            && (st.place.Setting? && st'.place == Gone(true) ==> st'.visited == st.place.size)
            && (st.place.Setting? && st'.place.Setting? ==> st'.place.size == st.place.size)
            && (!st.place.Setting? ==> st'.visited == st.visited && st'.place == st.place)
  {
    StepIsAccounted(st, step);
    StepIsRegistered(st, step);
  }

  lemma {:induction false} NothingRegistered(st: State, schedule: seq<Step>)
    requires Kept(st) && Schedulable(st, schedule) && InLoop(st)
    requires forall i :: 0 <= i < |schedule| ==> !schedule[i].Register?
    ensures !NewNameInLoop(st, schedule)
    ensures After(st, schedule).events == st.events && After(st, schedule).names == st.names
    ensures InLoop(After(st, schedule))
    ensures st.place.Setting? && After(st, schedule).place == Gone(true) ==>
              After(st, schedule).visited == st.place.size
    ensures !st.place.Setting? ==> After(st, schedule).visited == st.visited && After(st, schedule).place == st.place
    decreases |schedule|
  {
    if schedule != [] {
      QuietStep(st, schedule[0]);
      NothingRegistered(Perform(st, schedule[0]), schedule[1..]);
    }
  }

  lemma {:induction false} NotReplaced(st: State, schedule: seq<Step>, i: nat)
    requires Schedulable(st, schedule) && i < |st.names|
    requires forall k :: 0 <= k < |schedule| ==> !schedule[k].Register?
    ensures !Replaced(st, schedule, i)
    decreases |schedule|
  {
    if schedule != [] && i < |Perform(st, schedule[0]).names| {
      NotReplaced(Perform(st, schedule[0]), schedule[1..], i);
    }
  }

  /** Whenever a new name is registered before the loop is through, the worker dies at its next step, and
      whoever waits for a name it has not visited waits forever. */
  lemma NewNameStrandsWaiters(st: State, key: Key, fails: bool, rest: seq<Step>, i: nat)
    requires Kept(st) && st.place == Setting(|st.names|) && key !in st.events
    requires Schedulable(st, [Register(key), Work(fails)] + rest)
    requires st.visited <= i < |st.names| && st.events[st.names[i]] !in st.isSet
    ensures var st' := After(st, [Register(key), Work(fails)] + rest);
            st'.place.Dead? && st.events[st.names[i]] !in st'.isSet
  {
    var schedule := [Register(key), Work(fails)] + rest;
    var grown := Perform(st, Register(key));
    assert schedule[0] == Register(key) && schedule[1..][0] == Work(fails) && schedule[1..][1..] == rest;
    StepIsAccounted(st, Register(key));
    StepIsRegistered(st, Register(key));
    var dead := Perform(grown, Work(fails));
    assert After(st, schedule) == After(grown, schedule[1..]) == After(dead, rest);
    EndedStays(dead, rest);
  }

  /** A schedule on which that happens: the job that defines the first name fails, and the second name is
      registered when the loop has started. */
  lemma SecondNameStrandsFirst(a: Key, b: Key)
    requires a != b
    ensures var schedule := ToLoop(a) + [Register(b), Work(false)];
            Schedulable(START, schedule) &&
            var st := After(START, schedule);
            st.place.Dead? && st.unfinished == 0 && st.events.Keys == {a, b} && st.isSet == {}
  {
    LoopIsReached(a);
    var st := After(START, ToLoop(a));
    var grown := Perform(st, Register(b));
    Chain(grown, Work(false), []);
    Chain(st, Register(b), [Work(false)]);
    assert [Work(false)] + [] == [Work(false)] && [Register(b)] + [Work(false)] == [Register(b), Work(false)];
    Joined(START, ToLoop(a), [Register(b), Work(false)]);
  }

  function ToLoop(a: Key): seq<Step> {
    [Register(a), PutJob(Some(a))] + [Work(false), Work(true), Work(false)] + [Work(false), Work(false)]
  }

  lemma LoopIsReached(a: Key)
    ensures Schedulable(START, ToLoop(a))
    ensures After(START, ToLoop(a)) ==
            START.(place := Setting(1), names := [a], events := map[a := 0], made := 1, puts := 1, acknowledged := [0],
                   putsAtLastLook := 1)
  {
    NameAndJob(a);
    var st2 := After(START, [Register(a), PutJob(Some(a))]);
    var st5 := st2.(queue := [], unfinished := 0, place := Looking, acknowledged := [0]);
    FailingJob(st2, Job(0, Some(a)));
    var st6 := st5.(place := Releasing, putsAtLastLook := 1);
    Chain(st6, Work(false), []);
    Chain(st5, Work(false), [Work(false)]);
    Joined(START, [Register(a), PutJob(Some(a))], [Work(false), Work(true), Work(false)]);
    Joined(START, [Register(a), PutJob(Some(a))] + [Work(false), Work(true), Work(false)], [Work(false), Work(false)]);
  }

  lemma NameAndJob(a: Key)
    ensures Schedulable(START, [Register(a), PutJob(Some(a))])
    ensures After(START, [Register(a), PutJob(Some(a))]) ==
            START.(names := [a], events := map[a := 0], made := 1, queue := [Job(0, Some(a))],
                   unfinished := 1, puts := 1)
  {
    assert START.events[a := 0] == map[a := 0];
    Chain(START.(names := [a], events := map[a := 0], made := 1), PutJob(Some(a)), []);
    Chain(START, Register(a), [PutJob(Some(a))]);
  }

  /** A job that fails is taken, abandoned and acknowledged. */
  lemma FailingJob(st: State, job: Item)
    requires st.place.Waiting? && st.queue == [job] && job.Job? && st.unfinished == 1 && !st.overdrawn
    ensures Schedulable(st, [Work(false), Work(true), Work(false)])
    ensures After(st, [Work(false), Work(true), Work(false)]) ==
            st.(queue := [], unfinished := 0, place := Looking, acknowledged := st.acknowledged + [job.number])
  {
    var taken := st.(place := Taken(job), queue := []);
    var draining := taken.(place := Draining(job));
    assert st.queue[1..] == [];
    Chain(draining, Work(false), []);
    Chain(taken, Work(true), [Work(false)]);
    Chain(st, Work(false), [Work(true), Work(false)]);
    assert [Work(true)] + [Work(false)] == [Work(true), Work(false)];
    assert [Work(false)] + [Work(true), Work(false)] == [Work(false), Work(true), Work(false)];
  }

  lemma {:induction false} Joined(st: State, first: seq<Step>, second: seq<Step>)
    requires Schedulable(st, first) && Schedulable(After(st, first), second)
    ensures Schedulable(st, first + second) && After(st, first + second) == After(After(st, first), second)
    decreases |first|
  {
    if first == [] {
      assert first + second == second;
    } else {
      assert first + second == [first[0]] + (first[1..] + second);
      Joined(Perform(st, first[0]), first[1..], second);
      Chain(st, first[0], first[1..] + second);
    }
  }

  lemma Chain(st: State, step: Step, rest: seq<Step>)
    requires Enabled(st, step) && Schedulable(Perform(st, step), rest)
    ensures Schedulable(st, [step] + rest) && After(st, [step] + rest) == After(Perform(st, step), rest)
  {
    assert ([step] + rest)[1..] == rest;
  }

  // ----- the worker stops -----

  function Credit(st: State): int {
    3 * |st.queue| +
    match st.place
    case Waiting => 3 + |st.names|
    case Taken(_) => 5 + |st.names|
    case Executed(_) => 4 + |st.names|
    case Draining(_) => 4 + |st.names|
    case Looking => 3 + |st.names|
    case Releasing => 2 + |st.names|
    case Setting(size) => 1 + size - st.visited
    case _ => 0
  }

  function WorkSteps(schedule: seq<Step>): nat {
    if schedule == [] then 0 else WorkSteps(schedule[1..]) + if schedule[0].Work? then 1 else 0
  }

  lemma ItemUsesCredit(st: State, fails: bool)
    requires HasItem(st.place)
    ensures Credit(Perform(st, Work(fails))) + 1 <= Credit(st)
  {
  }

  lemma LoopUsesCredit(st: State, fails: bool)
    requires Registered(st) && Enabled(st, Work(fails)) && !HasItem(st.place)
    ensures Credit(Perform(st, Work(fails))) + 1 <= Credit(st)
  {
  }

  lemma StepUsesCredit(st: State, step: Step)
    requires Registered(st) && Enabled(st, step)
    ensures var st' := Perform(st, step);
            Credit(st') + (if step.Work? then 1 else 0) <=
            Credit(st) + 3 * (st'.puts - st.puts) + |st'.names| - |st.names|
  {
    if step.Work? {
      if HasItem(st.place) {
        ItemUsesCredit(st, step.fails);
      } else {
        LoopUsesCredit(st, step.fails);
      }
      WorkPutsNothing(st, step.fails);
    } else {
      SubmittingAddsCredit(st, step);
    }
  }

  lemma WorkPutsNothing(st: State, fails: bool)
    requires Enabled(st, Work(fails))
    ensures Perform(st, Work(fails)).puts == st.puts && Perform(st, Work(fails)).names == st.names
  {
  }

  lemma SubmittingAddsCredit(st: State, step: Step)
    requires Registered(st) && !step.Work?
    ensures var st' := Perform(st, step);
            Credit(st') <= Credit(st) + 3 * (st'.puts - st.puts) + |st'.names| - |st.names|
  {
  }

  lemma {:induction false} WorkUsesCredit(st: State, schedule: seq<Step>)
    requires Kept(st) && Schedulable(st, schedule)
    ensures WorkSteps(schedule) + Credit(After(st, schedule)) <=
            Credit(st) + 3 * (After(st, schedule).puts - st.puts) + |After(st, schedule).names| - |st.names|
    decreases |schedule|
  {
    if schedule != [] {
      StepUsesCredit(st, schedule[0]);
      StepIsAccounted(st, schedule[0]);
      StepIsRegistered(st, schedule[0]);
      WorkUsesCredit(Perform(st, schedule[0]), schedule[1..]);
    }
  }

  /** The worker takes at most three steps for each item that is put, one for each name, and three more;
      until it has ended it can always step unless it waits for an item, in the drain even on an empty
      queue. */
  lemma WorkerStops(schedule: seq<Step>)
    requires Schedulable(START, schedule)
    ensures var st := After(START, schedule);
            && WorkSteps(schedule) <= 3 * st.puts + |st.names| + 3
            && (forall fails :: Enabled(st, Work(fails)) <==>
                  !(Ended(st.place) || (st.place.Waiting? && st.unfinished == 0)))
  {
    WorkUsesCredit(START, schedule);
    RunKeeps(START, schedule);
  }
}
