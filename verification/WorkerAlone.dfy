/** What a worker does with the work it has when nobody submits anything more. */
module WorkerAlone {
  import opened Ir
  import opened WorkerQueue

  /** The next n steps of the worker; no job fails in them. */
  function Alone(n: nat): seq<Step> {
    if n == 0 then [] else [Work(false)] + Alone(n - 1)
  }

  /** Executing the item without an error sets the event. */
  predicate Sets(item: Item, events: map<Key, nat>, e: nat) {
    item.Job? && item.defines.Some? && item.defines.value in events && events[item.defines.value] == e
  }

  lemma ItemIsTaken(st: State)
    requires st.place.Waiting? && st.queue != []
    ensures Perform(st, Work(false)) == st.(place := Taken(st.queue[0]), queue := st.queue[1..])
  {
  }

  lemma JobIsExecuted(st: State)
    requires st.place.Taken? && st.place.item.Job?
    ensures var st' := Perform(st, Work(false));
            && st' == st.(place := Executed(st.place.item), isSet := st'.isSet)
            && forall e :: e in st'.isSet <==> e in st.isSet || Sets(st.place.item, st.events, e)
  {
  }

  lemma JobIsAcknowledged(st: State)
    requires st.place.Executed? && 0 < st.unfinished
    ensures Perform(st, Work(false)) ==
            st.(place := Waiting, unfinished := st.unfinished - 1,
                acknowledged := st.acknowledged + [st.place.item.number])
  {
  }

  /** A job is taken, executed and acknowledged, and its event is set. */
  lemma OneJob(st: State)
    requires st.place.Waiting? && st.queue != [] && st.queue[0].Job? && 0 < st.unfinished
    ensures Schedulable(st, Alone(3))
    ensures var st' := After(st, Alone(3));
            && st' == st.(queue := st.queue[1..], unfinished := st.unfinished - 1, isSet := st'.isSet,
                          acknowledged := st.acknowledged + [st.queue[0].number])
            && forall e :: e in st'.isSet <==> e in st.isSet || Sets(st.queue[0], st.events, e)
  {
    ItemIsTaken(st);
    var taken := Perform(st, Work(false));
    JobIsExecuted(taken);
    var executed := Perform(taken, Work(false));
    JobIsAcknowledged(executed);
    Chain(executed, Work(false), Alone(0));
    Chain(taken, Work(false), Alone(1));
    Chain(st, Work(false), Alone(2));
  }

  lemma {:induction false} AloneAdds(m: nat, n: nat)
    ensures Alone(m) + Alone(n) == Alone(m + n)
  {
    if m == 0 {
      assert Alone(0) + Alone(n) == Alone(n);
    } else {
      AloneAdds(m - 1, n);
      assert Alone(m) + Alone(n) == [Work(false)] + (Alone(m - 1) + Alone(n));
    }
  }

  /** Jobs that do not fail are all executed: the events set are those that their names stand for, and no
      others, a sync returns, and the worker waits for more. */
  lemma {:induction false} JobsAreExecuted(st: State)
    requires st.place.Waiting? && st.unfinished == |st.queue| && forall i :: 0 <= i < |st.queue| ==> st.queue[i].Job?
    ensures Schedulable(st, Alone(3 * |st.queue|))
    ensures var st' := After(st, Alone(3 * |st.queue|));
            && st'.place.Waiting? && st'.queue == [] && st'.unfinished == 0 && st'.events == st.events
            && forall e :: e in st'.isSet <==>
                 e in st.isSet || exists i :: 0 <= i < |st.queue| && Sets(st.queue[i], st.events, e)
    decreases |st.queue|
  {
    if st.queue != [] {
      OneJob(st);
      var next := After(st, Alone(3));
      JobsAreExecuted(next);
      Joined(st, Alone(3), Alone(3 * |next.queue|));
      AloneAdds(3, 3 * |next.queue|);
      assert st.queue == [st.queue[0]] + next.queue;
    }
  }

  /** An end mark is acknowledged and ends the worker: nothing behind it is touched. */
  lemma EndMarkEnds(st: State)
    requires st.place.Waiting? && st.queue != [] && st.queue[0].End? && 0 < st.unfinished
    ensures Schedulable(st, Alone(2))
    ensures After(st, Alone(2)) ==
            st.(place := Gone(false), queue := st.queue[1..], unfinished := st.unfinished - 1,
                acknowledged := st.acknowledged + [st.queue[0].number])
    ensures !Enabled(After(st, Alone(2)), Work(false))
  {
    ItemIsTaken(st);
    var taken := Perform(st, Work(false));
    var gone := Perform(taken, Work(false));
    Chain(taken, Work(false), Alone(0));
    Chain(st, Work(false), Alone(1));
    assert After(st, Alone(2)) == gone;
  }

  // ----- after an error -----

  predicate NamesAreSet(st: State, n: nat)
    requires n <= |st.names|
  {
    forall i :: 0 <= i < n ==> st.names[i] in st.events && st.events[st.names[i]] in st.isSet
  }

  /** The worker drains its queue, or starts to set the events, or is setting them, or has set them all. */
  ghost predicate WindsUp(st: State) {
    && Kept(st)
    && match st.place
       case Draining(_) => true
       case Looking => true
       case Releasing => st.queue == []
       case Setting(size) => st.queue == [] && size == |st.names| && NamesAreSet(st, st.visited)
       case Gone(failed) => failed && st.queue == [] && NamesAreSet(st, |st.names|)
       case _ => false
  }

  lemma WindsUpStep(st: State)
    requires WindsUp(st) && !st.place.Gone?
    ensures var st' := Perform(st, Work(false));
            WindsUp(st') && st'.events == st.events && st'.puts == st.puts && 0 <= Credit(st') < Credit(st)
  {
    StepIsAccounted(st, Work(false));
    StepIsRegistered(st, Work(false));
    StepUsesCredit(st, Work(false));
    if st.place.Setting? && st.visited < |st.names| {
      assert st.names[st.visited] in st.events;
    }
  }

  lemma {:induction false} WindingUpEnds(st: State) returns (n: nat)
    requires WindsUp(st)
    ensures Schedulable(st, Alone(n))
    ensures var st' := After(st, Alone(n)); st'.place == Gone(true) && WindsUp(st') && st'.events == st.events
    decreases Credit(st)
  {
    n := 0;
    if !st.place.Gone? {
      WindsUpStep(st);
      n := WindingUpEnds(Perform(st, Work(false)));
      Chain(st, Work(false), Alone(n));
      n := n + 1;
    }
  }

  /** A job that fails takes everything with it: if nobody submits anything more, the queue is emptied, a
      sync returns, and whoever waits for an event is released. */
  lemma FailureReleasesAll(st: State) returns (n: nat)
    requires Kept(st) && st.place.Taken? && st.place.item.Job?
    ensures Schedulable(st, [Work(true)] + Alone(n))
    ensures var st' := After(st, [Work(true)] + Alone(n));
            && st'.place == Gone(true) && st'.queue == [] && st'.unfinished == 0 && st'.events == st.events
            && forall key :: key in st.events ==> st.events[key] in st'.isSet
  {
    StepIsAccounted(st, Work(true));
    StepIsRegistered(st, Work(true));
    var failed := Perform(st, Work(true));
    n := WindingUpEnds(failed);
    Chain(st, Work(true), Alone(n));
    var st' := After(failed, Alone(n));
    forall key | key in st.events
      ensures st.events[key] in st'.isSet
    {
      var i :| 0 <= i < |st'.names| && st'.names[i] == key;
    }
  }
}
