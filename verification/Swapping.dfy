/** The two model-swapping policies of the multi-model benchmark. */
module Swapping {
  import opened Prelude

  type Model = string

  /** A queued swap: the model to deactivate, if any, and the model to activate. */
  datatype Swap = Swap(out: Option<Model>, into: Model)

  /** Each swap takes out what the previous one brought in; the first takes out `first`, and the
      last one brought in `now`. */
  predicate Chain(swaps: seq<Swap>, first: Option<Model>, now: Option<Model>) {
    if swaps == [] then first == now
    else
      var n := |swaps| - 1;
      Some(swaps[n].into) == now && Chain(swaps[..n], first, swaps[n].out)
  }

  lemma {:induction false} ChainLinks(swaps: seq<Swap>, first: Option<Model>, now: Option<Model>)
    requires Chain(swaps, first, now)
    ensures swaps != [] ==> swaps[0].out == first && Some(swaps[|swaps| - 1].into) == now
    ensures forall k :: 0 <= k < |swaps| - 1 ==> swaps[k + 1].out == Some(swaps[k].into)
  {
    if swaps != [] {
      var n := |swaps| - 1;
      ChainLinks(swaps[..n], first, swaps[n].out);
    }
  }

  // ----- sequential swapping, with requests completing at any time -----

  /** Requests are known by their position. `done` holds the outcomes of the requests the server has
      answered, `collected` those the policy has looked at; `idleAtSwap` is history: for each swap,
      whether no request at all was in flight when it was queued. */
  datatype State<!R> = State(
    sent: nat,
    current: Option<Model>,
    pending: map<Model, seq<nat>>,
    done: map<nat, R>,
    collected: set<nat>,
    results: seq<Option<R>>,
    swaps: seq<Swap>,
    numSwaps: nat,
    idleAtSwap: seq<bool>,
    returned: bool)

  /** The server answers a request; the policy sends the next one; or, when all are sent, it collects
      what is done and returns if nothing is left. */
  datatype Event<R> = Answer(request: nat, outcome: R) | Send | Collect

  function Initial<R>(models: seq<Model>): State<R> {
    State(0, None, map[], map[], {}, seq(|models|, _ => None), [], 0, [], false)
  }

  function PendingOf<R>(st: State<R>, model: Option<Model>): seq<nat> {
    if model.Some? && model.value in st.pending then st.pending[model.value] else []
  }

  /** Before a swap the policy waits for every pending request of the current model. */
  predicate Enabled<R>(models: seq<Model>, st: State<R>, e: Event<R>) {
    match e
    case Answer(i, _) => i < st.sent && i !in st.done
    case Send =>
      st.sent < |models| &&
      (Some(models[st.sent]) != st.current ==> forall i :: i in PendingOf(st, st.current) ==> i in st.done)
    case Collect => st.sent == |models| && !st.returned
  }

  /** The outcomes of finished requests are put in the slots of the requests, once each. */
  function Record<R>(st: State<R>, requests: seq<nat>): State<R>
    decreases |requests|
  {
    if requests == [] then st
    else
      var i := requests[0];
      var st' := if i in st.done && i !in st.collected && i < |st.results|
                 then st.(results := st.results[i := Some(st.done[i])], collected := st.collected + {i})
                 else st;
      Record(st', requests[1..])
  }

  predicate Idle<R>(st: State<R>) {
    forall i :: 0 <= i < st.sent ==> i in st.done
  }

  function SwapTo<R>(st: State<R>, model: Model): State<R> {
    var recorded := Record(st, PendingOf(st, st.current));
    var emptied := if st.current.Some? && PendingOf(st, st.current) != []
                   then recorded.(pending := recorded.pending[st.current.value := []]) else recorded;
    emptied.(swaps := st.swaps + [Swap(st.current, model)], current := Some(model), numSwaps := st.numSwaps + 1,
             idleAtSwap := st.idleAtSwap + [Idle(st)])
  }

  function SendNext<R>(models: seq<Model>, st: State<R>): State<R>
    requires st.sent < |models|
  {
    var model := models[st.sent];
    var ready := if Some(model) != st.current then SwapTo(st, model) else st;
    ready.(sent := st.sent + 1, pending := ready.pending[model := PendingOf(ready, Some(model)) + [st.sent]])
  }

  function Perform<R>(models: seq<Model>, st: State<R>, e: Event<R>): State<R>
    requires Enabled(models, st, e)
  {
    match e
    case Answer(i, outcome) => st.(done := st.done[i := outcome])
    case Send => SendNext(models, st)
    case Collect =>
      var recorded := Record(st, seq(st.sent, i => i));
      recorded.(returned := forall i :: 0 <= i < st.sent ==> i in st.done)
  }

  predicate Schedulable<R>(models: seq<Model>, st: State<R>, events: seq<Event<R>>)
    decreases |events|
  {
    events != [] ==> Enabled(models, st, events[0]) && Schedulable(models, Perform(models, st, events[0]), events[1..])
  }

  function After<R>(models: seq<Model>, st: State<R>, events: seq<Event<R>>): State<R>
    requires Schedulable(models, st, events)
    decreases |events|
  {
    if events == [] then st else After(models, Perform(models, st, events[0]), events[1..])
  }

  ghost predicate Kept<R>(models: seq<Model>, st: State<R>) {
    && st.sent <= |models| && |st.results| == |models|
    // only the current model has requests in flight, and all of them are in its list
    && (forall i :: 0 <= i < st.sent && i !in st.done ==>
          Some(models[i]) == st.current && i in PendingOf(st, st.current))
    && (forall i :: i in st.done ==> 0 <= i < st.sent)
    // a slot is filled with the outcome of its own request, exactly when that was collected
    && (forall i :: 0 <= i < |models| ==>
          st.results[i] == (if i in st.collected && i in st.done then Some(st.done[i]) else None))
    && (forall i :: i in st.collected ==> i in st.done)
    && Chain(st.swaps, None, st.current)
    && st.numSwaps == |st.swaps| == |st.idleAtSwap|
    && (forall k :: 0 <= k < |st.idleAtSwap| ==> st.idleAtSwap[k])
    && (st.returned ==> st.sent == |models| && forall i :: 0 <= i < |models| ==> i in st.done && i in st.collected)
  }

  lemma {:induction false} RecordFills<R>(models: seq<Model>, st: State<R>, requests: seq<nat>)
    requires |st.results| == |models| && (forall i :: i in st.done ==> i < |models|)
    requires forall i :: 0 <= i < |models| ==>
               st.results[i] == (if i in st.collected && i in st.done then Some(st.done[i]) else None)
    ensures var st' := Record(st, requests);
            && st' == st.(results := st'.results, collected := st'.collected)
            && |st'.results| == |models|
            && (forall i :: 0 <= i < |models| ==>
                  st'.results[i] == (if i in st'.collected && i in st.done then Some(st.done[i]) else None))
            && (forall i :: i in st'.collected <==> i in st.collected || (i in requests && i in st.done))
    decreases |requests|
  {
    if requests != [] {
      var i := requests[0];
      var st' := if i in st.done && i !in st.collected && i < |st.results|
                 then st.(results := st.results[i := Some(st.done[i])], collected := st.collected + {i})
                 else st;
      RecordFills(models, st', requests[1..]);
    }
  }

  lemma SwapKeeps<R>(models: seq<Model>, st: State<R>, model: Model)
    requires Kept(models, st) && !st.returned
    requires forall i :: i in PendingOf(st, st.current) ==> i in st.done
    ensures Kept(models, SwapTo(st, model))
    ensures SwapTo(st, model).sent == st.sent && SwapTo(st, model).current == Some(model)
  {
    RecordFills(models, st, PendingOf(st, st.current));
    assert Idle(st);
    var swaps := st.swaps + [Swap(st.current, model)];
    assert swaps[..|st.swaps|] == st.swaps;
  }

  lemma SendKeeps<R>(models: seq<Model>, st: State<R>)
    requires Kept(models, st) && Enabled(models, st, Send)
    ensures Kept(models, SendNext(models, st))
  {
    var model := models[st.sent];
    var ready := if Some(model) != st.current then SwapTo(st, model) else st;
    if Some(model) != st.current {
      SwapKeeps(models, st, model);
    }
    PutKeeps(models, ready, model);
  }

  /** Sending a request of the current model only extends that model's list. */
  lemma PutKeeps<R>(models: seq<Model>, st: State<R>, model: Model)
    requires Kept(models, st) && st.sent < |models| && models[st.sent] == model && st.current == Some(model)
    ensures Kept(models, st.(sent := st.sent + 1,
                             pending := st.pending[model := PendingOf(st, Some(model)) + [st.sent]]))
  {
    var st' := st.(sent := st.sent + 1, pending := st.pending[model := PendingOf(st, Some(model)) + [st.sent]]);
    forall i | 0 <= i < st'.sent && i !in st'.done
      ensures Some(models[i]) == st'.current && i in PendingOf(st', st'.current)
    {
      assert PendingOf(st', st'.current) == PendingOf(st, st.current) + [st.sent];
    }
  }

  lemma EventKeeps<R>(models: seq<Model>, st: State<R>, e: Event<R>)
    requires Kept(models, st) && Enabled(models, st, e)
    ensures Kept(models, Perform(models, st, e))
  {
    match e
    case Answer(_, _) =>
    case Send => SendKeeps(models, st);
    case Collect =>
      var all := seq(st.sent, i => i);
      RecordFills(models, st, all);
      assert forall i :: 0 <= i < st.sent ==> all[i] == i && i in all;
  }

  lemma {:induction false} RunKeeps<R>(models: seq<Model>, st: State<R>, events: seq<Event<R>>)
    requires Kept(models, st) && Schedulable(models, st, events)
    ensures Kept(models, After(models, st, events))
    decreases |events|
  {
    if events != [] {
      EventKeeps(models, st, events[0]);
      RunKeeps(models, Perform(models, st, events[0]), events[1..]);
    }
  }

  /** Whenever requests complete, and in whatever order: only the current model has requests in flight;
      no request is in flight when a swap is queued; the swaps form a chain from no model to the
      current one, are those that the order of the requests calls for, and are counted right; and on return
      slot i holds the outcome of request i. */
  lemma SequentialSwappingIsSafe<R>(models: seq<Model>, events: seq<Event<R>>)
    requires Schedulable(models, Initial(models), events)
    ensures var st := After(models, Initial(models), events);
            && (forall i :: 0 <= i < st.sent && i !in st.done ==> i < |models| && Some(models[i]) == st.current)
            && (forall k :: 0 <= k < |st.idleAtSwap| ==> st.idleAtSwap[k])
            && Chain(st.swaps, None, st.current) && st.numSwaps == |st.swaps| == |st.idleAtSwap|
            && st.sent <= |models| && st.swaps == Changes(models[..st.sent])
            && (st.returned ==>
                  |st.results| == |models| &&
                  forall i :: 0 <= i < |models| ==> i in st.done && st.results[i] == Some(st.done[i]))
  {
    RunKeeps(models, Initial(models), events);
    SwapsAreChanges(models, Initial(models), events);
  }

  /** One swap for each request whose model is not that of the request before it. */
  function Changes(models: seq<Model>): seq<Swap> {
    if models == [] then []
    else
      var n := |models| - 1;
      if n == 0 then [Swap(None, models[0])]
      else if models[n] == models[n - 1] then Changes(models[..n])
      else Changes(models[..n]) + [Swap(Some(models[n - 1]), models[n])]
  }

  predicate SwapsOnlyChanges<R>(models: seq<Model>, st: State<R>) {
    && st.sent <= |models| && st.swaps == Changes(models[..st.sent])
    && st.current == if st.sent == 0 then None else Some(models[st.sent - 1])
  }

  lemma {:induction false} RecordChangesResults<R>(st: State<R>, requests: seq<nat>)
    ensures var st' := Record(st, requests);
            st' == st.(results := st'.results, collected := st'.collected)
    decreases |requests|
  {
    if requests != [] {
      var i := requests[0];
      var st' := if i in st.done && i !in st.collected && i < |st.results|
                 then st.(results := st.results[i := Some(st.done[i])], collected := st.collected + {i})
                 else st;
      RecordChangesResults(st', requests[1..]);
    }
  }

  lemma SendSwapsChanges<R>(models: seq<Model>, st: State<R>)
    requires SwapsOnlyChanges(models, st) && Enabled(models, st, Send)
    ensures SwapsOnlyChanges(models, SendNext(models, st))
  {
    var n := st.sent;
    RecordChangesResults(st, PendingOf(st, st.current));
    assert models[..n + 1][..n] == models[..n];
  }

  lemma EventSwapsChanges<R>(models: seq<Model>, st: State<R>, e: Event<R>)
    requires SwapsOnlyChanges(models, st) && Enabled(models, st, e)
    ensures SwapsOnlyChanges(models, Perform(models, st, e))
  {
    match e
    case Answer(_, _) =>
    case Send => SendSwapsChanges(models, st);
    case Collect => RecordChangesResults(st, seq(st.sent, i => i));
  }

  /** Whenever requests complete, the swaps are those that the sequence of the models calls for: none is
      queued twice, and none that is not needed. */
  lemma {:induction false} SwapsAreChanges<R>(models: seq<Model>, st: State<R>, events: seq<Event<R>>)
    requires SwapsOnlyChanges(models, st) && Schedulable(models, st, events)
    ensures SwapsOnlyChanges(models, After(models, st, events))
    decreases |events|
  {
    if events != [] {
      EventSwapsChanges(models, st, events[0]);
      SwapsAreChanges(models, Perform(models, st, events[0]), events[1..]);
    }
  }

  /** The list of a model holds requests of that model. */
  ghost predicate OwnLists<R>(models: seq<Model>, st: State<R>) {
    st.sent <= |models| && forall m :: m in st.pending ==> AreFor(st.pending[m], m, models[..st.sent])
  }

  predicate AreFor(requests: seq<nat>, model: Model, sent: seq<Model>) {
    forall k :: 0 <= k < |requests| ==> requests[k] < |sent| && sent[requests[k]] == model
  }

  lemma SwapOwnLists<R>(models: seq<Model>, st: State<R>, model: Model)
    requires OwnLists(models, st)
    ensures OwnLists(models, SwapTo(st, model)) && SwapTo(st, model).sent == st.sent
  {
    RecordChangesResults(st, PendingOf(st, st.current));
  }

  lemma EventOwnLists<R>(models: seq<Model>, st: State<R>, e: Event<R>)
    requires OwnLists(models, st) && Enabled(models, st, e)
    ensures OwnLists(models, Perform(models, st, e))
  {
    match e
    case Answer(_, _) =>
    case Send =>
      if Some(models[st.sent]) != st.current {
        SwapOwnLists(models, st, models[st.sent]);
      }
    case Collect => RecordChangesResults(st, seq(st.sent, i => i));
  }

  lemma {:induction false} RunOwnLists<R>(models: seq<Model>, st: State<R>, events: seq<Event<R>>)
    requires OwnLists(models, st) && Schedulable(models, st, events)
    ensures OwnLists(models, After(models, st, events))
    decreases |events|
  {
    if events != [] {
      EventOwnLists(models, st, events[0]);
      RunOwnLists(models, Perform(models, st, events[0]), events[1..]);
    }
  }

  /** Once all that was sent is answered, the policy sends the next request, and it returns when nothing
      is left; while a request is unanswered it does not return. */
  lemma NothingBlocks<R>(models: seq<Model>, events: seq<Event<R>>)
    requires Schedulable(models, Initial(models), events)
    ensures var st := After(models, Initial(models), events);
            && (Idle(st) && st.sent < |models| ==>
                  Enabled(models, st, Send) && Perform(models, st, Send).sent == st.sent + 1)
            && (st.sent == |models| && !st.returned ==>
                  Enabled(models, st, Collect) && (Perform(models, st, Collect).returned <==> Idle(st)))
  {
    RunOwnLists(models, Initial(models), events);
    var st := After(models, Initial(models), events);
    if st.sent < |models| && Idle(st) {
      RecordChangesResults(st, PendingOf(st, st.current));
      forall i | i in PendingOf(st, st.current)
        ensures i in st.done
      {
        assert AreFor(st.pending[st.current.value], st.current.value, models[..st.sent]);
      }
    }
  }

  // ----- one queue, with dynamic and persistent models -----

  const IDLE_THRESHOLD: int := 2
  const MAX_RUN_TIME: int := 10

  datatype Policy = Policy(
    current: Model,
    active: map<Model, bool>,
    lastRequest: map<Model, Option<int>>,
    lastActivation: map<Model, Option<int>>,
    swaps: seq<Swap>,
    numSwaps: nat)

  /** The models of a run; the policy falls back on the first persistent one. */
  datatype Fleet = Fleet(dynamic: seq<Model>, persistent: seq<Model>)

  /** The reading of the clock at the k-th place where an iteration of the main loop may read it;
      readings may be anything. */
  type Clock = (nat, nat) -> int

  function During(clock: Clock, i: nat): nat -> int {
    (k: nat) => clock(i, k)
  }

  /** Every dictionary has the keys it is looked up with. */
  predicate Keyed(q: Policy, fleet: Fleet) {
    && fleet.persistent != []
    && (forall m :: m in fleet.dynamic ==> m in q.active && m in q.lastRequest)
    && (forall m :: m in fleet.persistent ==> m in q.lastActivation)
  }

  function Start(fleet: Fleet): (q: Policy)
    requires fleet.persistent != []
    ensures Keyed(q, fleet)
  {
    Policy(fleet.persistent[0], map m | m in fleet.dynamic :: false, map m | m in fleet.dynamic :: None,
           map m | m in fleet.persistent :: None, [], 0)
  }

  function Exchange(q: Policy, into: Model): Policy {
    q.(current := into, swaps := q.swaps + [Swap(Some(q.current), into)], numSwaps := q.numSwaps + 1)
  }

  /** A request for a dynamic model brings that model in unless it or another dynamic model is in. */
  function Requested(q: Policy, fleet: Fleet, model: Model, now: int): (r: Policy)
    requires Keyed(q, fleet)
    ensures Keyed(r, fleet)
  {
    if model !in fleet.dynamic then q
    else
      var r := if !q.active[model] && q.current !in fleet.dynamic
               then Exchange(q, model).(active := q.active[model := true],
                                        lastActivation := q.lastActivation[q.current := None])
               else q;
      r.(lastRequest := r.lastRequest[model := Some(now)])
  }

  predicate Stale(last: Option<int>, now: int, limit: int) {
    last.Some? && now - last.value > limit
  }

  /** A dynamic model that had no request for a while is taken out. */
  function IdleRule(q: Policy, fleet: Fleet, model: Model, now: int): (r: Policy)
    requires Keyed(q, fleet) && model in fleet.dynamic
    ensures Keyed(r, fleet)
  {
    if q.active[model] && Stale(q.lastRequest[model], now, IDLE_THRESHOLD) then TakenOut(q, fleet, model) else q
  }

  function TakenOut(q: Policy, fleet: Fleet, model: Model): (r: Policy)
    requires Keyed(q, fleet) && model in fleet.dynamic
    ensures Keyed(r, fleet)
  {
    Exchange(q, fleet.persistent[0]).(active := q.active[model := false], lastRequest := q.lastRequest[model := None])
  }

  function IdleRules(q: Policy, fleet: Fleet, d: nat, clock: nat -> int): (r: Policy)
    requires Keyed(q, fleet) && d <= |fleet.dynamic|
    ensures Keyed(r, fleet)
  {
    if d == 0 then q else IdleRule(IdleRules(q, fleet, d - 1, clock), fleet, fleet.dynamic[d - 1], clock(d))
  }

  /** With two persistent models, one that ran for a while makes room for the other. */
  function PersistentRule(q: Policy, fleet: Fleet, now: int): (r: Policy)
    requires Keyed(q, fleet)
    ensures Keyed(r, fleet)
  {
    if |fleet.persistent| == 2 && q.current in fleet.persistent && Stale(q.lastActivation[q.current], now, MAX_RUN_TIME)
    then Exchange(q, if q.current == fleet.persistent[1] then fleet.persistent[0] else fleet.persistent[1])
           .(lastActivation := q.lastActivation[q.current := None])
    else q
  }

  function Served(requests: seq<Model>, fleet: Fleet, clock: Clock, n: nat): (r: Policy)
    requires n <= |requests| && fleet.persistent != []
    ensures Keyed(r, fleet)
  {
    if n == 0 then Start(fleet)
    else
      var q := Requested(Served(requests, fleet, clock, n - 1), fleet, requests[n - 1], clock(n - 1, 0));
      var q' := IdleRules(q, fleet, |fleet.dynamic|, During(clock, n - 1));
      PersistentRule(q', fleet, clock(n - 1, |fleet.dynamic| + 1))
  }

  /** Swaps go out of the first persistent model and back into it by turns. */
  predicate Alternates(swaps: seq<Swap>, fleet: Fleet)
    requires fleet.persistent != []
  {
    forall k :: 0 <= k < |swaps| ==>
      if k % 2 == 0 then swaps[k].out == Some(fleet.persistent[0]) && swaps[k].into in fleet.dynamic
      else swaps[k].into == fleet.persistent[0] && swaps[k].out.Some? && swaps[k].out.value in fleet.dynamic
  }

  ghost predicate Steady(q: Policy, fleet: Fleet) {
    && Keyed(q, fleet)
    && var home := fleet.persistent[0];
    && (forall m :: m in fleet.dynamic ==> (q.active[m] <==> m == q.current && home !in fleet.dynamic))
    && (if q.numSwaps % 2 == 0 then q.current == home else q.current in fleet.dynamic)
    && (home in fleet.dynamic ==> q.swaps == [])
    && (forall m :: m in q.lastActivation ==> q.lastActivation[m] == None)
    && Chain(q.swaps, Some(home), Some(q.current)) && q.numSwaps == |q.swaps|
    && Alternates(q.swaps, fleet)
  }

  lemma ExchangeExtends(q: Policy, fleet: Fleet, into: Model)
    requires Steady(q, fleet) && fleet.persistent[0] !in fleet.dynamic
    requires if q.numSwaps % 2 == 0 then into in fleet.dynamic else into == fleet.persistent[0]
    ensures var r := Exchange(q, into);
            && Chain(r.swaps, Some(fleet.persistent[0]), Some(into)) && Alternates(r.swaps, fleet)
            && (if r.numSwaps % 2 == 0 then into == fleet.persistent[0] else into in fleet.dynamic)
  {
    var r := Exchange(q, into);
    assert r.swaps[..|q.swaps|] == q.swaps;
  }

  lemma RequestedIsSteady(q: Policy, fleet: Fleet, model: Model, now: int)
    requires Steady(q, fleet)
    ensures Steady(Requested(q, fleet, model, now), fleet)
  {
    if model in fleet.dynamic && !q.active[model] && q.current !in fleet.dynamic {
      BroughtInIsSteady(q, fleet, model, now);
    }
  }

  lemma BroughtInIsSteady(q: Policy, fleet: Fleet, model: Model, now: int)
    requires Steady(q, fleet) && model in fleet.dynamic && !q.active[model] && q.current !in fleet.dynamic
    ensures Steady(Requested(q, fleet, model, now), fleet)
  {
    ExchangeExtends(q, fleet, model);
    var r := Exchange(q, model);
    var active, lastActivation := q.active[model := true], q.lastActivation[q.current := None];
    assert forall m :: m in fleet.dynamic ==> (active[m] <==> m == model);
    assert forall m :: m in lastActivation ==> lastActivation[m] == None;
    assert Requested(q, fleet, model, now) ==
        r.(active := active, lastActivation := lastActivation, lastRequest := q.lastRequest[model := Some(now)]);
  }

  lemma IdleRuleIsSteady(q: Policy, fleet: Fleet, model: Model, now: int)
    requires Steady(q, fleet) && model in fleet.dynamic
    ensures Steady(IdleRule(q, fleet, model, now), fleet)
  {
    if q.active[model] && Stale(q.lastRequest[model], now, IDLE_THRESHOLD) {
      ExchangeExtends(q, fleet, fleet.persistent[0]);
    }
  }

  lemma {:induction false} IdleRulesAreSteady(q: Policy, fleet: Fleet, d: nat, clock: nat -> int)
    requires Steady(q, fleet) && d <= |fleet.dynamic|
    ensures Steady(IdleRules(q, fleet, d, clock), fleet)
  {
    if d > 0 {
      IdleRulesAreSteady(q, fleet, d - 1, clock);
      IdleRuleIsSteady(IdleRules(q, fleet, d - 1, clock), fleet, fleet.dynamic[d - 1], clock(d));
    }
  }

  /** One of the first d looks at the dynamic models finds the current one idle. */
  predicate FoundIdle(q: Policy, fleet: Fleet, d: nat, clock: nat -> int)
    requires Keyed(q, fleet) && d <= |fleet.dynamic|
  {
    exists k :: 0 <= k < d && fleet.dynamic[k] == q.current && q.active[q.current] &&
      Stale(q.lastRequest[q.current], clock(k + 1), IDLE_THRESHOLD)
  }

  predicate FoundIdleAt(q: Policy, fleet: Fleet, k: nat, now: int)
    requires Keyed(q, fleet) && k < |fleet.dynamic|
  {
    fleet.dynamic[k] == q.current && q.active[q.current] && Stale(q.lastRequest[q.current], now, IDLE_THRESHOLD)
  }

  lemma FoundOneMore(q: Policy, fleet: Fleet, d: nat, clock: nat -> int)
    requires Keyed(q, fleet) && d < |fleet.dynamic|
    ensures FoundIdle(q, fleet, d + 1, clock) ==
            (FoundIdle(q, fleet, d, clock) || FoundIdleAt(q, fleet, d, clock(d + 1)))
  {
  }

  /** Once a pass has taken a model out, it finds no other to take out. */
  lemma NothingMoreIsIdle(r: Policy, fleet: Fleet, d: nat, now: int)
    requires Steady(r, fleet) && d < |fleet.dynamic| && r.current == fleet.persistent[0]
    ensures IdleRule(r, fleet, fleet.dynamic[d], now) == r
  {
  }

  lemma IdleRuleFindsCurrent(q: Policy, fleet: Fleet, d: nat, now: int)
    requires Steady(q, fleet) && d < |fleet.dynamic|
    ensures IdleRule(q, fleet, fleet.dynamic[d], now) ==
            if FoundIdleAt(q, fleet, d, now) then TakenOut(q, fleet, q.current) else q
  {
  }

  /** What the first d looks make of the policy. */
  predicate PassedAs(q: Policy, fleet: Fleet, d: nat, clock: nat -> int)
    requires Keyed(q, fleet) && d <= |fleet.dynamic|
  {
    if FoundIdle(q, fleet, d, clock)
    then q.current in fleet.dynamic && IdleRules(q, fleet, d, clock) == TakenOut(q, fleet, q.current)
    else IdleRules(q, fleet, d, clock) == q
  }

  lemma PassOneMore(q: Policy, fleet: Fleet, d: nat, clock: nat -> int)
    requires Steady(q, fleet) && d < |fleet.dynamic| && PassedAs(q, fleet, d, clock)
    ensures PassedAs(q, fleet, d + 1, clock)
  {
    FoundOneMore(q, fleet, d, clock);
    var r := IdleRules(q, fleet, d, clock);
    assert IdleRules(q, fleet, d + 1, clock) == IdleRule(r, fleet, fleet.dynamic[d], clock(d + 1));
    if FoundIdle(q, fleet, d, clock) {
      IdleRulesAreSteady(q, fleet, d, clock);
      NothingMoreIsIdle(r, fleet, d, clock(d + 1));
    } else {
      IdleRuleFindsCurrent(q, fleet, d, clock(d + 1));
    }
  }

  /** A pass over the dynamic models takes out the current one, if it is found idle, and does nothing else. */
  lemma PassTakesOutIdle(q: Policy, fleet: Fleet, d: nat, clock: nat -> int)
    requires Steady(q, fleet) && d <= |fleet.dynamic|
    ensures FoundIdle(q, fleet, d, clock) ==>
              q.current in fleet.dynamic && IdleRules(q, fleet, d, clock) == TakenOut(q, fleet, q.current)
    ensures !FoundIdle(q, fleet, d, clock) ==> IdleRules(q, fleet, d, clock) == q
  {
    for k := 0 to d
      invariant PassedAs(q, fleet, k, clock)
    {
      PassOneMore(q, fleet, k, clock);
    }
  }

  /** After any number of requests, whatever the clock says: a dynamic model is active exactly when it is
      the current one; swaps alternate between the first persistent model and dynamic ones, chain up
      from the first persistent model to the current one, and are counted right. Listing that model
      among the dynamic ones as well stops all swapping. No activation time is ever recorded, so the rule
      for a second persistent model never applies. */
  lemma OneQueueIsSteady(requests: seq<Model>, fleet: Fleet, clock: Clock, n: nat)
    requires n <= |requests| && fleet.persistent != []
    ensures Steady(Served(requests, fleet, clock, n), fleet)
  {
    StartIsSteady(fleet);
    for i := 0 to n
      invariant Steady(Served(requests, fleet, clock, i), fleet)
    {
      RequestIsSteady(requests, fleet, clock, i);
    }
  }

  lemma RequestIsSteady(requests: seq<Model>, fleet: Fleet, clock: Clock, i: nat)
    requires i < |requests| && fleet.persistent != [] && Steady(Served(requests, fleet, clock, i), fleet)
    ensures Steady(Served(requests, fleet, clock, i + 1), fleet)
  {
    var before := Served(requests, fleet, clock, i);
    RequestedIsSteady(before, fleet, requests[i], clock(i, 0));
    var q := Requested(before, fleet, requests[i], clock(i, 0));
    IdleRulesAreSteady(q, fleet, |fleet.dynamic|, During(clock, i));
    PersistentRuleIsIdle(IdleRules(q, fleet, |fleet.dynamic|, During(clock, i)), fleet, clock(i, |fleet.dynamic| + 1));
  }

  lemma StartIsSteady(fleet: Fleet)
    requires fleet.persistent != []
    ensures Steady(Start(fleet), fleet)
  {
  }

  lemma PersistentRuleIsIdle(q: Policy, fleet: Fleet, now: int)
    requires Steady(q, fleet)
    ensures PersistentRule(q, fleet, now) == q
  {
  }

  // ----- which model is in, and when -----

  /** The last of the first n requests that is for the model. */
  function LastAsked(requests: seq<Model>, model: Model, n: nat): (i: nat)
    requires n <= |requests|
    ensures model in requests[..n] ==> i < n && requests[i] == model && model !in requests[i + 1..n]
  {
    if n == 0 then 0 else if requests[n - 1] == model then n - 1 else LastAsked(requests, model, n - 1)
  }

  /** In some look of iteration i, the model's last request was more than two seconds ago. */
  predicate Forgotten(requests: seq<Model>, fleet: Fleet, clock: Clock, model: Model, i: nat)
    requires i < |requests|
  {
    IsLate(fleet, model, clock(LastAsked(requests, model, i + 1), 0), During(clock, i))
  }

  /** Some look at the model is more than two seconds after the given time. */
  predicate IsLate(fleet: Fleet, model: Model, asked: int, clock: nat -> int) {
    exists k :: 0 <= k < |fleet.dynamic| && fleet.dynamic[k] == model && clock(k + 1) - asked > 2
  }

  /** The dynamic model that is in after n requests, if any: it comes in with a request for it while no
      other is in, and goes when it is forgotten. */
  function Resident(requests: seq<Model>, fleet: Fleet, clock: Clock, n: nat): Option<Model>
    requires n <= |requests|
    decreases n, 0
  {
    if n == 0 then None
    else
      var guest := Guest(requests, fleet, clock, n - 1);
      if guest.Some? && Forgotten(requests, fleet, clock, guest.value, n - 1) then None else guest
  }

  /** The dynamic model that is in once request i is sent. */
  function Guest(requests: seq<Model>, fleet: Fleet, clock: Clock, i: nat): Option<Model>
    requires i < |requests|
    decreases i, 1
  {
    var before := Resident(requests, fleet, clock, i);
    if before.None? && requests[i] in fleet.dynamic then Some(requests[i]) else before
  }

  /** A swap for each coming and each going. */
  function Moves(requests: seq<Model>, fleet: Fleet, clock: Clock, n: nat): seq<Swap>
    requires n <= |requests| && fleet.persistent != []
  {
    if n == 0 then []
    else
      var before, guest := Resident(requests, fleet, clock, n - 1), Guest(requests, fleet, clock, n - 1);
      var home, after := fleet.persistent[0], Resident(requests, fleet, clock, n);
      Moves(requests, fleet, clock, n - 1)
      + (if before.None? && guest.Some? then [Swap(Some(home), guest.value)] else [])
      + (if guest.Some? && after.None? then [Swap(guest, home)] else [])
  }

  /** The policy has the given guest, last asked for at the given time. */
  function AskedAt(requests: seq<Model>, clock: Clock, guest: Option<Model>, n: nat): int
    requires n <= |requests|
  {
    if guest.Some? then clock(LastAsked(requests, guest.value, n), 0) else 0
  }

  predicate Hosts(q: Policy, fleet: Fleet, guest: Option<Model>, asked: int)
    requires Keyed(q, fleet)
  {
    && q.current == (if guest.Some? then guest.value else fleet.persistent[0])
    && (guest.Some? ==> guest.value in fleet.dynamic && q.lastRequest[guest.value] == Some(asked))
  }

  ghost predicate IsHost(q: Policy, requests: seq<Model>, fleet: Fleet, clock: Clock, n: nat)
    requires n <= |requests| && fleet.persistent != [] && Keyed(q, fleet)
  {
    var guest := Resident(requests, fleet, clock, n);
    && Steady(q, fleet) && q.swaps == Moves(requests, fleet, clock, n)
    && Hosts(q, fleet, guest, AskedAt(requests, clock, guest, n))
  }

  /** A request brings its model in, or renews the guest's time, or neither. */
  lemma RequestIsHosted(q: Policy, fleet: Fleet, before: Option<Model>, asked: int, model: Model, now: int)
    requires Steady(q, fleet) && fleet.persistent[0] !in fleet.dynamic && Hosts(q, fleet, before, asked)
    ensures var r := Requested(q, fleet, model, now);
            var guest := if before.None? && model in fleet.dynamic then Some(model) else before;
            && Hosts(r, fleet, guest, if guest == Some(model) then now else asked)
            && r.swaps == q.swaps + (if before.None? && guest.Some?
                                     then [Swap(Some(fleet.persistent[0]), guest.value)] else [])
  {
  }

  /** A pass sends a forgotten guest home. */
  lemma PassIsHosted(q: Policy, fleet: Fleet, guest: Option<Model>, asked: int, clock: nat -> int)
    requires Steady(q, fleet) && fleet.persistent[0] !in fleet.dynamic && Hosts(q, fleet, guest, asked)
    ensures var r := IdleRules(q, fleet, |fleet.dynamic|, clock);
            var forgotten := guest.Some? && IsLate(fleet, guest.value, asked, clock);
            && Hosts(r, fleet, if forgotten then None else guest, asked)
            && r.swaps == q.swaps + if forgotten then [Swap(guest, fleet.persistent[0])] else []
  {
    PassTakesOutIdle(q, fleet, |fleet.dynamic|, clock);
  }

  /** Iteration i, up to its pass. */
  lemma RequestHosts(requests: seq<Model>, fleet: Fleet, clock: Clock, i: nat, q: Policy)
    requires i < |requests| && fleet.persistent != [] && fleet.persistent[0] !in fleet.dynamic
    requires Keyed(q, fleet) && IsHost(q, requests, fleet, clock, i)
    ensures var r := Requested(q, fleet, requests[i], clock(i, 0));
            var before, guest := Resident(requests, fleet, clock, i), Guest(requests, fleet, clock, i);
            && Steady(r, fleet) && Hosts(r, fleet, guest, AskedAt(requests, clock, guest, i + 1))
            && r.swaps == Moves(requests, fleet, clock, i) + (if before.None? && guest.Some?
                                     then [Swap(Some(fleet.persistent[0]), guest.value)] else [])
  {
    var before := Resident(requests, fleet, clock, i);
    RequestIsHosted(q, fleet, before, AskedAt(requests, clock, before, i), requests[i], clock(i, 0));
    RequestedIsSteady(q, fleet, requests[i], clock(i, 0));
  }

  lemma PassHosts(requests: seq<Model>, fleet: Fleet, clock: Clock, i: nat, r: Policy)
    requires i < |requests| && fleet.persistent != [] && fleet.persistent[0] !in fleet.dynamic && Steady(r, fleet)
    requires var guest := Guest(requests, fleet, clock, i);
             Hosts(r, fleet, guest, AskedAt(requests, clock, guest, i + 1))
    ensures var p := IdleRules(r, fleet, |fleet.dynamic|, During(clock, i));
            var guest, after := Guest(requests, fleet, clock, i), Resident(requests, fleet, clock, i + 1);
            && Steady(p, fleet) && Hosts(p, fleet, after, AskedAt(requests, clock, after, i + 1))
            && p.swaps == r.swaps + if guest.Some? && after.None? then [Swap(guest, fleet.persistent[0])] else []
  {
    var guest := Guest(requests, fleet, clock, i);
    PassIsHosted(r, fleet, guest, AskedAt(requests, clock, guest, i + 1), During(clock, i));
    IdleRulesAreSteady(r, fleet, |fleet.dynamic|, During(clock, i));
  }

  lemma HostsOneMore(requests: seq<Model>, fleet: Fleet, clock: Clock, i: nat)
    requires i < |requests| && fleet.persistent != [] && fleet.persistent[0] !in fleet.dynamic
    requires IsHost(Served(requests, fleet, clock, i), requests, fleet, clock, i)
    ensures IsHost(Served(requests, fleet, clock, i + 1), requests, fleet, clock, i + 1)
  {
    var q := Served(requests, fleet, clock, i);
    RequestHosts(requests, fleet, clock, i, q);
    var r := Requested(q, fleet, requests[i], clock(i, 0));
    PassHosts(requests, fleet, clock, i, r);
    PersistentRuleIsIdle(IdleRules(r, fleet, |fleet.dynamic|, During(clock, i)), fleet,
                         clock(i, |fleet.dynamic| + 1));
  }

  /** Unless the first persistent model is listed among the dynamic ones, the policy is always on its
      guest, or else on that model, and queues one swap for each coming and each going. */
  lemma CurrentIsResident(requests: seq<Model>, fleet: Fleet, clock: Clock, n: nat)
    requires n <= |requests| && fleet.persistent != [] && fleet.persistent[0] !in fleet.dynamic
    ensures var q, guest := Served(requests, fleet, clock, n), Resident(requests, fleet, clock, n);
            && q.current == (if guest.Some? then guest.value else fleet.persistent[0])
            && q.swaps == Moves(requests, fleet, clock, n) && q.numSwaps == |q.swaps|
  {
    StartIsSteady(fleet);
    for i := 0 to n
      invariant IsHost(Served(requests, fleet, clock, i), requests, fleet, clock, i)
    {
      HostsOneMore(requests, fleet, clock, i);
    }
  }

  /** The first of the first n requests that is for a dynamic model. */
  function FirstDynamic(requests: seq<Model>, fleet: Fleet, n: nat): Option<Model>
    requires n <= |requests|
  {
    if n == 0 then None
    else
      var first := FirstDynamic(requests, fleet, n - 1);
      if first.None? && requests[n - 1] in fleet.dynamic then Some(requests[n - 1]) else first
  }

  /** In a run of at most two seconds, the first dynamic model asked for comes in and stays: others wait
      in vain. */
  lemma {:induction false} ShortRunSwapsOnce(requests: seq<Model>, fleet: Fleet, clock: Clock, n: nat)
    requires n <= |requests| && fleet.persistent != []
    requires forall i: nat, j: nat, k: nat :: i < |requests| && j < |requests| ==> clock(i, k) - clock(j, 0) <= 2
    ensures Resident(requests, fleet, clock, n) == FirstDynamic(requests, fleet, n)
    ensures Moves(requests, fleet, clock, n) ==
            match FirstDynamic(requests, fleet, n)
            case None => []
            case Some(first) => [Swap(Some(fleet.persistent[0]), first)]
  {
    if n > 0 {
      ShortRunSwapsOnce(requests, fleet, clock, n - 1);
      var guest := Guest(requests, fleet, clock, n - 1);
      if guest.Some? {
        GuestWasAsked(requests, fleet, clock, n - 1);
        NotForgotten(requests, fleet, clock, guest.value, n - 1);
        assert Resident(requests, fleet, clock, n) == guest;
      }
    }
  }

  lemma NotForgotten(requests: seq<Model>, fleet: Fleet, clock: Clock, model: Model, i: nat)
    requires i < |requests| && model in requests[..i + 1]
    requires forall j: nat, k: nat :: j < |requests| ==> clock(i, k) - clock(j, 0) <= 2
    ensures !Forgotten(requests, fleet, clock, model, i)
  {
  }

  /** When every pass is late, each request for a dynamic model brings it in for that request only. */
  lemma {:induction false} LatePassesSwapEachTime(requests: seq<Model>, fleet: Fleet, clock: Clock, n: nat)
    requires n <= |requests| && fleet.persistent != []
    requires forall i: nat, k: nat :: i < |requests| && 0 < k ==> clock(i, k) - clock(i, 0) > 2
    ensures Resident(requests, fleet, clock, n).None?
    ensures Moves(requests, fleet, clock, n) == Visits(requests[..n], fleet)
  {
    if n > 0 {
      LatePassesSwapEachTime(requests, fleet, clock, n - 1);
      var model := requests[n - 1];
      assert requests[..n][..n - 1] == requests[..n - 1];
      if model in fleet.dynamic {
        var k: nat :| k < |fleet.dynamic| && fleet.dynamic[k] == model;
        assert During(clock, n - 1)(k + 1) - clock(LastAsked(requests, model, n), 0) > 2;
        assert Forgotten(requests, fleet, clock, model, n - 1);
      }
    }
  }

  function Visits(requests: seq<Model>, fleet: Fleet): seq<Swap>
    requires fleet.persistent != []
  {
    if requests == [] then []
    else
      var n, home := |requests| - 1, fleet.persistent[0];
      Visits(requests[..n], fleet)
      + if requests[n] in fleet.dynamic then [Swap(Some(home), requests[n]), Swap(Some(requests[n]), home)] else []
  }

  lemma {:induction false} ResidentWasAsked(requests: seq<Model>, fleet: Fleet, clock: Clock, n: nat)
    requires n <= |requests|
    ensures var guest := Resident(requests, fleet, clock, n); guest.Some? ==> guest.value in requests[..n]
    decreases n, 0
  {
    if n > 0 {
      GuestWasAsked(requests, fleet, clock, n - 1);
    }
  }

  lemma {:induction false} GuestWasAsked(requests: seq<Model>, fleet: Fleet, clock: Clock, i: nat)
    requires i < |requests|
    ensures var guest := Guest(requests, fleet, clock, i); guest.Some? ==> guest.value in requests[..i + 1]
    decreases i, 1
  {
    ResidentWasAsked(requests, fleet, clock, i);
    assert requests[..i + 1] == requests[..i] + [requests[i]];
  }

  lemma ServedOneMore(requests: seq<Model>, fleet: Fleet, clock: Clock, i: nat)
    requires i < |requests| && fleet.persistent != []
    ensures var q := Requested(Served(requests, fleet, clock, i), fleet, requests[i], clock(i, 0));
            Served(requests, fleet, clock, i + 1) ==
            PersistentRule(IdleRules(q, fleet, |fleet.dynamic|, During(clock, i)), fleet,
                           clock(i, |fleet.dynamic| + 1))
  {
  }

  /** The policy as it runs over its requests. The assertion in its inner loop never fails. */
  method RunGenerationOneQueue(requests: seq<Model>, fleet: Fleet, clock: Clock) returns (q: Policy)
    requires fleet.persistent != []
    ensures q == Served(requests, fleet, clock, |requests|) && Steady(q, fleet)
  {
    q := Start(fleet);
    for i := 0 to |requests|
      invariant q == Served(requests, fleet, clock, i)
    {
      var model := requests[i];
      OneQueueIsSteady(requests, fleet, clock, i);
      RequestedIsSteady(q, fleet, model, clock(i, 0));
      ServedOneMore(requests, fleet, clock, i);
      q := SwapInFirst(q, fleet, model, clock(i, 0));
      q := SwapOutIdle(q, fleet, During(clock, i));
      q := SwapOutLongest(q, fleet, clock(i, |fleet.dynamic| + 1));
    }
    OneQueueIsSteady(requests, fleet, clock, |requests|);
  }

  method SwapInFirst(before: Policy, fleet: Fleet, model: Model, now: int) returns (q: Policy)
    requires Keyed(before, fleet)
    ensures q == Requested(before, fleet, model, now)
    ensures model !in fleet.dynamic ==> q == before
    ensures model in fleet.dynamic && (before.active[model] || before.current in fleet.dynamic) ==>
              q == before.(lastRequest := before.lastRequest[model := Some(now)])
    ensures model in fleet.dynamic && !before.active[model] && before.current !in fleet.dynamic ==>
              q == Policy(model, before.active[model := true], before.lastRequest[model := Some(now)],
                          before.lastActivation[before.current := None],
                          before.swaps + [Swap(Some(before.current), model)], before.numSwaps + 1)
  {
    q := before;
    if model in fleet.dynamic {
      if !q.active[model] && q.current !in fleet.dynamic {
        q := q.(swaps := q.swaps + [Swap(Some(q.current), model)]);
        q := q.(active := q.active[model := true]);
        q := q.(lastActivation := q.lastActivation[q.current := None]);
        q := q.(current := model, numSwaps := q.numSwaps + 1);
      }
      q := q.(lastRequest := q.lastRequest[model := Some(now)]);
    }
  }

  lemma ActiveIsCurrent(q: Policy, fleet: Fleet, d: nat, clock: nat -> int)
    requires Steady(q, fleet) && d < |fleet.dynamic|
    ensures var r := IdleRules(q, fleet, d, clock); r.active[fleet.dynamic[d]] ==> r.current == fleet.dynamic[d]
  {
    IdleRulesAreSteady(q, fleet, d, clock);
  }

  lemma OneMoreRule(q: Policy, fleet: Fleet, d: nat, clock: nat -> int)
    requires Keyed(q, fleet) && d < |fleet.dynamic|
    ensures IdleRules(q, fleet, d + 1, clock) ==
            IdleRule(IdleRules(q, fleet, d, clock), fleet, fleet.dynamic[d], clock(d + 1))
  {
  }

  lemma TakenOutIs(q: Policy, fleet: Fleet, m: Model, r: Policy)
    requires Keyed(q, fleet) && m in fleet.dynamic && q.current == m
    requires r == Policy(fleet.persistent[0], q.active[m := false], q.lastRequest[m := None], q.lastActivation,
                         q.swaps + [Swap(Some(m), fleet.persistent[0])], q.numSwaps + 1)
    ensures r == TakenOut(q, fleet, m)
  {
  }

  method SwapOutIdle(before: Policy, fleet: Fleet, clock: nat -> int) returns (q: Policy)
    requires Steady(before, fleet)
    ensures q == IdleRules(before, fleet, |fleet.dynamic|, clock)
  {
    q := before;
    for d := 0 to |fleet.dynamic|
      invariant q == IdleRules(before, fleet, d, clock)
    {
      var m := fleet.dynamic[d];
      ActiveIsCurrent(before, fleet, d, clock);
      OneMoreRule(before, fleet, d, clock);
      if q.active[m] && Stale(q.lastRequest[m], clock(d + 1), IDLE_THRESHOLD) {
        ghost var r := q;
        q := q.(swaps := q.swaps + [Swap(Some(m), fleet.persistent[0])]);
        q := q.(active := q.active[m := false], lastRequest := q.lastRequest[m := None]);
        q := q.(current := fleet.persistent[0], numSwaps := q.numSwaps + 1);
        TakenOutIs(r, fleet, m, q);
      }
    }
  }

  method SwapOutLongest(before: Policy, fleet: Fleet, now: int) returns (q: Policy)
    requires Keyed(before, fleet)
    ensures q == PersistentRule(before, fleet, now)
    ensures |fleet.persistent| == 2 && before.current in fleet.persistent &&
            before.lastActivation[before.current].Some? && now > before.lastActivation[before.current].value + 10 ==>
              && q.current in fleet.persistent
              && (fleet.persistent[0] != fleet.persistent[1] ==> q.current != before.current)
              && q == Policy(q.current, before.active, before.lastRequest,
                             before.lastActivation[before.current := None],
                             before.swaps + [Swap(Some(before.current), q.current)], before.numSwaps + 1)
    ensures |fleet.persistent| != 2 || before.current !in fleet.persistent ||
            (match before.lastActivation[before.current] case None => true case Some(last) => now <= last + 10) ==>
              q == before
  {
    q := before;
    if |fleet.persistent| == 2 {
      if q.current in fleet.persistent && Stale(q.lastActivation[q.current], now, MAX_RUN_TIME) {
        var modelToSwap := if q.current == fleet.persistent[1] then fleet.persistent[0] else fleet.persistent[1];
        q := q.(swaps := q.swaps + [Swap(Some(q.current), modelToSwap)]);
        q := q.(lastActivation := q.lastActivation[q.current := None]);
        q := q.(current := modelToSwap, numSwaps := q.numSwaps + 1);
      }
    }
  }
}
