/** Variables whose name stands for something else in the outermost call than where they were made: the
    compiler resolves them to the wrong generation. */
module NameClashes {
  import opened Prelude
  import opened Ir
  import opened Executor
  import opened FixedLengthModels
  import opened DiscerningModels
  import opened Tracing
  import opened Network
  import opened CompiledMeaning
  import opened CompiledProofs
  import opened CompiledSettings
  import opened Compiler

  // ----- what a variable is resolved to -----

  /** A name in the table of the outermost call was not made up for an unnamed generation. */
  predicate NamesAreGiven(t: Trace)
    requires WellTyped(t)
  {
    forall i :: 0 <= i < |t.appends| ==>
      var kind := t.kinds[t.appends[i].obj]; var variables := Variables(t, |t.appends|, 0);
      kind.Variable? && kind.name in variables ==>
        variables[kind.name] in t.kinds && KeyOf(t.kinds[variables[kind.name]]) == Some(Some(kind.name))
  }

  /** The table of a call holds what was entered under a name last. */
  lemma {:induction false} LatestEntry(t: Trace, n: nat, name: string) returns (p: nat)
    requires WellTyped(t) && n <= |t.appends| && name in Variables(t, n, 0)
    ensures p < n && t.appends[p].obj == Variables(t, n, 0)[name] && t.appends[p].tracer == 0
    ensures forall i: nat :: p < i < n ==> !Named(t, i, 0, name)
  {
    var a := t.appends[n - 1];
    if a.tracer == 0 && KeyOf(t.kinds[a.obj]).Some? && Variables(t, n, 0)[name] == a.obj &&
       (name !in Variables(t, n - 1, 0) || Variables(t, n - 1, 0)[name] != a.obj) {
      p := n - 1;
    } else {
      p := LatestEntry(t, n - 1, name);
      if Variables(t, n, 0)[name] == a.obj && a.tracer == 0 && KeyOf(t.kinds[a.obj]).Some? {
        p := n - 1;
      }
    }
  }

  /** Where a variable is resolved to: the last append of some call under its name. */
  lemma ResolvedAppend(t: Trace, i: nat) returns (p: nat)
    requires Traceable(t) && NamesAreGiven(t) && i < |t.appends| && t.kinds[t.appends[i].obj].Variable?
    ensures var kind := t.kinds[t.appends[i].obj]; var variables := Variables(t, |t.appends|, 0);
            && p < |t.appends|
            && t.appends[p].obj == (if kind.name in variables then variables[kind.name] else kind.source)
            && KeyOf(t.kinds[t.appends[p].obj]) == Some(Some(kind.name))
            && forall q: nat :: p < q ==> !Named(t, q, t.appends[p].tracer, kind.name)
  {
    var name := t.kinds[t.appends[i].obj].name;
    if name in Variables(t, |t.appends|, 0) {
      p := LatestEntry(t, |t.appends|, name);
    } else {
      assert VariableIsServed(t, i);
      p :| ServedBy(t, i, p);
    }
  }

  /** The object that an ordered variable reads comes before it. */
  lemma ReadsEarlier(r: Runs, j: nat) returns (k: nat)
    requires r.Valid() && j < |r.order| && r.order[j] in Objects(r.t) && KindOf(r, j).Variable?
    ensures |r.compiled| == |r.order| && k < j && r.order[k] in Objects(r.t) && r.order[j] in r.heap
    ensures SourceOf(r.heap, Variables(r.t, |r.t.appends|, 0), r.order[j]) == Some(r.order[k])
    ensures r.compiled[j].op == Read(r.compiled[k].stream, KindOf(r, j).name, true)
    ensures r.heap[r.order[j]].kind == KindOf(r, j)
  {
    var variables := Variables(r.t, |r.t.appends|, 0);
    OrderedObject(r, j);
    CompiledAt(r.heap, variables, r.order, |r.order|, r.arguments, r.defaults, j);
    assert Comes(r.order, SourceOf(r.heap, variables, r.order[j]), j);
    k := IndexOf(r.order[..j], SourceOf(r.heap, variables, r.order[j]).value);
    OrderedObject(r, k);
  }

  lemma SameAppend(r: Runs, k: nat, p: nat)
    requires Distinct(Objects(r.t)) && k < |r.order| && r.order[k] in Objects(r.t)
    requires p < |r.t.appends| && r.t.appends[p].obj == r.order[k]
    ensures AppendOf(r, k) == p
  {
    assert Objects(r.t)[AppendOf(r, k)] == Objects(r.t)[p];
  }

  /** It defines the name, as the last append of its call to do so. */
  lemma ResolvedBefore(r: Runs, j: nat) returns (k: nat)
    requires r.Valid() && NamesAreGiven(r.t) && j < |r.order| && r.order[j] in Objects(r.t)
    requires KindOf(r, j).Variable?
    ensures |r.compiled| == |r.order| && k < j && r.order[k] in Objects(r.t) && r.order[j] in r.heap
    ensures SourceOf(r.heap, Variables(r.t, |r.t.appends|, 0), r.order[j]) == Some(r.order[k])
    ensures r.compiled[j].op == Read(r.compiled[k].stream, KindOf(r, j).name, true)
    ensures Defines(r.compiled[k].op) == Some(Some(KindOf(r, j).name)) == KeyOf(KindOf(r, k))
    ensures forall i: nat :: AppendOf(r, k) < i ==> !Named(r.t, i, CallOf(r, k), KindOf(r, j).name)
  {
    k := ReadsEarlier(r, j);
    SameOperation(r, k);
    var p := ResolvedAppend(r.t, AppendOf(r, j));
    SameAppend(r, k, p);
  }

  /** No other definition of that name on its stream comes between. */
  lemma ResolvedIsLatest(r: Runs, j: nat) returns (k: nat)
    requires r.Valid() && NamesAreGiven(r.t) && j < |r.order| && r.order[j] in Objects(r.t)
    requires KindOf(r, j).Variable?
    ensures |r.compiled| == |r.order| && k < j && r.order[k] in Objects(r.t) && r.order[j] in r.heap
    ensures SourceOf(r.heap, Variables(r.t, |r.t.appends|, 0), r.order[j]) == Some(r.order[k])
    ensures r.compiled[j].op == Read(r.compiled[k].stream, KindOf(r, j).name, true)
    ensures Defines(r.compiled[k].op) == Some(Some(KindOf(r, j).name)) == KeyOf(KindOf(r, k))
    ensures forall m: nat :: k < m < j ==> !IsDefinition(r.compiled, m, r.compiled[k].stream, KindOf(r, j).name)
  {
    k := ResolvedBefore(r, j);
    forall m: nat | k < m < j
      ensures !IsDefinition(r.compiled, m, r.compiled[k].stream, KindOf(r, j).name)
    {
      NotBetween(r, k, m, KindOf(r, j).name);
    }
  }

  lemma NotBetween(r: Runs, k: nat, m: nat, name: string)
    requires r.Valid() && k < m < |r.order| && r.order[k] in Objects(r.t)
    requires forall i: nat :: AppendOf(r, k) < i ==> !Named(r.t, i, CallOf(r, k), name)
    ensures |r.compiled| == |r.order| && !IsDefinition(r.compiled, m, r.compiled[k].stream, name)
  {
    OrderedObject(r, k);
    OrderedObject(r, m);
    SameOperation(r, m);
    SameStream(r, k, m);
    if IsDefinition(r.compiled, m, r.compiled[k].stream, name) {
      OrderFollowsAppends(r, k, m);
      assert Named(r.t, AppendOf(r, m), CallOf(r, k), name);
    }
  }

  // ----- both runs have the same lengths -----

  /** With answers of one length the two runs write in step, whatever the variables are resolved to. */
  lemma {:induction false} RunsAreInStep(m: nat, c: Backends, d: Backends, r: Runs, j: nat)
    requires FixedLength(m, c) && FixedLength(m, d) && r.Valid() && NamesAreGiven(r.t) && j < |r.order|
    ensures Placed(r, j)
    ensures |CompiledBefore(c, r, j).text| == |DirectBefore(d, r, j).text|
    ensures |CompiledOut(c, r, j)| == |DirectOut(d, r, j)|
    ensures |CompiledAfter(c, r, j).text| == |DirectAfter(d, r, j).text|
    decreases j
  {
    var q := BeforeIsAfterPrevious(c, d, r, j);
    if q.Some? {
      RunsAreInStep(m, c, d, r, q.value);
    }
    SameOutputLength(m, c, d, r, j);
    AppliedText(CompiledBefore(c, r, j), r.compiled[j].op, CompiledOut(c, r, j));
    AppliedText(DirectBefore(d, r, j), r.direct[AppendOf(r, j)].op, DirectOut(d, r, j));
  }

  lemma SameOutputLength(m: nat, c: Backends, d: Backends, r: Runs, j: nat)
    requires FixedLength(m, c) && FixedLength(m, d) && r.Valid() && NamesAreGiven(r.t) && j < |r.order|
    ensures Placed(r, j) && |CompiledOut(c, r, j)| == |DirectOut(d, r, j)|
  {
    OrderedObject(r, j);
    SameOperation(r, j);
    OutputCosts(m, c, r.compiled, r.width, j);
    OutputCosts(m, d, r.direct, r.t.width, AppendOf(r, j));
    if KindOf(r, j).Variable? {
      var k := ResolvedIsLatest(r, j);
      OrderedObject(r, k);
      ReadCosts(m, c, r.compiled, r.width, k, j);
      assert VariableIsServed(r.t, AppendOf(r, j));
      var s: nat :| ServedBy(r.t, AppendOf(r, j), s);
      ReadInDirect(r, AppendOf(r, j), s);
      ReadCosts(m, d, r.direct, r.t.width, s, AppendOf(r, j));
    }
  }

  // ----- clashes show -----

  /** The j-th ordered object is a variable that the compiler resolved to the k-th, which asks the model
      something else than append d, from which the variable was made. */
  ghost predicate ResolvedAmiss(r: Runs, j: nat, k: nat, d: nat)
    requires r.Valid() && j < |r.order|
  {
    && ResolvedTo(r, j, k, d)
    && QueryOf(r.compiled, r.width, k) != QueryOf(r.direct, r.t.width, d)
  }

  ghost predicate ResolvedTo(r: Runs, j: nat, k: nat, d: nat)
    requires r.Valid() && j < |r.order|
  {
    && Placed(r, j) && r.order[j] in r.heap && ServedBy(r.t, AppendOf(r, j), d)
    && Placed(r, k) && SourceOf(r.heap, Variables(r.t, |r.t.appends|, 0), r.order[j]) == Some(r.order[k])
    && r.direct[d].stream < r.t.width
  }

  /** What the two runs read for a variable: the answers of the two objects. */
  lemma ReadsAnswers(c: Backends, r: Runs, j: nat, k: nat, d: nat)
    requires r.Valid() && NamesAreGiven(r.t) && j < |r.order| && ResolvedTo(r, j, k, d)
    ensures CompiledOut(c, r, j) == CompiledOut(c, r, k)
    ensures DirectOut(c, r, j) == OutputOf(c, r.direct, r.t.width, d)
    ensures Defines(r.compiled[k].op).Some? && Defines(r.direct[d].op).Some?
  {
    ReadsServed(c, r, j, d);
    ReadsResolved(c, r, j, k);
  }

  lemma ReadsServed(c: Backends, r: Runs, j: nat, d: nat)
    requires r.Valid() && Placed(r, j) && ServedBy(r.t, AppendOf(r, j), d) && r.direct[d].stream < r.t.width
    ensures DirectOut(c, r, j) == OutputOf(c, r.direct, r.t.width, d) && Defines(r.direct[d].op).Some?
  {
    ReadInDirect(r, AppendOf(r, j), d);
    ReadIsKept(c, r.direct, r.t.width, d, AppendOf(r, j));
  }

  lemma ReadsResolved(c: Backends, r: Runs, j: nat, k: nat)
    requires r.Valid() && NamesAreGiven(r.t) && Placed(r, j) && Placed(r, k) && r.order[j] in r.heap
    requires SourceOf(r.heap, Variables(r.t, |r.t.appends|, 0), r.order[j]) == Some(r.order[k])
    ensures CompiledOut(c, r, j) == CompiledOut(c, r, k) && Defines(r.compiled[k].op).Some?
  {
    OrderedObject(r, j);
    var k' := ResolvedIsLatest(r, j);
    OnlyPlace(r.order, k', k);
    LatestReadIsKept(c, r.compiled, r.width, k, j);
  }

  /** The j-th ordered object leaves the same text in both runs. */
  predicate Matches(c: Backends, r: Runs, j: nat) {
    Placed(r, j) && CompiledAfter(c, r, j).text == DirectAfter(c, r, j).text
  }

  lemma MatchBefore(m: nat, c: Backends, r: Runs, j: nat)
    requires FixedLength(m, c) && r.Valid() && NamesAreGiven(r.t) && j < |r.order| && Matches(c, r, j)
    ensures CompiledBefore(c, r, j).text == DirectBefore(c, r, j).text && CompiledOut(c, r, j) == DirectOut(c, r, j)
  {
    RunsAreInStep(m, c, c, r, j);
    AppliedText(CompiledBefore(c, r, j), r.compiled[j].op, CompiledOut(c, r, j));
    AppliedText(DirectBefore(c, r, j), r.direct[AppendOf(r, j)].op, DirectOut(c, r, j));
    SplitEqual(CompiledBefore(c, r, j).text, CompiledOut(c, r, j), DirectBefore(c, r, j).text, DirectOut(c, r, j));
  }

  lemma AppliedText(e: Exec, op: Op, output: string)
    ensures Apply(e, op, output).text == e.text + output
  {
  }

  lemma SplitEqual(a: string, o: string, a': string, o': string)
    requires a + o == a' + o' && |a| == |a'|
    ensures a == a' && o == o'
  {
    assert (a + o)[..|a|] == a && (a' + o')[..|a'|] == a';
    assert (a + o)[|a|..] == o && (a' + o')[|a'|..] == o';
  }

  /** A variable that is asked otherwise where it was resolved to than where it was made leaves a
      different text, whatever came before it. */
  lemma ClashShows(m: nat, b: Backend, r: Runs, j: nat, k: nat, d: nat)
    requires r.Valid() && NamesAreGiven(r.t) && j < |r.order| && ResolvedAmiss(r, j, k, d)
    requires Discerns(m, b, r.compiled, r.width, r.direct, r.t.width)
    ensures !Matches(Everywhere(b), r, j)
  {
    if Matches(Everywhere(b), r, j) {
      MatchBefore(m, Everywhere(b), r, j);
      ReadsAnswers(Everywhere(b), r, j, k, d);
      SameAnswerSameQuestion(m, b, r, k, d);
      SameQuestionSameQuery(m, Everywhere(b), r.compiled, r.width, k, r.direct, r.t.width, d);
    }
  }

  /** Equal answers in the two runs are answers to the same question. */
  lemma SameAnswerSameQuestion(m: nat, b: Backend, r: Runs, k: nat, d: nat)
    requires Placed(r, k) && d < |r.direct| && r.direct[d].stream < r.t.width
    requires Discerns(m, b, r.compiled, r.width, r.direct, r.t.width)
    requires Defines(r.compiled[k].op).Some? && Defines(r.direct[d].op).Some?
    requires CompiledOut(Everywhere(b), r, k) == OutputOf(Everywhere(b), r.direct, r.t.width, d)
    ensures QuestionAt(Everywhere(b), r.compiled, r.width, k).Some?
    ensures QuestionAt(Everywhere(b), r.compiled, r.width, k) == QuestionAt(Everywhere(b), r.direct, r.t.width, d)
  {
    assert AnswersTell(b, r.compiled, r.width, k, r.direct, r.t.width, d);
  }

  /** An object of the outermost call is on the streams that the two runs return. */
  lemma OnReturnedStream(r: Runs, last: Id, j: nat)
    requires r.Valid() && j < |r.order| && r.order[j] in Objects(r.t) && CallOf(r, j) == 0
    requires LastNode(r.t, |r.t.appends|, 0) == Some(last) && last in r.order
    ensures Placed(r, j) && r.compiled[j].stream == StreamOf(r.heap, last) && r.direct[AppendOf(r, j)].stream == 0
  {
    OrderedObject(r, j);
    var p, jl := LastOfStream(r, last);
    SameStream(r, j, jl);
    OrderedObject(r, jl);
  }

  lemma ResultsExtend(c: Backends, r: Runs, last: Id, j: nat)
    requires Placed(r, j) && r.compiled[j].stream == StreamOf(r.heap, last) && r.direct[AppendOf(r, j)].stream == 0
    ensures IsPrefix(CompiledAfter(c, r, j).text, CompiledResult(c, r, last).text)
    ensures IsPrefix(DirectAfter(c, r, j).text, DirectResult(c, r).text)
  {
    TextStays(c, r.compiled, r.width, r.compiled[j].stream, j + 1, |r.compiled|);
    TextStays(c, r.direct, r.t.width, 0, AppendOf(r, j) + 1, |r.direct|);
  }

  lemma DifferAtBeginning(a: string, a': string, s: string, s': string)
    requires IsPrefix(a, s) && IsPrefix(a', s') && |a| == |a'| && a != a'
    ensures s != s'
  {
    assert a == s[..|a|] && a' == s'[..|a|];
  }

  /** If the variable belongs to the outermost call, the text returned differs. */
  lemma ClashChangesResult(r: Runs, last: Id, j: nat, k: nat, d: nat) returns (b: Backend)
    requires r.Valid() && NamesAreGiven(r.t) && j < |r.order| && ResolvedAmiss(r, j, k, d) && CallOf(r, j) == 0
    requires LastNode(r.t, |r.t.appends|, 0) == Some(last) && last in r.order
    ensures StreamOf(r.heap, last) < r.width && 0 < r.t.width
    ensures CompiledResult(Everywhere(b), r, last).text != DirectResult(Everywhere(b), r).text
  {
    var m;
    m, b := DiscerningModel(r.compiled, r.width, r.direct, r.t.width);
    var c := Everywhere(b);
    ClashShows(m, b, r, j, k, d);
    OnReturnedStream(r, last, j);
    ResultsExtend(c, r, last, j);
    RunsAreInStep(m, c, c, r, j);
    DifferAtBeginning(CompiledAfter(c, r, j).text, DirectAfter(c, r, j).text,
                      CompiledResult(c, r, last).text, DirectResult(c, r).text);
  }

  // ----- variables of nested calls -----

  /** Where an object leaves the same text, so did the previous object of its chain. */
  lemma MatchPrevious(m: nat, b: Backend, r: Runs, j: nat, k: nat)
    requires r.Valid() && NamesAreGiven(r.t) && j < |r.order| && k < |r.order| && Matches(Everywhere(b), r, j)
    requires FixedLength(m, Everywhere(b)) && r.order[j] in r.heap && r.heap[r.order[j]].prev == Some(r.order[k])
    ensures Matches(Everywhere(b), r, k)
  {
    MatchBefore(m, Everywhere(b), r, j);
    var q := BeforeIsAfterPrevious(Everywhere(b), Everywhere(b), r, j);
    OnlyPlace(r.order, q.value, k);
  }

  /** So did the source of a variable, where that was resolved as it was made. */
  lemma MatchSource(m: nat, b: Backend, r: Runs, j: nat, k: nat)
    requires r.Valid() && NamesAreGiven(r.t) && j < |r.order| && k < |r.order| && Matches(Everywhere(b), r, j)
    requires Discerns(m, b, r.compiled, r.width, r.direct, r.t.width)
    requires Placed(r, k) && ResolvedTo(r, j, k, AppendOf(r, k))
    ensures Matches(Everywhere(b), r, k)
  {
    var c := Everywhere(b);
    MatchBefore(m, c, r, j);
    ReadsAnswers(c, r, j, k, AppendOf(r, k));
    SameAnswerSameQuestion(m, b, r, k, AppendOf(r, k));
    SameQuestionMatches(c, r, k);
  }

  lemma SameQuestionMatches(c: Backends, r: Runs, k: nat)
    requires Placed(r, k) && QuestionAt(c, r.compiled, r.width, k).Some?
    requires QuestionAt(c, r.compiled, r.width, k) == QuestionAt(c, r.direct, r.t.width, AppendOf(r, k))
    requires CompiledOut(c, r, k) == DirectOut(c, r, k)
    ensures Matches(c, r, k)
  {
    AppliedText(CompiledBefore(c, r, k), r.compiled[k].op, CompiledOut(c, r, k));
    AppliedText(DirectBefore(c, r, k), r.direct[AppendOf(r, k)].op, DirectOut(c, r, k));
  }

  /** Every ordered variable is resolved to the object it was made from or to one that asks the model
      something else. */
  ghost predicate ClashesAskOtherwise(r: Runs)
    requires r.Valid()
  {
    forall j: nat, k: nat, d: nat :: j < |r.order| && ResolvedTo(r, j, k, d) && AppendOf(r, k) != d ==>
      ResolvedAmiss(r, j, k, d)
  }

  lemma ResolvedSomewhere(r: Runs, j: nat) returns (k: nat, d: nat)
    requires r.Valid() && NamesAreGiven(r.t) && j < |r.order| && r.order[j] in Objects(r.t) && KindOf(r, j).Variable?
    ensures k < |r.order| && ResolvedTo(r, j, k, d)
    ensures ResolvesToSource(r.t, AppendOf(r, j)) <==> AppendOf(r, k) == d
  {
    OrderedObject(r, j);
    k := ResolvedIsLatest(r, j);
    OrderedObject(r, k);
    d := ServedSomewhere(r, j);
    MadeWhereResolved(r, j, k, d);
  }

  lemma ServedSomewhere(r: Runs, j: nat) returns (d: nat)
    requires r.Valid() && j < |r.order| && r.order[j] in Objects(r.t) && KindOf(r, j).Variable?
    ensures ServedBy(r.t, AppendOf(r, j), d) && |r.direct| == |r.t.appends| && r.direct[d].stream < r.t.width
  {
    assert VariableIsServed(r.t, AppendOf(r, j));
    d :| ServedBy(r.t, AppendOf(r, j), d);
    ReadInDirect(r, AppendOf(r, j), d);
  }

  lemma MadeWhereResolved(r: Runs, j: nat, k: nat, d: nat)
    requires WellTyped(r.t) && Distinct(Objects(r.t)) && j < |r.order| && r.order[j] in Objects(r.t)
    requires r.order[j] in r.heap && r.heap[r.order[j]].kind == KindOf(r, j) && ServedBy(r.t, AppendOf(r, j), d)
    requires k < |r.order| && r.order[k] in Objects(r.t)
    requires SourceOf(r.heap, Variables(r.t, |r.t.appends|, 0), r.order[j]) == Some(r.order[k])
    ensures ResolvesToSource(r.t, AppendOf(r, j)) <==> AppendOf(r, k) == d
  {
    assert Objects(r.t)[AppendOf(r, k)] == r.order[k] && Objects(r.t)[d] == KindOf(r, j).source;
  }

  lemma MatchSpreads(m: nat, b: Backend, r: Runs, j: nat, k: nat)
    requires r.Valid() && NamesAreGiven(r.t) && j < |r.order| && Matches(Everywhere(b), r, j) && ClashesAskOtherwise(r)
    requires Discerns(m, b, r.compiled, r.width, r.direct, r.t.width) && k < |r.order|
    requires r.order[j] in r.heap
    requires SourceOf(r.heap, Variables(r.t, |r.t.appends|, 0), r.order[j]) == Some(r.order[k])
    ensures Matches(Everywhere(b), r, k)
  {
    OrderedObject(r, j);
    var k', d := ResolvedSomewhere(r, j);
    OnlyPlace(r.order, k, k');
    if AppendOf(r, k) != d {
      ClashShows(m, b, r, j, k, d);
    }
    MatchSource(m, b, r, j, k);
  }

  predicate LeavesMatch(c: Backends, r: Runs, id: Id) {
    exists j: nat :: j < |r.order| && r.order[j] == id && Matches(c, r, j)
  }

  lemma MatchFrom(m: nat, b: Backend, r: Runs, id: Id, to: Id)
    requires r.Valid() && NamesAreGiven(r.t) && ClashesAskOtherwise(r) && LeavesMatch(Everywhere(b), r, id)
    requires Discerns(m, b, r.compiled, r.width, r.direct, r.t.width)
    requires DependsOn(HeapAfter(r.t, |r.t.appends|), Variables(r.t, |r.t.appends|, 0), id, to)
    ensures to in r.order && LeavesMatch(Everywhere(b), r, to)
  {
    var j: nat :| j < |r.order| && r.order[j] == id && Matches(Everywhere(b), r, j);
    OrderedObject(r, j);
    var k := PlaceOf(r, j, to);
    if r.heap[id].prev == Some(to) {
      MatchPrevious(m, b, r, j, k);
    } else {
      MatchSpreads(m, b, r, j, k);
    }
  }

  lemma MatchIsBackClosed(m: nat, b: Backend, r: Runs, matching: set<Id>)
    requires r.Valid() && NamesAreGiven(r.t) && ClashesAskOtherwise(r)
    requires Discerns(m, b, r.compiled, r.width, r.direct, r.t.width)
    requires matching == set id | id in r.order && LeavesMatch(Everywhere(b), r, id)
    ensures BackClosed(HeapAfter(r.t, |r.t.appends|), Variables(r.t, |r.t.appends|, 0), matching)
  {
    var heap, variables := HeapAfter(r.t, |r.t.appends|), Variables(r.t, |r.t.appends|, 0);
    forall id, to | id in matching && DependsOn(heap, variables, id, to)
      ensures to in matching
    {
      MatchFrom(m, b, r, id, to);
    }
    ClosedUnderDependence(heap, variables, matching);
  }

  /** If the results match, so does everything the last node depends on. */
  lemma AllMatch(m: nat, b: Backend, r: Runs, last: Id, k: nat)
    requires r.Valid() && NamesAreGiven(r.t) && ClashesAskOtherwise(r) && OnlyReached(r, last) && last in r.order
    requires Discerns(m, b, r.compiled, r.width, r.direct, r.t.width)
    requires LeavesMatch(Everywhere(b), r, last) && k < |r.order|
    ensures Matches(Everywhere(b), r, k)
  {
    var matching := set id | id in r.order && LeavesMatch(Everywhere(b), r, id);
    MatchIsBackClosed(m, b, r, matching);
    OrderedIsIn(r, last, matching, k);
    MatchesThere(Everywhere(b), r, k);
  }

  lemma MatchesThere(c: Backends, r: Runs, k: nat)
    requires Distinct(r.order) && k < |r.order| && LeavesMatch(c, r, r.order[k])
    ensures Matches(c, r, k)
  {
    var j: nat :| j < |r.order| && r.order[j] == r.order[k] && Matches(c, r, j);
    OnlyPlace(r.order, j, k);
  }

  /** A clash in whatever call has a model with which the text returned differs. */
  lemma AnyClashChangesResult(r: Runs, last: Id, j: nat) returns (b: Backend)
    requires r.Valid() && NamesAreGiven(r.t) && ClashesAskOtherwise(r) && OnlyReached(r, last)
    requires LastNode(r.t, |r.t.appends|, 0) == Some(last) && last in r.order
    requires j < |r.order| && r.order[j] in Objects(r.t) && !ResolvesToSource(r.t, AppendOf(r, j))
    ensures StreamOf(r.heap, last) < r.width && 0 < r.t.width
    ensures CompiledResult(Everywhere(b), r, last).text != DirectResult(Everywhere(b), r).text
  {
    var m;
    m, b := DiscerningModel(r.compiled, r.width, r.direct, r.t.width);
    var jl := ResultsAreAfterLast(Everywhere(b), Everywhere(b), r, last);
    var k, d := ResolvedSomewhere(r, j);
    ClashShows(m, b, r, j, k, d);
    if Matches(Everywhere(b), r, jl) {
      assert LeavesMatch(Everywhere(b), r, last);
      AllMatch(m, b, r, last, j);
    }
  }

  /** For programs whose clashing names ask for different things, the compiled run returns the text of the
      direct run for every model exactly when all ordered generations resolve to the same parameters and
      all ordered variables to what they were made from. */
  lemma SameTextIffResolved(r: Runs, last: Id)
    requires r.Valid() && NamesAreGiven(r.t) && ClashesAskOtherwise(r) && OnlyReached(r, last)
    requires LastNode(r.t, |r.t.appends|, 0) == Some(last) && last in r.order
    ensures StreamOf(r.heap, last) < r.width && 0 < r.t.width
    ensures (forall b: Backend ::
               CompiledResult(Everywhere(b), r, last).text == DirectResult(Everywhere(b), r).text) <==>
            SameSettings(r) && r.Resolves()
  {
    if r.Resolves() {
      SameTextIffSameSettings(r, last);
    } else {
      var j: nat :| j < |r.order| && r.order[j] in Objects(r.t) && !ResolvesToSource(r.t, AppendOf(r, j));
      var b := AnyClashChangesResult(r, last, j);
    }
  }

  // ----- a variable resolved to what comes later -----

  /** The chain of the outermost call leads from every append to every earlier one. */
  lemma {:induction false} LaterIsNotGrounded(t: Trace, i: nat, p: nat, k: nat, m: nat)
    requires Traceable(t) && i < p < |t.appends| && i <= k < |t.appends|
    requires t.appends[i].tracer == 0 == t.appends[p].tracer == t.appends[k].tracer
    requires t.kinds[t.appends[i].obj].Variable? && t.kinds[t.appends[i].obj].name in Variables(t, |t.appends|, 0)
    requires Variables(t, |t.appends|, 0)[t.kinds[t.appends[i].obj].name] == t.appends[p].obj
    ensures !Grounded(HeapAfter(t, |t.appends|), Variables(t, |t.appends|, 0), t.appends[k].obj, m)
    decreases m
  {
    if m > 0 {
      HeapHolds(t, |t.appends|, k);
      if k == i {
        LaterIsNotGrounded(t, i, p, p, m - 1);
      } else {
        var q := LastIndex(t, k, 0);
        LaterIsNotGrounded(t, i, p, q.value, m - 1);
      }
    }
  }

  /** A variable of the outermost call that is resolved to a later append of that call is never listed,
      and neither is the last node. */
  lemma LaterSourceIsNeverListed(t: Trace, i: nat, p: nat, last: Id)
    requires Traceable(t) && i < p < |t.appends| && t.appends[i].tracer == 0 == t.appends[p].tracer
    requires t.kinds[t.appends[i].obj].Variable? && t.kinds[t.appends[i].obj].name in Variables(t, |t.appends|, 0)
    requires Variables(t, |t.appends|, 0)[t.kinds[t.appends[i].obj].name] == t.appends[p].obj
    requires LastNode(t, |t.appends|, 0) == Some(last)
    ensures !IsGrounded(HeapAfter(t, |t.appends|), Variables(t, |t.appends|, 0), t.appends[i].obj)
    ensures !IsGrounded(HeapAfter(t, |t.appends|), Variables(t, |t.appends|, 0), last)
  {
    var l := LastIndex(t, |t.appends|, 0);
    forall m: nat
      ensures !Grounded(HeapAfter(t, |t.appends|), Variables(t, |t.appends|, 0), t.appends[i].obj, m)
      ensures !Grounded(HeapAfter(t, |t.appends|), Variables(t, |t.appends|, 0), last, m)
    {
      LaterIsNotGrounded(t, i, p, i, m);
      LaterIsNotGrounded(t, i, p, l.value, m);
    }
  }
}
