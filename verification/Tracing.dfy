/** What tracing a program leaves behind: linked IR objects, one chain per tracer,
    and the table of variables of each tracer. */
module Tracing {
  import opened Prelude
  import opened Ir

  /** Objects appended by `+=` are labelled with their tracer. The text of a role is not labelled.
      The compiler relabels the objects it reaches with stream numbers. */
  datatype Pid = Unset | Tracer(t: nat) | Stream(n: nat)

  datatype IrNode = IrNode(kind: Kind, prev: Option<Id>, pid: Pid)

  type Heap = map<Id, IrNode>

  datatype Append = Append(tracer: nat, obj: Id, labelled: bool)

  /** The IR objects that exist: what each was created as, and the links of those appended so far.
      Objects are known by node_ids, handed out in order. */
  class IrHeap {
    var kinds: map<Id, Kind>
    var objects: Heap
    var nodeCount: nat

    ghost predicate Valid()
      reads this
    {
      && (forall id :: id in kinds ==> id < nodeCount)
      && (forall id :: id in objects ==> id in kinds && objects[id].kind == kinds[id])
    }

    constructor ()
      ensures Valid() && kinds == map[] && objects == map[] && nodeCount == 0
    {
      kinds, objects, nodeCount := map[], map[], 0;
    }

    method Create(kind: Kind) returns (id: Id)
      requires Valid()
      modifies this`kinds, this`nodeCount
      ensures Valid() && id == old(nodeCount) && id !in old(kinds) && kinds == old(kinds)[id := kind]
    {
      id := nodeCount;
      nodeCount := nodeCount + 1;
      kinds := kinds[id := kind];
    }
  }

  /** A traced program: the objects it appends, in program order. Tracer 0 traces the outermost function. */
  datatype Trace = Trace(width: nat, kinds: map<Id, Kind>, appends: seq<Append>)

  predicate WellTyped(t: Trace) {
    forall i :: 0 <= i < |t.appends| ==> t.appends[i].obj in t.kinds && t.appends[i].tracer < t.width
  }

  /** The last object that a tracer appended among the first n appends. */
  function LastNode(t: Trace, n: nat, tracer: nat): Option<Id>
    requires n <= |t.appends|
  {
    if n == 0 then None
    else if t.appends[n - 1].tracer == tracer then Some(t.appends[n - 1].obj)
    else LastNode(t, n - 1, tracer)
  }

  /** Appending overwrites the link of an object that was appended before. */
  function HeapAfter(t: Trace, n: nat): Heap
    requires n <= |t.appends| && WellTyped(t)
  {
    if n == 0 then map[]
    else
      var a := t.appends[n - 1];
      HeapAfter(t, n - 1)[a.obj := IrNode(t.kinds[a.obj], LastNode(t, n - 1, a.tracer),
                                          if a.labelled then Tracer(a.tracer) else Unset)]
  }

  function KeyOf(kind: Kind): Option<Key> {
    match kind
    case Gen(key, _) => Some(key)
    case Select(key, _) => Some(key)
    case _ => None
  }

  /** An unnamed gen or select is entered under a made-up name. */
  function EntryName(kind: Kind, entries: nat): string {
    match kind
    case Gen(Some(name), _) => name
    case Gen(None, _) => "gen_" + Decimal(entries)
    case Select(Some(name), _) => name
    case Select(None, _) => "select_" + Decimal(entries)
    case _ => ""
  }

  /** The variables of a tracer: the gen or select each name stands for. */
  function Variables(t: Trace, n: nat, tracer: nat): map<string, Id>
    requires n <= |t.appends| && WellTyped(t)
  {
    if n == 0 then map[]
    else
      var a := t.appends[n - 1];
      var before := Variables(t, n - 1, tracer);
      if a.tracer == tracer && KeyOf(t.kinds[a.obj]).Some? then
        before[EntryName(t.kinds[a.obj], |before|) := a.obj]
      else before
  }

  lemma NothingEntered(t: Trace, n: nat, tracer: nat)
    requires WellTyped(t) && n < |t.appends|
    requires t.appends[n].tracer != tracer || KeyOf(t.kinds[t.appends[n].obj]).None?
    ensures Variables(t, n + 1, tracer) == Variables(t, n, tracer)
  {
  }

  lemma NameEntered(t: Trace, n: nat, tracer: nat, name: string)
    requires WellTyped(t) && n < |t.appends| && t.appends[n].tracer == tracer
    requires KeyOf(t.kinds[t.appends[n].obj]) == Some(Some(name))
    ensures Variables(t, n + 1, tracer) == Variables(t, n, tracer)[name := t.appends[n].obj]
  {
  }

  // ----- made-up names -----

  predicate IsEntry(t: Trace, i: nat, tracer: nat)
    requires WellTyped(t) && i < |t.appends|
  {
    t.appends[i].tracer == tracer && KeyOf(t.kinds[t.appends[i].obj]).Some?
  }

  /** How many gens and selects the tracer appended among the first n objects. */
  function Entries(t: Trace, n: nat, tracer: nat): nat
    requires n <= |t.appends| && WellTyped(t)
  {
    if n == 0 then 0 else Entries(t, n - 1, tracer) + if IsEntry(t, n - 1, tracer) then 1 else 0
  }

  /** The made-up name with the given number, of a gen or of a select. */
  function MadeUp(isGen: bool, number: nat): string {
    (if isGen then "gen_" else "select_") + Decimal(number)
  }

  lemma MadeUpIsReadBack(isGen: bool, number: nat, isGen': bool, number': nat)
    ensures MadeUp(isGen, number) == MadeUp(isGen', number') <==> isGen == isGen' && number == number'
  {
    var name, name' := MadeUp(isGen, number), MadeUp(isGen', number');
    assert name[0] == (if isGen then 'g' else 's') && name'[0] == if isGen' then 'g' else 's';
    assert name[if isGen then 4 else 7..] == Decimal(number) && name'[if isGen' then 4 else 7..] == Decimal(number');
    DecimalIsReadBack(number);
    DecimalIsReadBack(number');
  }

  predicate IsMadeUp(name: string, limit: nat) {
    exists isGen: bool, number: nat :: number < limit && name == MadeUp(isGen, number)
  }

  predicate AllMadeUp(entered: map<string, Id>) {
    forall name :: name in entered ==> IsMadeUp(name, |entered|)
  }

  /** All gens and selects of the tracer among the first n objects are unnamed. */
  predicate AllUnnamed(t: Trace, n: nat, tracer: nat)
    requires n <= |t.appends| && WellTyped(t)
  {
    forall i: nat :: i < n && IsEntry(t, i, tracer) ==> KeyOf(t.kinds[t.appends[i].obj]) == Some(None)
  }

  predicate AreNumbered(t: Trace, n: nat, tracer: nat, entered: map<string, Id>)
    requires n <= |t.appends| && WellTyped(t)
  {
    && |entered| == Entries(t, n, tracer)
    && AllMadeUp(entered)
    && forall i: nat :: i < n && IsEntry(t, i, tracer) ==>
         IsUnder(t, i, MadeUp(t.kinds[t.appends[i].obj].Gen?, Entries(t, i, tracer)), entered)
  }

  predicate IsUnder(t: Trace, i: nat, name: string, entered: map<string, Id>)
    requires i < |t.appends|
  {
    name in entered && entered[name] == t.appends[i].obj
  }

  lemma NewNameIsFree(entered: map<string, Id>, isGen: bool)
    requires AllMadeUp(entered)
    ensures MadeUp(isGen, |entered|) !in entered
  {
    if MadeUp(isGen, |entered|) in entered {
      var isGen', number: nat :| number < |entered| && MadeUp(isGen, |entered|) == MadeUp(isGen', number);
      MadeUpIsReadBack(isGen, |entered|, isGen', number);
    }
  }

  lemma OneMoreName(entered: map<string, Id>, isGen: bool, obj: Id)
    requires AllMadeUp(entered)
    ensures var entered' := entered[MadeUp(isGen, |entered|) := obj];
            && |entered'| == |entered| + 1 && MadeUp(isGen, |entered|) !in entered
            && AllMadeUp(entered')
  {
    NewNameIsFree(entered, isGen);
    var entered' := entered[MadeUp(isGen, |entered|) := obj];
    assert entered'.Keys == entered.Keys + {MadeUp(isGen, |entered|)};
    forall name | name in entered
      ensures IsMadeUp(name, |entered| + 1)
    {
      var isGen', number: nat :| number < |entered| && name == MadeUp(isGen', number);
    }
  }

  lemma StaysUnder(t: Trace, i: nat, name: string, entered: map<string, Id>, newName: string, obj: Id)
    requires i < |t.appends| && IsUnder(t, i, name, entered) && newName !in entered
    ensures IsUnder(t, i, name, entered[newName := obj])
  {
  }

  lemma NumberedOneMore(t: Trace, n: nat, tracer: nat, entered: map<string, Id>, name: string)
    requires WellTyped(t) && n < |t.appends| && AreNumbered(t, n, tracer, entered)
    requires IsEntry(t, n, tracer) && name == MadeUp(t.kinds[t.appends[n].obj].Gen?, |entered|)
    ensures AreNumbered(t, n + 1, tracer, entered[name := t.appends[n].obj])
  {
    OneMoreName(entered, t.kinds[t.appends[n].obj].Gen?, t.appends[n].obj);
    var entered' := entered[name := t.appends[n].obj];
    assert name !in entered && IsUnder(t, n, name, entered');
    forall i: nat | i < n + 1 && IsEntry(t, i, tracer)
      ensures IsUnder(t, i, MadeUp(t.kinds[t.appends[i].obj].Gen?, Entries(t, i, tracer)), entered')
    {
      if i < n {
        StaysUnder(t, i, MadeUp(t.kinds[t.appends[i].obj].Gen?, Entries(t, i, tracer)),
                   entered, name, t.appends[n].obj);
      }
    }
    assert Entries(t, n + 1, tracer) == |entered'|;
  }

  lemma NumberedAsBefore(t: Trace, n: nat, tracer: nat, entered: map<string, Id>)
    requires WellTyped(t) && n < |t.appends| && AreNumbered(t, n, tracer, entered) && !IsEntry(t, n, tracer)
    ensures AreNumbered(t, n + 1, tracer, entered)
  {
  }

  lemma UnnamedEntered(t: Trace, n: nat, tracer: nat)
    requires WellTyped(t) && n < |t.appends| && IsEntry(t, n, tracer)
    requires KeyOf(t.kinds[t.appends[n].obj]) == Some(None)
    ensures var before := Variables(t, n, tracer);
            Variables(t, n + 1, tracer) ==
            before[MadeUp(t.kinds[t.appends[n].obj].Gen?, |before|) := t.appends[n].obj]
  {
  }

  /** The gens and selects of a tracer that names none of them are told apart: each is entered under its kind
      and the number of those before it. */
  lemma UnnamedAreNumbered(t: Trace, n: nat, tracer: nat)
    requires WellTyped(t) && n <= |t.appends| && AllUnnamed(t, n, tracer)
    ensures AreNumbered(t, n, tracer, Variables(t, n, tracer))
  {
    for i := 0 to n
      invariant AreNumbered(t, i, tracer, Variables(t, i, tracer))
    {
      NumberedNext(t, i, tracer);
    }
  }

  lemma NumberedNext(t: Trace, n: nat, tracer: nat)
    requires WellTyped(t) && n < |t.appends| && AreNumbered(t, n, tracer, Variables(t, n, tracer))
    requires IsEntry(t, n, tracer) ==> KeyOf(t.kinds[t.appends[n].obj]) == Some(None)
    ensures AreNumbered(t, n + 1, tracer, Variables(t, n + 1, tracer))
  {
    var before := Variables(t, n, tracer);
    if IsEntry(t, n, tracer) {
      UnnamedEntered(t, n, tracer);
      NumberedOneMore(t, n, tracer, before, MadeUp(t.kinds[t.appends[n].obj].Gen?, |before|));
    } else {
      NumberedAsBefore(t, n, tracer, before);
      NothingEntered(t, n, tracer);
    }
  }

  /** The node whose value a variable node stands for: the name is looked up among the
      variables of the outermost tracer first. */
  function SourceOf(heap: Heap, variables: map<string, Id>, id: Id): Option<Id>
    requires id in heap
  {
    match heap[id].kind
    case Variable(name, source) => Some(if name in variables then variables[name] else source)
    case _ => None
  }

  // ----- the graph of a heap -----

  function IndexOf(order: seq<Id>, id: Id): (i: nat)
    requires id in order
    ensures i < |order| && order[i] == id
    ensures forall k :: 0 <= k < i ==> order[k] != id
  {
    if order[0] == id then 0 else 1 + IndexOf(order[1..], id)
  }

  /** Links of heap objects stay in the heap. */
  predicate Closed(heap: Heap, variables: map<string, Id>) {
    forall id :: id in heap ==>
      (heap[id].prev.Some? ==> heap[id].prev.value in heap) &&
      (SourceOf(heap, variables, id).Some? ==> SourceOf(heap, variables, id).value in heap)
  }

  predicate Comes(order: seq<Id>, before: Option<Id>, j: nat)
    requires j < |order|
  {
    before.Some? ==> before.value in order[..j]
  }

  /** Every object once, after its previous object and after its source. */
  predicate Topological(heap: Heap, variables: map<string, Id>, order: seq<Id>) {
    && Distinct(order)
    && (forall j :: 0 <= j < |order| ==> order[j] in heap)
    && (forall j :: 0 <= j < |order| ==>
          Comes(order, heap[order[j]].prev, j) && Comes(order, SourceOf(heap, variables, order[j]), j))
  }
}
